/** A line of a cookie file, spelled out field by field (curl/lib/cookie.c). */
module CookieFile {
  import opened CString
  import opened CookieMatch
  import opened CookieParse
  import opened CookieJar
  import opened CookieLines
  import opened CookieAnswers
  import opened CookieFormats

  /** What a line says; path and value may be missing. */
  datatype FileLine = FileLine(
    httponly: bool, domain: string, flag: string, path: Option<string>, secure: string, expires: nat, name: string,
    value: Option<string>)

  function Optional(s: Option<string>): seq<string>
  {
    if s.Some? then [s.value] else []
  }

  function FieldsOf(l: FileLine): seq<string>
  {
    [l.domain, l.flag] + Optional(l.path) + [l.secure, Itoa(l.expires), l.name] + Optional(l.value)
  }

  /** A field that can be told apart: something in it, and no tab and no end of line. */
  predicate Distinguished(s: string)
  {
    s != "" && Clean(s)
  }

  /** What is written can be told apart: the domain from a comment, the path from the flag after it. */
  predicate Legible(l: FileLine)
  {
    && Distinguished(l.domain) && Distinguished(l.flag) && Distinguished(l.secure) && Distinguished(l.name)
    && (l.path.Some? ==> Distinguished(l.path.value)) && (l.value.Some? ==> Distinguished(l.value.value))
    && l.domain[0] != '#'
    && if l.path.Some? then l.path.value !in {"TRUE", "FALSE"} else l.secure in {"TRUE", "FALSE"}
  }

  /** Nothing, or an end of line and whatever follows. */
  predicate LineEnd(end: string)
  {
    end == "" || end[0] in {'\r', '\n'}
  }

  /** The cookie of a line; a missing path is "/", and then its sanitized form is too. */
  function Meant(l: FileLine): Cookie
  {
    Cookie(l.name, if l.value.Some? then l.value.value else "",
           Some(if l.path.Some? then l.path.value else "/"), Some(if l.path.Some? then Sanitize(l.path.value) else "/"),
           Some(Undotted(l.domain)), l.expires, SameText(l.flag, "TRUE"), SameText(l.secure, "TRUE"), false, l.httponly, 0)
  }

  lemma CutBoth(s: string, end: string)
    requires '\r' !in s && '\n' !in s && LineEnd(end)
    ensures Cut(Cut(s + end, '\r'), '\n') == s
  {
    var k := Find(end, '\r');
    if end == "" || end[0] == '\r' {
      FindUnique(s + end, '\r', |s|);
      assert (s + end)[..|s|] == s;
      NothingToCut(s, '\n');
    } else {
      FindUnique(s + end, '\r', |s| + k);
      var t := (s + end)[..|s| + k];
      FindUnique(t, '\n', |s|);
      assert t[..|s|] == s;
    }
  }

  lemma FirstOfJoin(f: seq<string>)
    requires f != [] && f[0] != ""
    ensures Join(f) != "" && Join(f)[0] == f[0][0]
  {
  }

  /** A line of fields with something in them is read as these fields. */
  lemma LineIsItsFields(f: seq<string>, httponly: bool, end: string, secure: bool, running: bool)
    requires f != [] && (forall x :: x in f ==> Distinguished(x)) && f[0] != "" && f[0][0] != '#' && LineEnd(end)
    ensures ParseNetscape((if httponly then "#HttpOnly_" else "") + (Join(f) + end), secure, running) ==
            Fields(f, httponly, secure, running)
  {
    hide Join, Tokens, Cut, Fields, Clean, NonEmpty;
    FieldsClean(f);
    FirstOfJoin(f);
    CutBoth(Join(f), end);
    assert f[0] in f;
    TokensOfJoin(f);
    NonEmptyAll(f);
    PreambleStarts(Join(f) + end);
    if !httponly {
      assert "" + (Join(f) + end) == Join(f) + end;
    }
  }

  lemma FieldsClean(f: seq<string>)
    requires forall x :: x in f ==> Distinguished(x)
    ensures '\r' !in Join(f) && '\n' !in Join(f) && "" !in f && forall i :: 0 <= i < |f| ==> TAB !in f[i]
  {
    assert forall i :: 0 <= i < |f| ==> Distinguished(f[i]);
    JoinIsClean(f, '\r');
    JoinIsClean(f, '\n');
  }

  /** Too few or too many fields, a missing path counted in, and the line is turned away. */
  lemma FieldCountRule(f: seq<string>, httponly: bool, end: string, secure: bool, running: bool)
    requires f != [] && (forall x :: x in f ==> Distinguished(x)) && f[0] != "" && f[0][0] != '#' && LineEnd(end)
    requires |f| + (if |f| >= 3 && f[2] in {"TRUE", "FALSE"} then 1 else 0) !in {6, 7}
    ensures ParseNetscape((if httponly then "#HttpOnly_" else "") + (Join(f) + end), secure, running) == None
  {
    hide ParseNetscape, Join, Sanitize, CaseEq, ToOffT, Distinguished;
    LineIsItsFields(f, httponly, end, secure, running);
  }

  lemma CommentRule(s: string, secure: bool, running: bool)
    requires s != "" && s[0] == '#'
    ensures !("#HttpOnly_" <= s) ==> ParseNetscape(s, secure, running) == None
    ensures ParseNetscape("#HttpOnly_" + s, secure, running) == None
  {
    PreambleStarts(s);
    hide Fields, Tokens, Cut;
  }

  /** A legible line makes the cookie it means, unless it asks for a secure cookie, the caller is not secure and the jar is
      not running yet, or its expiry time is too large. */
  lemma FileLineReads(l: FileLine, end: string, secure: bool, running: bool)
    requires Legible(l) && LineEnd(end)
    ensures var text := (if l.httponly then "#HttpOnly_" else "") + (Join(FieldsOf(l)) + end);
            ParseNetscape(text, secure, running) ==
            if l.expires <= 0x7FFF_FFFF_FFFF_FFFF && (SameText(l.secure, "TRUE") ==> secure || running) then
              Some(Parsed(Meant(l), StartsLike(l.name, "__Secure-"),
                          !StartsLike(l.name, "__Secure-") && StartsLike(l.name, "__Host-")))
            else None
  {
    hide ParseNetscape, Join, FieldsOf, Fields, SameText, Meant, StartsLike, Distinguished;
    AllDistinguished(l);
    LineIsItsFields(FieldsOf(l), l.httponly, end, secure, running);
    FieldsMean(l, secure, running);
  }

  lemma AllDistinguished(l: FileLine)
    requires Legible(l)
    ensures forall x :: x in FieldsOf(l) ==> Distinguished(x)
    ensures FieldsOf(l) != [] && FieldsOf(l)[0] != "" && FieldsOf(l)[0][0] != '#'
  {
    hide Itoa, Clean;
    DigitsAreClean(l.expires);
  }

  lemma FieldsMean(l: FileLine, secure: bool, running: bool)
    requires Legible(l)
    ensures Fields(FieldsOf(l), l.httponly, secure, running) ==
            if l.expires <= 0x7FFF_FFFF_FFFF_FFFF && (SameText(l.secure, "TRUE") ==> secure || running) then
              Some(Parsed(Meant(l), StartsLike(l.name, "__Secure-"),
                          !StartsLike(l.name, "__Secure-") && StartsLike(l.name, "__Host-")))
            else None
  {
    hide Itoa, Sanitize, CaseEq, SameText, ToOffT, StartsLike, HasSecurePrefix, HasHostPrefix, Clean;
    CaseEqIsSameText(l.flag, "TRUE");
    CaseEqIsSameText(l.secure, "TRUE");
    PrefixRule(l.name);
    NumberReads(l.expires);
    var f, tail := FieldsOf(l), [l.secure, Itoa(l.expires), l.name] + Optional(l.value);
    if l.path.Some? {
      assert f == [l.domain, l.flag, l.path.value] + tail && f[3..] == tail;
    } else {
      assert f == [l.domain, l.flag] + tail && f[2..] == tail && f[2] == l.secure;
    }
  }

  lemma NumberReads(n: nat)
    ensures ToOffT(Itoa(n)) == if n <= 0x7FFF_FFFF_FFFF_FFFF then Ok(n) else Overflow
  {
    ItoaReadsBack(n);
    assert IsDigit(Itoa(n)[0]);
    AllDigitsLead(Itoa(n));
  }
}
