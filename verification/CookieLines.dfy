/** What the two line parsers guarantee of the cookies they produce, and that a printed line reads back
    (curl/lib/cookie.c). */
module CookieLines {
  import opened CString
  import opened CookieMatch
  import opened CookieParse
  import opened CookieJar

  // ---------- header lines ----------

  predicate DraftOk(d: Draft, insecure: bool)
  {
    var c := d.cookie;
    && (d.named ==>
          && c.name != ""
          && (HasSecurePrefix(c.name) ==> d.securePrefix)
          && (!HasSecurePrefix(c.name) && HasHostPrefix(c.name) ==> d.hostPrefix))
    && c.spath == (if c.path.None? then None else Some(Sanitize(c.path.value)))
    && (insecure ==> !c.secure)
  }

  /** A reserved prefix is long enough, and starts the way the parser expects, to be noticed. */
  lemma PrefixIsNoticed(name: string)
    requires HasSecurePrefix(name) || HasHostPrefix(name)
    ensures |name| > 3 && name[..2] == "__"
  {
    var n := if HasSecurePrefix(name) then 9 else 7;
    var want := if HasSecurePrefix(name) then "__Secure-" else "__Host-";
    assert Prefix(want, n) == want;
    assert CaseEq(want, Prefix(name, n));
    assert ToUpper(want[0]) == ToUpper(name[0]) && ToUpper(want[1]) == ToUpper(name[1]);
  }

  lemma SetAttrKeepsDraft(d: Draft, a: Attr, isIp: string -> bool, insecure: bool)
    requires DraftOk(d, insecure) && SetAttr(d, a, isIp).Some?
    ensures DraftOk(SetAttr(d, a, isIp).value, insecure)
  {
    hide CaseEq, HasSecurePrefix, HasHostPrefix, Sanitize, TailMatch, BadDomain;
  }

  lemma NotePrefixKeepsDraft(d: Draft, name: string, insecure: bool)
    requires DraftOk(d, insecure)
    ensures DraftOk(NotePrefix(d, name), insecure)
  {
    hide HasSecurePrefix, HasHostPrefix, Sanitize;
  }

  /** The first pair names the cookie, once its prefix has been noticed. */
  lemma NamingKeepsDraft(d: Draft, a: Attr, insecure: bool)
    requires DraftOk(d, insecure) && !d.named
    ensures var d1 := NotePrefix(d, a.name);
            DraftOk(d1.(named := true, cookie := d1.cookie.(name := a.name, value := a.what)), insecure)
  {
    if HasSecurePrefix(a.name) || HasHostPrefix(a.name) {
      PrefixIsNoticed(a.name);
    }
    hide HasSecurePrefix, HasHostPrefix, Sanitize;
  }

  lemma StepKeepsDraft(d: Draft, a: Attr, r: Request, running: bool)
    requires DraftOk(d, running && !r.secure) && Step(d, a, r, running).Some?
    ensures DraftOk(Step(d, a, r, running).value, running && !r.secure)
  {
    hide HasSecurePrefix, HasHostPrefix, Sanitize, SetAttr, InvalidOctets, CaseEq, NotePrefix;
    var d1 := NotePrefix(d, a.name);
    var insecure := running && !r.secure;
    NotePrefixKeepsDraft(d, a.name, insecure);
    NoteKeepsNamed(d, a.name);
    if !d.named {
      NamingKeepsDraft(d, a, insecure);
    } else if SetAttr(d1, a, r.isIp).Some? {
      SetAttrKeepsDraft(d1, a, r.isIp, insecure);
    }
  }

  lemma NoteKeepsNamed(d: Draft, name: string)
    ensures NotePrefix(d, name).named == d.named
  {
  }

  lemma {:induction false} StepsKeepDraft(d: Draft, attrs: seq<Attr>, r: Request, running: bool)
    requires DraftOk(d, running && !r.secure) && Steps(d, attrs, r, running).Some?
    ensures DraftOk(Steps(d, attrs, r, running).value, running && !r.secure)
    decreases |attrs|
  {
    if attrs != [] {
      StepKeepsDraft(d, attrs[0], r, running);
      StepsKeepDraft(Step(d, attrs[0], r, running).value, attrs[1..], r, running);
    }
  }

  lemma {:induction false} DecimalIsNatural(s: string)
    requires forall i :: 0 <= i < |s| ==> IsDigit(s[i])
    ensures Decimal(s) >= 0
  {
    if s != "" {
      DecimalIsNatural(s[..|s| - 1]);
    }
  }

  lemma {:induction false} LeadingDigitsAreDigits(s: string)
    ensures forall i :: 0 <= i < |LeadingDigits(s)| ==> IsDigit(LeadingDigits(s)[i])
  {
    if s != "" {
      LeadingDigitsAreDigits(s[1..]);
    }
  }

  lemma ToOffTRange(s: string)
    ensures ToOffT(s).Ok? ==> 0 <= ToOffT(s).value <= OFF_MAX
  {
    var t := SkipBlanks(s);
    var u := if t != "" && t[0] == '+' then t[1..] else t;
    LeadingDigitsAreDigits(u);
    DecimalIsNatural(LeadingDigits(u));
  }

  lemma ExpiryRange(d: Draft, r: Request)
    ensures 0 <= Expiry(d, r) <= OFF_MAX
  {
    if d.maxAge.Some? {
      var m := d.maxAge.value;
      ToOffTRange(if m != "" && m[0] == '"' then m[1..] else m);
    }
  }

  lemma FinishedCookie(d: Draft, r: Request, insecure: bool)
    requires DraftOk(d, insecure) && d.named
    ensures PrefixRules(Finish(d, r)) ==> WellFormed(Finish(d, r).cookie)
    ensures insecure ==> !Finish(d, r).cookie.secure
  {
    ExpiryRange(d, r);
  }

  /** A header cookie that passes the prefix rules is well formed, and over an insecure connection never secure. */
  lemma HeaderCookie(attrs: seq<Attr>, r: Request, running: bool)
    requires ParseHeader(attrs, r, running).Some?
    ensures var p := ParseHeader(attrs, r, running).value;
            && (PrefixRules(p) ==> WellFormed(p.cookie))
            && (running && !r.secure ==> !p.cookie.secure)
  {
    var start := Draft(false, BLANK_COOKIE, false, false, r.host, None, None);
    assert DraftOk(start, running && !r.secure);
    hide DraftOk;
    StepsKeepDraft(start, attrs, r, running);
    FinishedCookie(Steps(start, attrs, r, running).value, r, running && !r.secure);
  }

  // ---------- Netscape lines ----------

  lemma {:induction false} TokensAreClean(s: string)
    ensures forall t :: t in Tokens(s) ==> t != "" && TAB !in t
    decreases |s|
  {
    if s != "" {
      if s[0] == TAB {
        TokensAreClean(s[1..]);
      } else {
        TokensAreClean(s[Find(s, TAB)..]);
      }
    }
  }

  lemma NetscapeCookie(line: string, secure: bool, running: bool)
    requires ParseNetscape(line, secure, running).Some?
    ensures var p := ParseNetscape(line, secure, running).value;
            PrefixRules(p) ==> WellFormed(p.cookie)
  {
    var s := if HTTPONLY_PREAMBLE <= line then line[10..] else line;
    var f := Tokens(Cut(Cut(s, '\r'), '\n'));
    TokensAreClean(Cut(Cut(s, '\r'), '\n'));
    var g := if f[2] == "TRUE" || f[2] == "FALSE" then f[2..] else f[3..];
    assert g[2] in f;
    ToOffTRange(g[1]);
  }

  // ---------- a printed line reads back ----------

  lemma {:induction false} ItoaReadsBack(n: nat)
    ensures Itoa(n) != "" && (forall i :: 0 <= i < |Itoa(n)| ==> IsDigit(Itoa(n)[i]))
    ensures Decimal(Itoa(n)) == n
  {
    var last := (n % 10 + '0' as int) as char;
    assert Itoa(n) == (if n < 10 then "" else Itoa(n / 10)) + [last];
    assert Itoa(n)[..|Itoa(n)| - 1] == if n < 10 then "" else Itoa(n / 10);
    if n >= 10 {
      ItoaReadsBack(n / 10);
    }
  }

  lemma {:induction false} AllDigitsLead(s: string)
    requires forall i :: 0 <= i < |s| ==> IsDigit(s[i])
    ensures LeadingDigits(s) == s
  {
    if s != "" {
      AllDigitsLead(s[1..]);
    }
  }

  lemma PrintedNumber(n: nat)
    requires n <= OFF_MAX
    ensures ToOffT(Itoa(n)) == Ok(n)
    ensures TAB !in Itoa(n) && Itoa(n) != ""
  {
    ItoaReadsBack(n);
    assert IsDigit(Itoa(n)[0]);
    AllDigitsLead(Itoa(n));
  }

  function NonEmpty(f: seq<string>): seq<string>
  {
    if f == [] then [] else (if f[0] == "" then [] else [f[0]]) + NonEmpty(f[1..])
  }

  lemma TokensOfField(a: string, rest: string)
    requires TAB !in a
    ensures Tokens(a + [TAB] + rest) == (if a == "" then [] else [a]) + Tokens(rest)
  {
    var s := a + [TAB] + rest;
    if a == "" {
      assert s[1..] == rest;
    } else {
      FindUnique(s, TAB, |a|);
      assert s[..|a|] == a && s[|a|..] == [TAB] + rest;
      assert s[|a|..][1..] == rest;
      assert Tokens(s[|a|..]) == Tokens(rest);
    }
  }

  lemma TokensOfWord(a: string)
    requires TAB !in a
    ensures Tokens(a) == if a == "" then [] else [a]
  {
    if a != "" {
      FindUnique(a, TAB, |a|);
      assert a[..|a|] == a && a[|a|..] == "";
    }
  }

  /** Splitting joined fields gives the fields back, except the empty ones. */
  lemma {:induction false} TokensOfJoin(f: seq<string>)
    requires forall i :: 0 <= i < |f| ==> TAB !in f[i]
    ensures Tokens(Join(f)) == NonEmpty(f)
  {
    if |f| == 1 {
      TokensOfWord(f[0]);
    } else if f != [] {
      TokensOfField(f[0], Join(f[1..]));
      TokensOfJoin(f[1..]);
    }
  }

  lemma {:induction false} JoinIsClean(f: seq<string>, c: char)
    requires c != TAB && forall i :: 0 <= i < |f| ==> c !in f[i]
    ensures c !in Join(f)
  {
    if |f| > 1 {
      JoinIsClean(f[1..], c);
    }
  }

  lemma NothingToCut(s: string, c: char)
    requires c !in s
    ensures Cut(s, c) == s
  {
    FindUnique(s, c, |s|);
  }

  predicate Clean(s: string)
  {
    TAB !in s && '\r' !in s && '\n' !in s
  }

  /** Fields a line can carry: no separators inside them, and a domain and a name to print. */
  predicate Printable(c: Cookie)
  {
    && 0 <= c.expires <= OFF_MAX
    && c.domain.Some? && c.domain.value != "" && c.name != ""
    && Clean(c.domain.value) && Clean(PathField(c)) && Clean(c.name) && Clean(c.value)
  }

  /** What the reader makes of a path field. */
  function ReadPath(path: string): (string, string)
  {
    if path == "" then ("/", "/") else (path, Sanitize(path))
  }

  /** The cookie that comes back: an absent or empty path reads as "/", and the jar stamps the rest anew. */
  function Reloaded(c: Cookie): Cookie
  {
    c.(path := Some(ReadPath(PathField(c)).0), spath := Some(ReadPath(PathField(c)).1), live := false, ct := 0)
  }

  predicate Readable(c: Cookie)
    requires c.domain.Some? && c.domain.value != ""
  {
    && c.domain.value[0] != '.' && (c.domain.value[0] == '#' ==> c.tailmatch)
    && PathField(c) != "TRUE" && PathField(c) != "FALSE"
  }

  function WithPrefixes(c: Cookie): Parsed
  {
    Parsed(c, HasSecurePrefix(c.name), !HasSecurePrefix(c.name) && HasHostPrefix(c.name))
  }

  lemma {:induction false} NonEmptyAppend(f: seq<string>, g: seq<string>)
    ensures NonEmpty(f + g) == NonEmpty(f) + NonEmpty(g)
  {
    if f == [] {
      assert f + g == g;
    } else {
      assert (f + g)[1..] == f[1..] + g;
      NonEmptyAppend(f[1..], g);
    }
  }

  lemma {:induction false} NonEmptyAll(f: seq<string>)
    requires "" !in f
    ensures NonEmpty(f) == f
  {
    if f != [] {
      NonEmptyAll(f[1..]);
    }
  }

  lemma OptionalField(a: seq<string>, p: string)
    ensures NonEmpty(a + [p]) == NonEmpty(a) + if p == "" then [] else [p]
  {
    NonEmptyAppend(a, [p]);
  }

  lemma OptionalFields(a: seq<string>, p: string, b: seq<string>, v: string)
    requires "" !in a && "" !in b
    ensures NonEmpty(a + [p] + b + [v]) == a + (if p == "" then [] else [p]) + b + (if v == "" then [] else [v])
  {
    hide NonEmpty;
    NonEmptyAll(a);
    NonEmptyAll(b);
    OptionalField(a, p);
    NonEmptyAppend(a + [p], b);
    OptionalField(a + [p] + b, v);
  }

  lemma DigitsAreClean(n: nat)
    ensures Clean(Itoa(n)) && Itoa(n) != ""
  {
    ItoaReadsBack(n);
    hide Itoa;
    assert forall i :: 0 <= i < |Itoa(n)| ==> IsDigit(Itoa(n)[i]);
  }

  lemma DomainFieldIsClean(c: Cookie)
    requires Printable(c)
    ensures Clean(DomainField(c)) && DomainField(c) != ""
  {
  }

  lemma PrintedFieldsClean(c: Cookie)
    requires Printable(c)
    ensures forall f :: f in NetscapeFields(c) ==> Clean(f)
  {
    DigitsAreClean(c.expires);
    DomainFieldIsClean(c);
    assert Clean("TRUE") && Clean("FALSE");
    hide Itoa, Clean, DomainField, PathField;
  }

  /** The fields as the reader sees them. */
  function ReadFields(c: Cookie): seq<string>
    requires c.expires >= 0
  {
    [DomainField(c), Bool(c.tailmatch)] + (if PathField(c) == "" then [] else [PathField(c)]) + ReadTail(c)
  }

  function ReadTail(c: Cookie): seq<string>
    requires c.expires >= 0
  {
    [Bool(c.secure), Itoa(c.expires), c.name] + (if c.value == "" then [] else [c.value])
  }

  lemma SevenStrings(d: string, t: string, p: string, s: string, e: string, n: string, v: string)
    ensures [d, t, p, s, e, n, v] == [d, t] + [p] + [s, e, n] + [v]
  {
  }

  lemma NonEmptyPrinted(c: Cookie)
    requires Printable(c)
    ensures NonEmpty(NetscapeFields(c)) == ReadFields(c)
  {
    var head, tail := [DomainField(c), Bool(c.tailmatch)], [Bool(c.secure), Itoa(c.expires), c.name];
    DigitsAreClean(c.expires);
    DomainFieldIsClean(c);
    hide NonEmpty, Itoa, Clean, DomainField, PathField;
    assert "" !in head && "" !in tail;
    OptionalFields(head, PathField(c), tail, c.value);
    SevenStrings(DomainField(c), Bool(c.tailmatch), PathField(c), Bool(c.secure), Itoa(c.expires), c.name, c.value);
  }

  lemma CleanJoin(f: seq<string>)
    requires forall x :: x in f ==> Clean(x)
    ensures Tokens(Cut(Cut(Join(f), '\r'), '\n')) == NonEmpty(f)
  {
    assert forall i :: 0 <= i < |f| ==> Clean(f[i]);
    hide NonEmpty, Tokens, Cut, Join;
    JoinIsClean(f, '\r');
    JoinIsClean(f, '\n');
    NothingToCut(Join(f), '\r');
    NothingToCut(Join(f), '\n');
    TokensOfJoin(f);
  }

  lemma PrintedTokens(c: Cookie)
    requires Printable(c)
    ensures Tokens(Cut(Cut(Join(NetscapeFields(c)), '\r'), '\n')) == ReadFields(c)
  {
    hide Tokens, Cut, Join, NonEmpty, NetscapeFields, ReadFields;
    PrintedFieldsClean(c);
    CleanJoin(NetscapeFields(c));
    NonEmptyPrinted(c);
  }

  lemma PrintedTailReads(base: Cookie, c: Cookie)
    requires Printable(c)
    ensures TailFields(base, ReadTail(c), true, false) ==
            Some(WithPrefixes(base.(secure := c.secure, expires := c.expires, name := c.name, value := c.value)))
  {
    PrintedNumber(c.expires);
    hide ToOffT, Itoa, HasSecurePrefix, HasHostPrefix, Printable;
    assert CaseEq("TRUE", "TRUE") && !CaseEq("FALSE", "TRUE");
  }

  /** A path that reads as a flag makes the line unreadable. */
  lemma FlagForPathFails(base: Cookie, c: Cookie)
    requires Printable(c)
    ensures TailFields(base, [PathField(c)] + ReadTail(c), true, false).None?
  {
    var f := [PathField(c)] + ReadTail(c);
    if c.value == "" {
      assert f[1] == Bool(c.secure);
      assert LeadingDigits(f[1]) == "";
    } else {
      assert |f| == 5;
    }
  }

  function WithoutDot(s: string): string
  {
    if s != "" && s[0] == '.' then s[1..] else s
  }

  /** Reading the tokens of a printed cookie while loading a file. */
  lemma PrintedFieldsRead(c: Cookie)
    requires Printable(c)
    ensures Fields(ReadFields(c), c.httponly, true, false) ==
            if PathField(c) == "TRUE" || PathField(c) == "FALSE" then None
            else Some(WithPrefixes(Reloaded(c).(domain := Some(WithoutDot(DomainField(c))))))
  {
    var path := PathField(c);
    var f := ReadFields(c);
    var base := BLANK_COOKIE.(domain := Some(WithoutDot(DomainField(c))), tailmatch := c.tailmatch, httponly := c.httponly);
    assert CaseEq(Bool(c.tailmatch), "TRUE") == c.tailmatch;
    assert DomainField(c) != "";
    hide CaseEq, TailFields, Sanitize, DomainField, HasSecurePrefix, HasHostPrefix, Itoa, Printable;
    if path == "" {
      assert f[2] == Bool(c.secure) && f[2..] == ReadTail(c);
      PrintedTailReads(base.(path := Some("/"), spath := Some("/")), c);
    } else if path == "TRUE" || path == "FALSE" {
      assert f[2..] == [path] + ReadTail(c);
      FlagForPathFails(base.(path := Some("/"), spath := Some("/")), c);
    } else {
      assert f[3..] == ReadTail(c);
      PrintedTailReads(base.(path := Some(path), spath := Some(Sanitize(path))), c);
    }
  }

  lemma FirstOfPrinted(c: Cookie)
    requires Printable(c)
    ensures Join(NetscapeFields(c)) != "" && Join(NetscapeFields(c))[0] == DomainField(c)[0]
  {
  }

  lemma FieldsKeepFlag(f: seq<string>, httponly: bool, secure: bool, running: bool)
    ensures Fields(f, httponly, secure, running).Some? ==>
              Fields(f, httponly, secure, running).value.cookie.httponly == httponly
  {
    hide ToOffT, CaseEq, Sanitize;
  }

  lemma PreambleStarts(s: string)
    ensures HTTPONLY_PREAMBLE <= s ==> s[0] == '#'
    ensures HTTPONLY_PREAMBLE <= HTTPONLY_PREAMBLE + s && (HTTPONLY_PREAMBLE + s)[10..] == s
  {
    assert HTTPONLY_PREAMBLE[0] == '#';
  }

  /** The line of a printed cookie, once the preamble is off. */
  lemma PrintedLineReads(c: Cookie)
    requires Printable(c)
    ensures DomainField(c) != ""
    ensures DomainField(c)[0] != '#' ==>
              ParseNetscape(NetscapeFormat(c), true, false) == Fields(ReadFields(c), c.httponly, true, false)
    ensures DomainField(c)[0] == '#' ==>
              var p := ParseNetscape(NetscapeFormat(c), true, false);
              p.None? || p.value.cookie.httponly != c.httponly
  {
    var body := Join(NetscapeFields(c));
    FirstOfPrinted(c);
    PrintedTokens(c);
    PreambleStarts(body);
    hide Join, ReadFields, Printable, Tokens, Cut, Fields, DomainField;
    if c.httponly {
      assert NetscapeFormat(c) == HTTPONLY_PREAMBLE + body;
    } else {
      assert NetscapeFormat(c) == body by { assert "" + body == body; }
      if HTTPONLY_PREAMBLE <= body {
        FieldsKeepFlag(Tokens(Cut(Cut(body[10..], '\r'), '\n')), true, true, false);
      }
    }
  }

  /** Loading a printed line restores the cookie exactly when the domain and the path are not taken for something else. */
  lemma NetscapeRoundTrip(c: Cookie)
    requires Printable(c)
    ensures ParseNetscape(NetscapeFormat(c), true, false) == Some(WithPrefixes(Reloaded(c))) <==> Readable(c)
  {
    PrintedLineReads(c);
    PrintedFieldsRead(c);
    hide ParseNetscape, Fields, ReadFields, NetscapeFormat, HasSecurePrefix, HasHostPrefix, Sanitize, Clean;
  }
}
