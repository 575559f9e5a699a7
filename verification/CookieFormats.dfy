/** The two formats of a cookie, spelled out: what each part of a Set-Cookie header line sets, and what a line of a cookie
    file looks like (curl/lib/cookie.c). */
module CookieFormats {
  import opened CString
  import opened CookieMatch
  import opened CookieParse
  import opened CookieJar
  import opened CookieLines
  import opened CookieAnswers

  /** What a server asks for. */
  datatype SetCookie = SetCookie(
    name: string, value: string,
    path: Option<string>, domain: Option<string>, maxAge: Option<nat>, expires: Option<string>,
    secure: bool, httponly: bool)

  /** An attribute with content, if there is one. */
  function Given(name: string, what: Option<string>): seq<Attr>
    requires name != ""
  {
    if what.None? then [] else [Pair(name, true, what.value)]
  }

  function Flag(name: string, on: bool): seq<Attr>
    requires name != ""
  {
    if on then [Pair(name, false, "")] else []
  }

  function Seconds(n: Option<nat>): Option<string>
  {
    if n.None? then None else Some(Itoa(n.value))
  }

  /** The pairs of the header line. */
  function Header(w: SetCookie): seq<Attr>
    requires w.name != ""
  {
    [Pair(w.name, true, w.value)] + Given("Path", w.path) + Given("Domain", w.domain) + Given("Max-Age", Seconds(w.maxAge))
    + Given("Expires", w.expires) + Flag("Secure", w.secure) + Flag("HttpOnly", w.httponly)
  }

  /** The header can be read: no tabs inside, no control bytes in name and value, and an attribute that asks for a secure
      cookie comes over a secure connection or out of a file. */
  predicate WellMade(w: SetCookie, r: Request, running: bool)
  {
    && w.name != "" && Visible(w.name) && Visible(w.value)
    && (w.path.Some? ==> TAB !in w.path.value) && (w.domain.Some? ==> TAB !in w.domain.value && w.domain.value != "")
    && (w.expires.Some? ==> TAB !in w.expires.value)
    && (w.secure ==> r.secure || !running)
  }

  predicate Visible(s: string)
  {
    forall i :: 0 <= i < |s| ==> s[i] != 127 as char && 32 <= s[i] as int
  }

  function Undotted(domain: string): string
  {
    if domain != "" && domain[0] == '.' then domain[1..] else domain
  }

  /** A name that is "localhost" or has a dot inside. */
  predicate Proper(name: string)
  {
    SameText(name, "localhost") || exists i :: 0 <= i < |name| - 1 && name[i] == '.'
  }

  /** The requested host lies within the domain asked for; with an improper one only the name ":" does. */
  ghost predicate Within(host: Option<string>, domain: string, isIp: string -> bool)
  {
    if !Proper(domain) then domain == ":"
    else if host.None? then true
    else if isIp(host.value) then domain == host.value
    else SameText(host.value, domain) || exists sub, top :: host.value == sub + "." + top && SameText(domain, top)
  }

  lemma ProperRule(name: string)
    ensures BadDomain(name) <==> !Proper(name)
  {
    CaseEqIsSameText(name, "localhost");
    var k := Find(name, '.');
    if i :| 0 <= i < |name| - 1 && name[i] == '.' {
      assert k <= i;
    }
    hide SameText, CaseEq;
  }

  /** A domain attribute is accepted if and only if the requested host lies within it. */
  lemma DomainRule(d: Draft, what: string, isIp: string -> bool)
    requires what != ""
    ensures var top := Undotted(what);
            var host := if Proper(top) then d.host else Some(":");
            SetDomain(d, what, isIp) ==
            if !Within(d.host, top, isIp) then None else
            Some(d.(host := host,
                    cookie := d.cookie.(domain := Some(top),
                                        tailmatch := !isIp(if host.Some? then host.value else top) || d.cookie.tailmatch)))
  {
    var top := Undotted(what);
    hide SameText, BadDomain, Proper, TailMatch;
    ProperRule(top);
    var host := if Proper(top) then d.host else Some(":");
    if host.Some? {
      BelowDomain(top, host.value);
    }
    if !Proper(top) {
      OnlyColon(top);
    }
  }

  /** A domain attribute without content is skipped. */
  lemma EmptyDomainIsSkipped(d: Draft, sep: bool, r: Request, running: bool)
    requires d.named
    ensures Step(d, Pair("Domain", sep, ""), r, running) == Some(d)
  {
    PrefixRule("Domain");
    assert "Domain"[0] != '_';
    assert |"Domain"| == 6 && |"secure"| == 6 && "Domain"[0] == 'D' && "secure"[0] == 's' && ToUpper('D') != ToUpper('s');
  }

  lemma OnlyColon(top: string)
    ensures TailMatch(top, ":") <==> top == ":"
  {
    if TailMatch(top, ":") && |top| == 1 {
      assert ":"[0..] == ":";
      assert ToUpper(top[0]) == ToUpper(':') == ':';
    }
    assert ":"[|":"| - 1..] == ":";
  }

  /** When the cookie expires, 0 for a session cookie. */
  function ExpiresAt(w: SetCookie, r: Request): int
  {
    if w.maxAge.Some? then
      if w.maxAge.value == 0 then 1
      else if r.now + w.maxAge.value > 0x7FFF_FFFF_FFFF_FFFF then 0x7FFF_FFFF_FFFF_FFFF
      else r.now + w.maxAge.value
    else if w.expires.Some? then
      var t := r.date(w.expires.value);
      if t < 0 then 0 else if t == 0 then 1 else t
    else 0
  }

  lemma ExpiryRule(d: Draft, w: SetCookie, r: Request)
    requires d.maxAge == Seconds(w.maxAge) && d.expireStr == w.expires
    ensures Expiry(d, r) == ExpiresAt(w, r)
  {
    if w.maxAge.Some? {
      var n := w.maxAge.value;
      ItoaReadsBack(n);
      AllDigitsLead(Itoa(n));
      assert IsDigit(Itoa(n)[0]);
      assert SkipBlanks(Itoa(n)) == Itoa(n);
    }
  }

  /** The parts of a `Max-Age` text: a quote, blanks and a plus sign that are skipped, then digits, then anything else. */
  predicate MaxAgeParts(quote: string, blanks: string, sign: string, digits: string, rest: string)
  {
    && quote in {"", "\""} && sign in {"", "+"}
    && (forall i :: 0 <= i < |blanks| ==> IsBlank(blanks[i])) && (forall i :: 0 <= i < |digits| ==> '0' <= digits[i] <= '9')
    && (rest != "" ==> !('0' <= rest[0] <= '9'))
    && (digits == "" && rest != "" ==>
          && (sign == "" ==> rest[0] != '+' && !IsBlank(rest[0]))
          && (quote + blanks + sign == "" ==> rest[0] != '"'))
  }

  /** Any `Max-Age` text: without digits where they are looked for the cookie expires at once. */
  lemma MaxAgeRule(d: Draft, r: Request, quote: string, blanks: string, sign: string, digits: string, rest: string)
    requires MaxAgeParts(quote, blanks, sign, digits, rest)
    requires d.maxAge == Some(quote + (blanks + (sign + (digits + rest))))
    ensures var n := Decimal(digits);
            Expiry(d, r) == if digits == "" || n == 0 then 1
                            else if r.now + n > 0x7FFF_FFFF_FFFF_FFFF then 0x7FFF_FFFF_FFFF_FFFF else r.now + n
  {
    hide Decimal, LeadingDigits, SkipBlanks, IsBlank, MaxAgeParts;
    var s := sign + (digits + rest);
    FirstOfParts(quote, blanks, sign, digits, rest);
    BlanksSkipped(blanks, s);
    DigitsLead(digits, rest);
  }

  /** The quote and the sign are seen exactly when they are there. */
  lemma FirstOfParts(quote: string, blanks: string, sign: string, digits: string, rest: string)
    requires MaxAgeParts(quote, blanks, sign, digits, rest)
    ensures var s := sign + (digits + rest); var m := quote + (blanks + s);
            && (if m != "" && m[0] == '"' then m[1..] else m) == blanks + s
            && (if s != "" && s[0] == '+' then s[1..] else s) == digits + rest
            && (s != "" ==> !IsBlank(s[0])) && (rest != "" ==> !IsDigit(rest[0]))
            && (forall i :: 0 <= i < |blanks| ==> IsBlank(blanks[i])) && (forall i :: 0 <= i < |digits| ==> IsDigit(digits[i]))
  {
    var s := sign + (digits + rest);
    SignSeen(sign, digits, rest);
    assert quote != "" ==> (quote + (blanks + s))[1..] == blanks + s;
    assert quote == "" ==> quote + (blanks + s) == blanks + s;
    assert blanks == "" ==> blanks + s == s;
  }

  lemma SignSeen(sign: string, digits: string, rest: string)
    requires sign in {"", "+"} && forall i :: 0 <= i < |digits| ==> IsDigit(digits[i])
    requires digits == "" && rest != "" && sign == "" ==> rest[0] != '+' && !IsBlank(rest[0])
    ensures var s := sign + (digits + rest);
            && (if s != "" && s[0] == '+' then s[1..] else s) == digits + rest
            && (s != "" ==> !IsBlank(s[0]))
            && (digits != "" && sign == "" ==> s != "" && s[0] == digits[0])
            && (digits == "" && sign == "" ==> s == rest)
            && (sign != "" ==> s != "" && s[0] == '+')
  {
  }

  lemma {:induction false} BlanksSkipped(blanks: string, s: string)
    requires (forall i :: 0 <= i < |blanks| ==> IsBlank(blanks[i])) && (s != "" ==> !IsBlank(s[0]))
    ensures SkipBlanks(blanks + s) == s
    decreases |blanks|
  {
    if blanks == "" {
      assert blanks + s == s;
    } else {
      assert (blanks + s)[1..] == blanks[1..] + s;
      BlanksSkipped(blanks[1..], s);
    }
  }

  lemma {:induction false} DigitsLead(digits: string, rest: string)
    requires (forall i :: 0 <= i < |digits| ==> IsDigit(digits[i])) && (rest != "" ==> !IsDigit(rest[0]))
    ensures LeadingDigits(digits + rest) == digits
    decreases |digits|
  {
    if digits == "" {
      assert digits + rest == rest;
    } else {
      assert (digits + rest)[1..] == digits[1..] + rest;
      DigitsLead(digits[1..], rest);
    }
  }

  /** The cookie a header line makes. */
  function Asked(w: SetCookie, r: Request): Cookie
  {
    var path := if w.path.Some? then w.path else if r.path.Some? then DefaultPath(r.path.value) else None;
    var top := if w.domain.Some? then Undotted(w.domain.value) else "";
    var asked := if !Proper(top) then ":" else if r.host.Some? then r.host.value else top;
    Cookie(w.name, w.value, path, if path.Some? then Some(Sanitize(path.value)) else None,
           if w.domain.Some? then Some(top) else r.host,
           ExpiresAt(w, r), w.domain.Some? && !r.isIp(asked), w.secure, false, w.httponly, 0)
  }

  predicate StartsLike(s: string, prefix: string)
  {
    |s| >= |prefix| && SameText(s[..|prefix|], prefix)
  }

  lemma PrefixRule(name: string)
    ensures HasSecurePrefix(name) <==> StartsLike(name, "__Secure-")
    ensures HasHostPrefix(name) <==> StartsLike(name, "__Host-")
  {
    if |name| >= 9 {
      CaseEqIsSameText(name[..9], "__Secure-");
    }
    if |name| >= 7 {
      CaseEqIsSameText(name[..7], "__Host-");
    }
    assert "__Secure-"[..9] == "__Secure-" && "__Host-"[..7] == "__Host-";
    hide SameText;
  }

  // ---------- reading the pairs ----------

  lemma {:induction false} StepsInTurn(d: Draft, a: seq<Attr>, b: seq<Attr>, r: Request, running: bool)
    ensures Steps(d, a + b, r, running) ==
            var e := Steps(d, a, r, running); if e.None? then None else Steps(e.value, b, r, running)
    decreases |a|
  {
    hide Step;
    if a == [] {
      assert a + b == b;
    } else {
      assert (a + b)[1..] == a[1..] + b;
      var next := Step(d, a[0], r, running);
      if next.Some? {
        StepsInTurn(next.value, a[1..], b, r, running);
      }
    }
  }

  lemma OneStep(d: Draft, a: Attr, r: Request, running: bool)
    ensures Steps(d, [a], r, running) == Step(d, a, r, running)
  {
    hide Step;
    assert [a][1..] == [];
  }

  lemma NotAPrefix(d: Draft, name: string)
    requires name != "" && name[0] != '_'
    ensures NotePrefix(d, name) == d
  {
  }

  lemma AttributeNames()
    ensures CaseEq("path", "Path") && CaseEq("domain", "Domain") && CaseEq("max-age", "Max-Age") && CaseEq("expires", "Expires")
    ensures CaseEq("secure", "Secure") && CaseEq("httponly", "HttpOnly")
    ensures !CaseEq("path", "Domain") && !CaseEq("path", "Max-Age") && !CaseEq("path", "Expires")
    ensures !CaseEq("domain", "Max-Age") && !CaseEq("domain", "Expires") && !CaseEq("version", "Max-Age")
    ensures !CaseEq("version", "Expires") && !CaseEq("max-age", "Expires") && !CaseEq("secure", "HttpOnly")
    ensures !CaseEq("secure", "Path") && !CaseEq("httponly", "Path") && !CaseEq("secure", "Domain") && !CaseEq("httponly", "Domain")
    ensures !CaseEq("secure", "Max-Age") && !CaseEq("httponly", "Max-Age")
    ensures !CaseEq("secure", "Expires") && !CaseEq("httponly", "Expires")
  {
    assert ToUpper("path"[0]) != ToUpper("Domain"[0]);
    assert ToUpper("secure"[0]) != ToUpper("Domain"[0]) && ToUpper("httponly"[0]) != ToUpper("Domain"[0]);
    assert ToUpper("version"[0]) != ToUpper("Max-Age"[0]) && ToUpper("version"[0]) != ToUpper("Expires"[0]);
    assert ToUpper("max-age"[0]) != ToUpper("Expires"[0]);
  }

  lemma PathRead(d: Draft, path: Option<string>, r: Request, running: bool)
    requires d.named
    ensures Steps(d, Given("Path", path), r, running) ==
            if path.None? then Some(d)
            else if TAB in path.value then None
            else Some(d.(cookie := d.cookie.(path := path, spath := Some(Sanitize(path.value)))))
  {
    AttributeNames();
    hide CaseEq, Sanitize, SetDomain;
    if path.Some? {
      OneStep(d, Pair("Path", true, path.value), r, running);
      NotAPrefix(d, "Path");
    }
  }

  lemma DomainRead(d: Draft, domain: Option<string>, r: Request, running: bool)
    requires d.named && domain != Some("")
    ensures Steps(d, Given("Domain", domain), r, running) ==
            if domain.None? then Some(d)
            else if TAB in domain.value then None
            else SetDomain(d, domain.value, r.isIp)
  {
    AttributeNames();
    hide CaseEq, Sanitize, SetDomain;
    if domain.Some? {
      OneStep(d, Pair("Domain", true, domain.value), r, running);
      NotAPrefix(d, "Domain");
    }
  }

  lemma MaxAgeRead(d: Draft, maxAge: Option<nat>, r: Request, running: bool)
    requires d.named
    ensures Steps(d, Given("Max-Age", Seconds(maxAge)), r, running) ==
            Some(if maxAge.None? then d else d.(maxAge := Seconds(maxAge)))
  {
    AttributeNames();
    hide CaseEq, Sanitize, SetDomain, Itoa;
    if maxAge.Some? {
      ItoaReadsBack(maxAge.value);
      OneStep(d, Pair("Max-Age", true, Itoa(maxAge.value)), r, running);
      NotAPrefix(d, "Max-Age");
    }
  }

  lemma ExpiresRead(d: Draft, expires: Option<string>, r: Request, running: bool)
    requires d.named
    ensures Steps(d, Given("Expires", expires), r, running) ==
            if expires.None? then Some(d)
            else if TAB in expires.value then None
            else Some(d.(expireStr := expires))
  {
    AttributeNames();
    hide CaseEq, Sanitize, SetDomain;
    if expires.Some? {
      OneStep(d, Pair("Expires", true, expires.value), r, running);
      NotAPrefix(d, "Expires");
    }
  }

  lemma FlagsRead(d: Draft, secure: bool, httponly: bool, r: Request, running: bool)
    requires d.named
    ensures Steps(d, Flag("Secure", secure), r, running) ==
            if !secure then Some(d)
            else if r.secure || !running then Some(d.(cookie := d.cookie.(secure := true)))
            else None
    ensures Steps(d, Flag("HttpOnly", httponly), r, running) ==
            Some(if httponly then d.(cookie := d.cookie.(httponly := true)) else d)
  {
    AttributeNames();
    hide CaseEq, Sanitize, SetDomain, SetAttr;
    OneStep(d, Pair("Secure", false, ""), r, running);
    OneStep(d, Pair("HttpOnly", false, ""), r, running);
    NotAPrefix(d, "Secure");
    NotAPrefix(d, "HttpOnly");
  }

  /** The cookie under construction once it has its name. */
  function Named(w: SetCookie, r: Request): Draft
  {
    Draft(true, BLANK_COOKIE.(name := w.name, value := w.value), HasSecurePrefix(w.name),
          !HasSecurePrefix(w.name) && HasHostPrefix(w.name), r.host, None, None)
  }

  lemma VisibleOctets(s: string)
    requires TAB !in s && forall i :: 0 <= i < |s| ==> s[i] != 0 as char
    ensures InvalidOctets(s) <==> !Visible(s)
  {
    assert forall i :: 0 <= i < |s| ==> s[i] != TAB;
  }

  lemma NameRead(w: SetCookie, r: Request, running: bool)
    requires w.name != "" && TAB !in w.name
    requires forall i :: 0 <= i < |w.name| ==> w.name[i] != 0 as char
    requires forall i :: 0 <= i < |w.value| ==> w.value[i] != 0 as char
    ensures Steps(Draft(false, BLANK_COOKIE, false, false, r.host, None, None), [Pair(w.name, true, w.value)], r, running) ==
            if Visible(w.name) && Visible(w.value) then Some(Named(w, r)) else None
  {
    var start := Draft(false, BLANK_COOKIE, false, false, r.host, None, None);
    VisibleOctets(w.name);
    if HasSecurePrefix(w.name) || HasHostPrefix(w.name) {
      PrefixIsNoticed(w.name);
    }
    hide HasSecurePrefix, HasHostPrefix, InvalidOctets;
    OneStep(start, Pair(w.name, true, w.value), r, running);
    if TAB in w.value {
      assert !Visible(w.value);
    } else {
      VisibleOctets(w.value);
    }
  }

  /** The draft after the attributes with content, if the line is good so far. */
  function WithContent(d: Draft, w: SetCookie, r: Request): Draft
  {
    var d1 := if w.path.None? then d else d.(cookie := d.cookie.(path := w.path, spath := Some(Sanitize(w.path.value))));
    var d2 := if w.domain.None? || SetDomain(d1, w.domain.value, r.isIp).None? then d1
              else SetDomain(d1, w.domain.value, r.isIp).value;
    var d3 := if w.maxAge.None? then d2 else d2.(maxAge := Seconds(w.maxAge));
    if w.expires.None? then d3 else d3.(expireStr := w.expires)
  }

  predicate ContentGood(d: Draft, w: SetCookie, r: Request)
  {
    && (w.path.Some? ==> TAB !in w.path.value) && (w.expires.Some? ==> TAB !in w.expires.value)
    && (w.domain.Some? ==> TAB !in w.domain.value && SetDomain(d, w.domain.value, r.isIp).Some?)
  }

  lemma ContentRead(d: Draft, w: SetCookie, r: Request, running: bool)
    requires d.named && w.domain != Some("")
    ensures Steps(d, Given("Path", w.path) + Given("Domain", w.domain) + Given("Max-Age", Seconds(w.maxAge))
                     + Given("Expires", w.expires), r, running) ==
            if ContentGood(d, w, r) then Some(WithContent(d, w, r)) else None
  {
    hide Steps, Sanitize, Given, Seconds;
    var (a, b, c, e) :=
      (Given("Path", w.path), Given("Domain", w.domain), Given("Max-Age", Seconds(w.maxAge)), Given("Expires", w.expires));
    StepsInTurn(d, a + b + c, e, r, running);
    StepsInTurn(d, a + b, c, r, running);
    StepsInTurn(d, a, b, r, running);
    PathRead(d, w.path, r, running);
    if Steps(d, a, r, running).Some? {
      var d1 := Steps(d, a, r, running).value;
      DomainRead(d1, w.domain, r, running);
      if Steps(d1, b, r, running).Some? {
        var d2 := Steps(d1, b, r, running).value;
        MaxAgeRead(d2, w.maxAge, r, running);
        ExpiresRead(Steps(d2, c, r, running).value, w.expires, r, running);
      }
    }
  }

  /** What the content makes of a cookie with only its name. */
  function Filled(w: SetCookie, r: Request): Cookie
  {
    var top := if w.domain.Some? then Undotted(w.domain.value) else "";
    var asked := if !Proper(top) then ":" else if r.host.Some? then r.host.value else top;
    Cookie(w.name, w.value, w.path, if w.path.Some? then Some(Sanitize(w.path.value)) else None,
           if w.domain.Some? then Some(top) else None, 0, w.domain.Some? && !r.isIp(asked), false, false, false, 0)
  }

  lemma FilledBy(w: SetCookie, r: Request)
    requires w.name != "" && w.domain != Some("") && ContentGood(Named(w, r), w, r)
    ensures var d := WithContent(Named(w, r), w, r);
            && d.cookie == Filled(w, r) && d.maxAge == Seconds(w.maxAge) && d.expireStr == w.expires
            && (w.domain.None? ==> d.host == r.host) && d.named && d.securePrefix == HasSecurePrefix(w.name)
            && d.hostPrefix == (!HasSecurePrefix(w.name) && HasHostPrefix(w.name))
  {
    hide Sanitize, HasSecurePrefix, HasHostPrefix, SetDomain, Within, Proper;
    if w.domain.Some? {
      var d1 := if w.path.None? then Named(w, r)
                else Named(w, r).(cookie := Named(w, r).cookie.(path := w.path, spath := Some(Sanitize(w.path.value))));
      DomainRule(d1, w.domain.value, r.isIp);
      DomainRule(Named(w, r), w.domain.value, r.isIp);
    }
  }

  /** The end of the line: the defaults for what has not been set. */
  lemma FinishIs(d: Draft, w: SetCookie, r: Request)
    requires w.name != ""
    requires d.cookie == Filled(w, r).(secure := w.secure, httponly := w.httponly)
    requires d.maxAge == Seconds(w.maxAge) && d.expireStr == w.expires && (w.domain.None? ==> d.host == r.host)
    ensures Finish(d, r) == Parsed(Asked(w, r), d.securePrefix, d.hostPrefix)
  {
    hide Sanitize, Expiry, DefaultPath, Proper;
    ExpiryRule(d, w, r);
  }

  /** A Set-Cookie line is read if and only if it is well made and the requested host lies within the domain it asks for;
      then it makes the cookie asked for, and its reserved name prefix is noticed. */
  lemma HeaderReads(w: SetCookie, r: Request, running: bool)
    requires w.name != "" && TAB !in w.name && w.domain != Some("")
    requires forall i :: 0 <= i < |w.name| ==> w.name[i] != 0 as char
    requires forall i :: 0 <= i < |w.value| ==> w.value[i] != 0 as char
    ensures var good := WellMade(w, r, running)
                        && (w.domain.Some? ==> Within(r.host, Undotted(w.domain.value), r.isIp));
            ParseHeader(Header(w), r, running) ==
            if good then
              Some(Parsed(Asked(w, r), StartsLike(w.name, "__Secure-"),
                          !StartsLike(w.name, "__Secure-") && StartsLike(w.name, "__Host-")))
            else None
  {
    hide Steps, Sanitize, Given, Seconds, WithContent, HasSecurePrefix, HasHostPrefix, Within, Visible, StartsLike, Finish,
      SetDomain, Asked, Flag, Proper;
    PrefixRule(w.name);
    var start := Draft(false, BLANK_COOKIE, false, false, r.host, None, None);
    var content := Given("Path", w.path) + Given("Domain", w.domain) + Given("Max-Age", Seconds(w.maxAge))
                   + Given("Expires", w.expires);
    var first: seq<Attr> := [Pair(w.name, true, w.value)];
    var (s, h) := (Flag("Secure", w.secure), Flag("HttpOnly", w.httponly));
    assert Header(w) == first + content + s + h;
    StepsInTurn(start, first + content + s, h, r, running);
    StepsInTurn(start, first + content, s, r, running);
    StepsInTurn(start, first, content, r, running);
    NameRead(w, r, running);
    if w.domain.Some? {
      DomainRule(Named(w, r), w.domain.value, r.isIp);
    }
    if Visible(w.name) && Visible(w.value) {
      ContentRead(Named(w, r), w, r, running);
      if ContentGood(Named(w, r), w, r) {
        var d := WithContent(Named(w, r), w, r);
        FilledBy(w, r);
        FlagsRead(d, w.secure, w.httponly, r, running);
        var d1 := if w.secure then d.(cookie := d.cookie.(secure := true)) else d;
        FlagsRead(d1, w.secure, w.httponly, r, running);
        FinishIs(if w.httponly then d1.(cookie := d1.cookie.(httponly := true)) else d1, w, r);
      }
    }
  }
}
