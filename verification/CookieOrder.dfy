/** The attributes of a Set-Cookie line may come in any order (curl/lib/cookie.c). */
module CookieOrder {
  import opened CString
  import opened CookieMatch
  import opened CookieParse
  import opened CookieJar
  import opened CookieLines
  import opened CookieAnswers
  import opened CookieFormats

  /** What a pair after the first one is about. */
  datatype Kind = Tabbed | SecureFlag | HttpOnlyFlag | PathIs | DomainIs | MaxAgeIs | ExpiresIs | Nothing

  function ContentKind(a: Attr): Kind
  {
    if SameText("path", a.name) then PathIs
    else if SameText("domain", a.name) && a.what != "" then DomainIs
    else if SameText("max-age", a.name) then MaxAgeIs
    else if SameText("expires", a.name) then ExpiresIs
    else Nothing
  }

  function KindOf(a: Attr): Kind
  {
    if TAB in a.what then Tabbed
    else if a.what == "" && SameText("secure", a.name) then SecureFlag
    else if a.what == "" && SameText("httponly", a.name) then HttpOnlyFlag
    else if a.what == "" && !a.sep then Nothing
    else ContentKind(a)
  }

  /** What a pair of this kind does to the cookie under construction. */
  function Effect(d: Draft, k: Kind, what: string, r: Request, running: bool): Option<Draft>
    requires k == DomainIs ==> what != ""
  {
    match k
    case Tabbed => None
    case SecureFlag => if r.secure || !running then Some(d.(cookie := d.cookie.(secure := true))) else None
    case HttpOnlyFlag => Some(d.(cookie := d.cookie.(httponly := true)))
    case PathIs => Some(d.(cookie := d.cookie.(path := Some(what), spath := Some(Sanitize(what)))))
    case DomainIs => SetDomain(d, what, r.isIp)
    case MaxAgeIs => Some(d.(maxAge := Some(what)))
    case ExpiresIs => Some(d.(expireStr := Some(what)))
    case Nothing => Some(d)
  }

  lemma ContentByKind(d: Draft, a: Attr, r: Request, running: bool)
    ensures SetAttr(d, a, r.isIp) == Effect(d, ContentKind(a), a.what, r, running)
  {
    CaseEqIsSameText("path", a.name);
    CaseEqIsSameText("domain", a.name);
    CaseEqIsSameText("version", a.name);
    CaseEqIsSameText("max-age", a.name);
    CaseEqIsSameText("expires", a.name);
    VersionIsNothing(a.name);
    hide SameText, CaseEq, SetDomain, Sanitize;
  }

  lemma VersionIsNothing(name: string)
    ensures CaseEq("version", name) ==> !CaseEq("max-age", name) && !CaseEq("expires", name)
  {
    assert ToUpper("version"[0]) != ToUpper("max-age"[0]) && ToUpper("version"[0]) != ToUpper("expires"[0]);
  }

  lemma StepByKind(d: Draft, a: Attr, r: Request, running: bool)
    requires d.named
    ensures Step(d, a, r, running) == Effect(NotePrefix(d, a.name), KindOf(a), a.what, r, running)
  {
    CaseEqIsSameText("secure", a.name);
    CaseEqIsSameText("httponly", a.name);
    ContentByKind(NotePrefix(d, a.name), a, r, running);
    hide SameText, CaseEq, SetAttr, ContentKind, Sanitize, SetDomain;
  }

  // ---------- swapping two pairs ----------

  /** Two pairs that may change places: they are about different things, or about nothing that a second one changes. */
  predicate Swappable(a: Attr, b: Attr)
  {
    KindOf(a) != KindOf(b) || KindOf(a) in {Tabbed, SecureFlag, HttpOnlyFlag, Nothing} || a == b
  }

  lemma NotesCommute(d: Draft, s: string, t: string)
    ensures NotePrefix(NotePrefix(d, s), t) == NotePrefix(NotePrefix(d, t), s)
  {
    hide HasSecurePrefix, HasHostPrefix;
  }

  /** A noted prefix and an attribute do not get in each other's way. */
  lemma NoteAndEffect(d: Draft, name: string, k: Kind, what: string, r: Request, running: bool)
    requires k == DomainIs ==> what != ""
    ensures var e := Effect(d, k, what, r, running);
            Effect(NotePrefix(d, name), k, what, r, running) == if e.None? then None else Some(NotePrefix(e.value, name))
    ensures d.named ==> NotePrefix(d, name).named && (Effect(d, k, what, r, running).Some? ==> Effect(d, k, what, r, running).value.named)
  {
    hide HasSecurePrefix, HasHostPrefix, Sanitize, TailMatch, BadDomain;
  }

  /** One effect after the other. */
  function Both(d: Draft, j: Kind, s: string, k: Kind, t: string, r: Request, running: bool): Option<Draft>
    requires (j == DomainIs ==> s != "") && (k == DomainIs ==> t != "")
  {
    var e := Effect(d, j, s, r, running);
    if e.None? then None else Effect(e.value, k, t, r, running)
  }

  function WithDomain(d: Draft, host: Option<string>, domain: Option<string>, tailmatch: bool): Draft
  {
    d.(host := host, cookie := d.cookie.(domain := domain, tailmatch := tailmatch))
  }

  /** Of the cookie, a domain attribute looks at nothing but the host and the flag, and sets nothing but domain and flag. */
  lemma DomainApart(d: Draft, e: Draft, s: string, isIp: string -> bool)
    requires s != "" && d.host == e.host && d.cookie.tailmatch == e.cookie.tailmatch
    ensures var x, y := SetDomain(d, s, isIp), SetDomain(e, s, isIp);
            && (x.None? <==> y.None?)
            && (x.Some? ==>
                  var (host, c) := (x.value.host, x.value.cookie);
                  && x.value == WithDomain(d, host, c.domain, c.tailmatch)
                  && y.value == WithDomain(e, host, c.domain, c.tailmatch))
  {
    hide TailMatch, BadDomain;
  }

  /** The other attributes do not look at these. */
  lemma OthersApart(d: Draft, host: Option<string>, domain: Option<string>, tailmatch: bool, k: Kind, t: string, r: Request,
                    running: bool)
    requires k != DomainIs
    ensures var e, f := Effect(d, k, t, r, running), Effect(WithDomain(d, host, domain, tailmatch), k, t, r, running);
            && (e.None? <==> f.None?)
            && (e.Some? ==>
                  && e.value.host == d.host && e.value.cookie.tailmatch == d.cookie.tailmatch
                  && f.value == WithDomain(e.value, host, domain, tailmatch))
  {
    hide Sanitize;
  }

  lemma DomainEffect(d: Draft, s: string, r: Request, running: bool)
    requires s != ""
    ensures Effect(d, DomainIs, s, r, running) == SetDomain(d, s, r.isIp)
  {
  }

  lemma DomainCommutes(d: Draft, s: string, k: Kind, t: string, r: Request, running: bool)
    requires s != "" && k != DomainIs
    ensures Both(d, DomainIs, s, k, t, r, running) == Both(d, k, t, DomainIs, s, r, running)
  {
    hide Effect, SetDomain, WithDomain;
    DomainEffect(d, s, r, running);
    var e := Effect(d, k, t, r, running);
    OthersApart(d, d.host, d.cookie.domain, d.cookie.tailmatch, k, t, r, running);
    if e.Some? {
      DomainEffect(e.value, s, r, running);
      DomainApart(d, e.value, s, r.isIp);
    }
    var x := SetDomain(d, s, r.isIp);
    if x.Some? {
      var (host, c) := (x.value.host, x.value.cookie);
      DomainApart(d, d, s, r.isIp);
      OthersApart(d, host, c.domain, c.tailmatch, k, t, r, running);
    }
  }

  lemma OthersCommute(d: Draft, j: Kind, s: string, k: Kind, t: string, r: Request, running: bool)
    requires j != DomainIs && k != DomainIs && (j != k || j in {Tabbed, SecureFlag, HttpOnlyFlag, Nothing})
    ensures Both(d, j, s, k, t, r, running) == Both(d, k, t, j, s, r, running)
  {
    hide Sanitize, SetDomain;
  }

  lemma EffectsCommute(d: Draft, j: Kind, s: string, k: Kind, t: string, r: Request, running: bool)
    requires (j == DomainIs ==> s != "") && (k == DomainIs ==> t != "")
    requires j != k || j in {Tabbed, SecureFlag, HttpOnlyFlag, Nothing}
    ensures Both(d, j, s, k, t, r, running) == Both(d, k, t, j, s, r, running)
  {
    hide Both, Effect;
    if j == DomainIs {
      DomainCommutes(d, s, k, t, r, running);
    } else if k == DomainIs {
      DomainCommutes(d, t, j, s, r, running);
    } else {
      OthersCommute(d, j, s, k, t, r, running);
    }
  }

  function TwoSteps(d: Draft, a: Attr, b: Attr, r: Request, running: bool): Option<Draft>
  {
    var e := Step(d, a, r, running);
    if e.None? then None else Step(e.value, b, r, running)
  }

  lemma TwoByKind(d: Draft, a: Attr, b: Attr, r: Request, running: bool)
    requires d.named
    ensures var e := NotePrefix(NotePrefix(d, a.name), b.name);
            TwoSteps(d, a, b, r, running) == Both(e, KindOf(a), a.what, KindOf(b), b.what, r, running)
  {
    hide Step, Effect, NotePrefix, KindOf;
    var e := NotePrefix(d, a.name);
    KindHasContent(a);
    KindHasContent(b);
    StepByKind(d, a, r, running);
    NoteAndEffect(d, a.name, KindOf(a), a.what, r, running);
    NoteAndEffect(e, b.name, KindOf(a), a.what, r, running);
    var x := Effect(e, KindOf(a), a.what, r, running);
    if x.Some? {
      NoteAndEffect(e, a.name, KindOf(a), a.what, r, running);
      StepByKind(x.value, b, r, running);
    }
  }

  lemma KindHasContent(a: Attr)
    ensures KindOf(a) == DomainIs ==> a.what != ""
  {
    hide SameText;
  }

  lemma StepsCommute(d: Draft, a: Attr, b: Attr, r: Request, running: bool)
    requires d.named && Swappable(a, b)
    ensures TwoSteps(d, a, b, r, running) == TwoSteps(d, b, a, r, running)
  {
    hide TwoSteps, NotePrefix, Both, KindOf;
    if a != b {
      KindHasContent(a);
      KindHasContent(b);
      TwoByKind(d, a, b, r, running);
      TwoByKind(d, b, a, r, running);
      NotesCommute(d, a.name, b.name);
      EffectsCommute(NotePrefix(NotePrefix(d, a.name), b.name), KindOf(a), a.what, KindOf(b), b.what, r, running);
    }
  }

  // ---------- any order ----------

  lemma StepKeepsNamed(d: Draft, a: Attr, r: Request, running: bool)
    requires d.named
    ensures Step(d, a, r, running).Some? ==> Step(d, a, r, running).value.named
  {
    hide Step, KindOf, Effect, NotePrefix;
    KindHasContent(a);
    StepByKind(d, a, r, running);
    NoteAndEffect(d, a.name, KindOf(a), a.what, r, running);
    NoteAndEffect(NotePrefix(d, a.name), a.name, KindOf(a), a.what, r, running);
  }

  lemma FirstTwo(d: Draft, a: Attr, b: Attr, rest: seq<Attr>, r: Request, running: bool)
    ensures Steps(d, [a, b] + rest, r, running) ==
            var e := TwoSteps(d, a, b, r, running); if e.None? then None else Steps(e.value, rest, r, running)
  {
    hide Step;
    StepsInTurn(d, [a, b], rest, r, running);
    StepsInTurn(d, [a], [b], r, running);
    assert [a] + [b] == [a, b];
    OneStep(d, a, r, running);
    if Step(d, a, r, running).Some? {
      OneStep(Step(d, a, r, running).value, b, r, running);
    }
  }

  lemma {:induction false} ToTheFront(d: Draft, front: seq<Attr>, a: Attr, r: Request, running: bool)
    requires d.named && forall x :: x in front ==> Swappable(x, a)
    ensures Steps(d, front + [a], r, running) == Steps(d, [a] + front, r, running)
    decreases |front|
  {
    hide Step, Steps, Swappable, TwoSteps;
    if front == [] {
      assert front + [a] == [a] + front;
    } else {
      var x, rest := front[0], front[1..];
      assert front + [a] == [x] + (rest + [a]) && [a] + front == [a, x] + rest && [x] + ([a] + rest) == [x, a] + rest;
      StepsInTurn(d, [x], rest + [a], r, running);
      StepsInTurn(d, [x], [a] + rest, r, running);
      OneStep(d, x, r, running);
      StepKeepsNamed(d, x, r, running);
      if Step(d, x, r, running).Some? {
        ToTheFront(Step(d, x, r, running).value, rest, a, r, running);
      }
      assert x in front;
      FirstTwo(d, x, a, rest, r, running);
      FirstTwo(d, a, x, rest, r, running);
      StepsCommute(d, x, a, r, running);
    }
  }

  lemma WithoutOne(s: seq<Attr>, t: seq<Attr>, i: nat)
    requires i < |s| && t != [] && s[i] == t[0] && multiset(s) == multiset(t)
    ensures multiset(s[..i] + s[i + 1..]) == multiset(t[1..])
  {
    assert s == s[..i] + [s[i]] + s[i + 1..] && t == [] + [t[0]] + t[1..] && [] + t[1..] == t[1..];
    TakenOut(s[..i], s[i], s[i + 1..]);
    TakenOut([], t[0], t[1..]);
  }

  lemma TakenOut(a: seq<Attr>, x: Attr, b: seq<Attr>)
    ensures multiset(a + b) == multiset(a + [x] + b) - multiset{x}
  {
  }

  lemma PickedFirst(d: Draft, s: seq<Attr>, i: nat, r: Request, running: bool)
    requires d.named && i < |s| && forall x :: x in s ==> Swappable(x, s[i])
    ensures Steps(d, s, r, running) == Steps(d, [s[i]] + (s[..i] + s[i + 1..]), r, running)
  {
    hide Step, Steps, Swappable;
    var a, front, rest := s[i], s[..i], s[i + 1..];
    assert s == (front + [a]) + rest && [a] + front + rest == [a] + (front + rest);
    ToTheFront(d, front, a, r, running);
    StepsInTurn(d, front + [a], rest, r, running);
    StepsInTurn(d, [a] + front, rest, r, running);
  }

  lemma HeadFirst(d: Draft, a: Attr, s: seq<Attr>, r: Request, running: bool)
    requires d.named
    ensures Steps(d, [a] + s, r, running) ==
            var e := Step(d, a, r, running); if e.None? then None else Steps(e.value, s, r, running)
    ensures Step(d, a, r, running).Some? ==> Step(d, a, r, running).value.named
  {
    hide Step;
    StepsInTurn(d, [a], s, r, running);
    OneStep(d, a, r, running);
    StepKeepsNamed(d, a, r, running);
  }

  lemma {:induction false} AnyOrder(d: Draft, s: seq<Attr>, t: seq<Attr>, r: Request, running: bool)
    requires d.named && multiset(s) == multiset(t) && forall a, b :: a in s && b in s ==> Swappable(a, b)
    ensures Steps(d, s, r, running) == Steps(d, t, r, running)
    decreases |t|
  {
    hide Step, Steps, Swappable;
    if t == [] {
      assert |multiset(s)| == 0;
    } else {
      assert t[0] in multiset(t);
      var i :| 0 <= i < |s| && s[i] == t[0];
      var less := s[..i] + s[i + 1..];
      assert t == [t[0]] + t[1..];
      WithoutOne(s, t, i);
      PickedFirst(d, s, i, r, running);
      HeadFirst(d, t[0], less, r, running);
      HeadFirst(d, t[0], t[1..], r, running);
      if Step(d, t[0], r, running).Some? {
        AnyOrder(Step(d, t[0], r, running).value, less, t[1..], r, running);
      }
    }
  }

  // ---------- the attributes of a header ----------

  function Wishes(w: SetCookie): seq<Attr>
  {
    Given("Path", w.path) + Given("Domain", w.domain) + Given("Max-Age", Seconds(w.maxAge))
    + Given("Expires", w.expires) + Flag("Secure", w.secure) + Flag("HttpOnly", w.httponly)
  }

  lemma KindsOfNames(what: string)
    ensures KindOf(Pair("Path", true, what)) in {Tabbed, PathIs}
    ensures what != "" ==> KindOf(Pair("Domain", true, what)) in {Tabbed, DomainIs}
    ensures KindOf(Pair("Max-Age", true, what)) in {Tabbed, MaxAgeIs}
    ensures KindOf(Pair("Expires", true, what)) in {Tabbed, ExpiresIs}
  {
    AttributeNames();
    hide SameText, CaseEq;
    NamesAsTexts("Path");
    NamesAsTexts("Domain");
    NamesAsTexts("Max-Age");
    NamesAsTexts("Expires");
  }

  lemma NamesAsTexts(name: string)
    ensures SameText("path", name) <==> CaseEq("path", name)
    ensures SameText("domain", name) <==> CaseEq("domain", name)
    ensures SameText("max-age", name) <==> CaseEq("max-age", name)
    ensures SameText("expires", name) <==> CaseEq("expires", name)
    ensures SameText("secure", name) <==> CaseEq("secure", name)
    ensures SameText("httponly", name) <==> CaseEq("httponly", name)
  {
    hide SameText, CaseEq;
    CaseEqIsSameText("path", name);
    CaseEqIsSameText("domain", name);
    CaseEqIsSameText("max-age", name);
    CaseEqIsSameText("expires", name);
    CaseEqIsSameText("secure", name);
    CaseEqIsSameText("httponly", name);
  }

  lemma KindsOfFlags()
    ensures KindOf(Pair("Secure", false, "")) == SecureFlag && KindOf(Pair("HttpOnly", false, "")) == HttpOnlyFlag
  {
    AttributeNames();
    hide SameText, CaseEq;
    NamesAsTexts("Secure");
    NamesAsTexts("HttpOnly");
  }

  /** The kind that an attribute of a header has, unless there is a tab in it. */
  function Slot(w: SetCookie, a: Attr): Kind
  {
    if a in Given("Path", w.path) then PathIs
    else if a in Given("Domain", w.domain) then DomainIs
    else if a in Given("Max-Age", Seconds(w.maxAge)) then MaxAgeIs
    else if a in Given("Expires", w.expires) then ExpiresIs
    else if a in Flag("Secure", w.secure) then SecureFlag
    else HttpOnlyFlag
  }

  lemma WishIsOne(w: SetCookie, a: Attr)
    requires a in Wishes(w) && w.domain != Some("")
    ensures KindOf(a) in {Tabbed, Slot(w, a)}
  {
    hide KindOf, Itoa;
    KindsOfNames(a.what);
    KindsOfFlags();
  }

  lemma SlotIsOne(w: SetCookie, a: Attr, b: Attr)
    requires a in Wishes(w) && b in Wishes(w) && Slot(w, a) == Slot(w, b)
    ensures a == b
  {
    hide Itoa;
  }

  lemma WishesSwap(w: SetCookie, a: Attr, b: Attr)
    requires a in Wishes(w) && b in Wishes(w) && w.domain != Some("")
    ensures Swappable(a, b)
  {
    hide KindOf, Slot, Wishes;
    WishIsOne(w, a);
    WishIsOne(w, b);
    if Slot(w, a) == Slot(w, b) {
      SlotIsOne(w, a, b);
    }
  }

  /** Whatever the order of its attributes, a Set-Cookie line makes the same cookie, or is turned away, alike. */
  lemma ReadsInAnyOrder(w: SetCookie, attrs: seq<Attr>, r: Request, running: bool)
    requires w.name != "" && w.domain != Some("") && multiset(attrs) == multiset(Wishes(w))
    ensures ParseHeader([Pair(w.name, true, w.value)] + attrs, r, running) == ParseHeader(Header(w), r, running)
  {
    hide Step, Steps, Swappable, Given, Flag, Finish;
    var first: Attr := Pair(w.name, true, w.value);
    var start := Draft(false, BLANK_COOKIE, false, false, r.host, None, None);
    assert Header(w) == [first] + Wishes(w);
    StepsInTurn(start, [first], attrs, r, running);
    StepsInTurn(start, [first], Wishes(w), r, running);
    OneStep(start, first, r, running);
    FirstNames(start, first, r, running);
    forall a, b | a in attrs && b in attrs ensures Swappable(a, b) {
      assert a in multiset(attrs) && b in multiset(attrs);
      WishesSwap(w, a, b);
    }
    if Step(start, first, r, running).Some? {
      AnyOrder(Step(start, first, r, running).value, attrs, Wishes(w), r, running);
    }
  }

  lemma FirstNames(d: Draft, a: Attr, r: Request, running: bool)
    requires !d.named
    ensures Step(d, a, r, running).Some? ==> Step(d, a, r, running).value.named
  {
  }
}
