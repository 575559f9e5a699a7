/** Safety of the cookie jar over whole runs (curl/lib/cookie.c). */
module CookieRuns {
  import opened CString
  import opened CookieMatch
  import opened CookieParse
  import opened CookieJar
  import opened CookieInvariant
  import opened CookieLines

  // ---------- the invariant over every run ----------

  lemma EmptyJarInv(isIp: string -> bool)
    ensures Inv(EmptyJar(), isIp)
  {
    var chains := EmptyJar().chains;
    assert |chains| == BUCKETS && forall b :: 0 <= b < BUCKETS ==> chains[b] == [];
    TotalOfEmpty(chains);
    hide Filed, Apart, Total;
    assert TimesApart(chains);
  }

  lemma ClearAllKeepsInv(j: Jar, isIp: string -> bool)
    requires Inv(j, isIp)
    ensures Inv(ClearAll(j), isIp)
  {
    TotalOfEmpty(ClearAll(j).chains);
  }

  lemma SetModeKeepsInv(j: Jar, running: bool, newsession: bool, isIp: string -> bool)
    requires Inv(j, isIp)
    ensures Inv(j.(running := running, newsession := newsession), isIp)
  {
    var j' := j.(running := running, newsession := newsession);
    forall b, c | 0 <= b < BUCKETS && c in j.chains[b] ensures Filed(j', b, c, isIp) {
      assert Filed(j, b, c, isIp);
    }
  }

  lemma ApplyKeepsInv(j: Jar, e: Event, isIp: string -> bool)
    requires Inv(j, isIp)
    ensures Inv(Apply(j, e, isIp), isIp)
  {
    assert |j.chains| == BUCKETS;
    hide Inv;
    match e
    case AddHeader(attrs, r, noexpire) =>
      var p := ParseHeader(attrs, r, j.running);
      if p.Some? { HeaderCookie(attrs, r, j.running); }
      AddParsedKeepsInv(j, p, r.secure, noexpire, r.now, isIp);
    case AddFileLine(line, secure, noexpire, now) =>
      var p := ParseNetscape(line, secure, j.running);
      if p.Some? { NetscapeCookie(line, secure, j.running); }
      AddParsedKeepsInv(j, p, secure, noexpire, now, isIp);
    case Expire(now) => RemoveExpiredKeepsInv(j, now, isIp);
    case DropSession => ClearSessionKeepsInv(j, isIp);
    case DropAll => ClearAllKeepsInv(j, isIp);
    case SetMode(running, newsession) => SetModeKeepsInv(j, running, newsession, isIp);
  }

  lemma {:induction false} RunKeepsInv(j: Jar, events: seq<Event>, isIp: string -> bool)
    requires Inv(j, isIp)
    ensures Inv(Run(j, events, isIp), isIp)
    decreases |events|
  {
    if events != [] {
      ApplyKeepsInv(j, events[0], isIp);
      hide Inv;
      RunKeepsInv(Apply(j, events[0], isIp), events[1..], isIp);
    }
  }

  /** In every reachable jar, two cookies at different places differ in identity and in creation time. */
  lemma NoTwoAlike(events: seq<Event>, isIp: string -> bool, a: nat, i: nat, b: nat, k: nat)
    requires IgnoresCase(isIp)
    requires a < BUCKETS && b < BUCKETS && (a, i) != (b, k)
    requires var chains := Run(EmptyJar(), events, isIp).chains; i < |chains[a]| && k < |chains[b]|
    ensures var chains := Run(EmptyJar(), events, isIp).chains;
            Apart(chains[a][i], chains[b][k]) && CookieHash(chains[a][i].domain, isIp) == a
  {
    var j := Run(EmptyJar(), events, isIp);
    EmptyJarInv(isIp);
    RunKeepsInv(EmptyJar(), events, isIp);
    hide Run, EmptyJar;
    ApartEverywhere(j, isIp, a, i, b, k);
  }

  lemma ApartEverywhere(j: Jar, isIp: string -> bool, a: nat, i: nat, b: nat, k: nat)
    requires Inv(j, isIp) && IgnoresCase(isIp)
    requires a < BUCKETS && b < BUCKETS && (a, i) != (b, k) && i < |j.chains[a]| && k < |j.chains[b]|
    ensures Apart(j.chains[a][i], j.chains[b][k]) && CookieHash(j.chains[a][i].domain, isIp) == a
  {
    var x, y := j.chains[a][i], j.chains[b][k];
    assert Filed(j, a, x, isIp) && Filed(j, b, y, isIp);
    if a == b {
      assert AllApart(j.chains[a]);
      assert i < k ==> Apart(x, y);
      assert k < i ==> Apart(y, x);
    } else {
      hide Inv;
      if SameIdentity(x, y) && x.domain.Some? {
        CaseEqSameBucket(x.domain.value, y.domain.value, isIp);
      }
      assert x.ct != y.ct by { assert TimesApart(j.chains); }
    }
  }

  // ---------- what one add changes ----------

  /** The chains an add judges the new cookie against: swept first, unless the line is turned away or is read from a file. */
  function ChainsAtAdd(j: Jar, p: Option<Parsed>, noexpire: bool, now: Time): (r: seq<seq<Cookie>>)
    ensures |r| == |j.chains|
  {
    if noexpire || p.None? || !Admissible(j, p.value) then j.chains else KeepAll(j.chains, Unexpired(now))
  }

  /** From `before` to `after` cookies keep their places, unchanged except where `co` took one over, and `co` may follow. */
  predicate KeepsPlaces(before: seq<Cookie>, after: seq<Cookie>, co: Cookie, secure: bool)
  {
    && |before| <= |after| <= |before| + 1
    && (|after| > |before| ==> after[|before|] == co)
    && forall i :: 0 <= i < |before| && after[i] != before[i] ==>
                     SameIdentity(before[i], co) && !Overlays(before[i], co, secure) && after[i] == co.(ct := before[i].ct)
  }

  /** An add leaves the unexpired cookies of every chain in their places and unchanged, except that the new cookie takes
      the place and the creation time of one of its identity that the overlay rule does not protect, or goes to the end. */
  lemma AddTouchesOnlyTheReplaced(j: Jar, p: Option<Parsed>, secure: bool, noexpire: bool, now: Time,
                                  isIp: string -> bool, b: nat)
    requires Inv(j, isIp) && b < BUCKETS
    ensures var before := ChainsAtAdd(j, p, noexpire, now)[b];
            var after := AddParsed(j, p, secure, noexpire, now, isIp).chains[b];
            if p.None? then after == before else KeepsPlaces(before, after, Stamped(j, p.value), secure)
  {
    if p.Some? && Admissible(j, p.value) {
      assert |j.chains| == BUCKETS;
      hide Inv, Store, Stamped, FullSweep, RemoveExpired, KeepsPlaces, Admissible;
      var j1 := j.(lastct := j.lastct + 1);
      LaterClockKeepsInv(j, isIp);
      ShortcutIsFullSweep(j1, now, isIp);
      FullSweepKeeps(j1, now);
      var j2 := if noexpire then j1 else RemoveExpired(j1, now);
      StoreKeepsPlaces(j2, Stamped(j, p.value), secure, isIp, b);
    }
  }

  lemma FullSweepKeeps(j: Jar, now: Time)
    ensures FullSweep(j, now).chains == KeepAll(j.chains, Unexpired(now))
  {
  }

  lemma StoreKeepsPlaces(j: Jar, co: Cookie, secure: bool, isIp: string -> bool, b: nat)
    requires |j.chains| == BUCKETS && b < BUCKETS
    ensures KeepsPlaces(j.chains[b], Store(j, co, secure, isIp).chains[b], co, secure)
  {
    hide SameIdentity, Overlays;
    var v := Judge(j.chains[b], co, secure);
    if b == CookieHash(co.domain, isIp) && !v.Refused? {
      assert forall i :: 0 <= i < |j.chains[b]| ==> !Overlays(j.chains[b][i], co, secure);
    }
  }

  lemma StaysInPlace(before: seq<Cookie>, after: seq<Cookie>, co: Cookie, secure: bool, c: Cookie)
    requires KeepsPlaces(before, after, co, secure) && c in before
    requires !SameIdentity(c, co) || Overlays(c, co, secure)
    ensures c in after
  {
    hide SameIdentity, Overlays;
    var i :| 0 <= i < |before| && before[i] == c;
    assert after[i] == c;
  }

  // ---------- secure cookies ----------

  lemma CaseEqPrefix(a: string, b: string, n: nat)
    requires CaseEq(a, b)
    ensures NCaseEq(a, b, n)
  {
  }

  /** A secure cookie with a path overlays every non-secure one it could be replaced by over an insecure connection. */
  lemma SecureOverlaysItsTwin(c: Cookie, co: Cookie)
    requires c.secure && c.spath.Some? && !co.secure && SameIdentity(c, co)
    ensures Overlays(c, co, false)
  {
    CaseEqPrefix(c.spath.value, co.spath.value, SecureScope(c.spath.value));
  }

  /** A header line over an insecure connection, a sweep, or dropping session cookies, none of which lets `c` expire. */
  predicate Spares(e: Event, c: Cookie)
  {
    || (e.AddHeader? && !e.request.secure && !IsExpired(c, e.request.now))
    || (e.Expire? && !IsExpired(c, e.now))
    || (e.DropSession? && c.expires != 0)
  }

  lemma HeaderSpares(j: Jar, e: Event, isIp: string -> bool, b: nat, c: Cookie)
    requires Inv(j, isIp) && j.running && e.AddHeader? && Spares(e, c)
    requires b < BUCKETS && c in j.chains[b] && c.secure && c.spath.Some?
    ensures c in Apply(j, e, isIp).chains[b] && Apply(j, e, isIp).running
  {
    var p := ParseHeader(e.attrs, e.request, true);
    AddTouchesOnlyTheReplaced(j, p, false, e.noexpire, e.request.now, isIp, b);
    hide Inv, KeepsPlaces;
    var before := ChainsAtAdd(j, p, e.noexpire, e.request.now)[b];
    assert c in before;
    if p.Some? {
      HeaderCookie(e.attrs, e.request, true);
      var co := Stamped(j, p.value);
      if SameIdentity(c, co) {
        SecureOverlaysItsTwin(c, co);
      }
      StaysInPlace(before, Apply(j, e, isIp).chains[b], co, false, c);
    }
  }

  lemma SecureCookieSurvivesOne(j: Jar, e: Event, isIp: string -> bool, b: nat, c: Cookie)
    requires Inv(j, isIp) && j.running && Spares(e, c)
    requires b < BUCKETS && c in j.chains[b] && c.secure && c.spath.Some?
    ensures c in Apply(j, e, isIp).chains[b] && Apply(j, e, isIp).running
  {
    assert |j.chains| == BUCKETS;
    hide Inv;
    if e.AddHeader? {
      hide AddParsed;
      HeaderSpares(j, e, isIp, b, c);
    }
  }

  /** Headers received over insecure connections never displace or alter a secure cookie before it expires, whatever
      lookups, saves and session clears come between them. */
  lemma {:induction false} SecureCookieSurvives(j: Jar, events: seq<Event>, isIp: string -> bool, b: nat, c: Cookie)
    requires Inv(j, isIp) && j.running
    requires b < BUCKETS && c in j.chains[b] && c.secure && c.spath.Some?
    requires forall e :: e in events ==> Spares(e, c)
    ensures c in Run(j, events, isIp).chains[b]
    decreases |events|
  {
    if events != [] {
      assert events[0] in events;
      SecureCookieSurvivesOne(j, events[0], isIp, b, c);
      ApplyKeepsInv(j, events[0], isIp);
      hide Inv, Apply, Spares;
      SecureCookieSurvives(Apply(j, events[0], isIp), events[1..], isIp, b, c);
    }
  }

  // ---------- saving and loading ----------

  lemma ReloadedPathAllowsTheSame(c: Cookie, uri: string)
    requires WellFormed(c)
    ensures PathAllows(Reloaded(c).spath, uri) == PathAllows(c.spath, uri)
  {
    assert Sanitize("/") == "" && Sanitize("") == "/";
    assert PathMatch("/", uri) && PathMatch("", uri);
  }

  /** A stored cookie is replaced by its own saved copy if and only if it has the sanitized path that the reader derives
      from the path printed; otherwise the two stand side by side. */
  lemma ReloadedReplacesExactly(c: Cookie)
    requires WellFormed(c)
    ensures SameIdentity(Reloaded(c), c) <==> c.spath == Some(ReadPath(PathField(c)).1)
    ensures SameIdentity(Reloaded(c), c) <==> c.path.Some? && (c.path == Some("/") ==> c.spath == Some(""))
  {
    assert Sanitize("/") == "" && Sanitize("") == "/";
  }

  /** A cookie loaded from a line without a path is not replaced by its own saved copy, which prints that path. */
  lemma SavedRootIsNotReplaced(c: Cookie)
    requires WellFormed(c) && c.path == c.spath == Some("/")
    ensures !SameIdentity(Reloaded(c), c) && Reloaded(c).spath == Some("")
  {
    ReloadedReplacesExactly(c);
  }

  /** A cookie of a reachable jar, printed and loaded again, keeps its meaning and passes every admission rule. */
  lemma SavedCookieLoads(j: Jar, isIp: string -> bool, b: nat, c: Cookie, loading: Jar)
    requires Inv(j, isIp) && b < BUCKETS && c in j.chains[b]
    requires Printable(c) && Readable(c) && !loading.newsession
    ensures var p := ParseNetscape(NetscapeFormat(c), true, false);
            && p == Some(WithPrefixes(Reloaded(c))) && Admissible(loading, p.value)
            && (forall uri :: PathAllows(p.value.cookie.spath, uri) == PathAllows(c.spath, uri))
  {
    assert Filed(j, b, c, isIp);
    NetscapeRoundTrip(c);
    forall uri ensures PathAllows(Reloaded(c).spath, uri) == PathAllows(c.spath, uri) {
      ReloadedPathAllowsTheSame(c, uri);
    }
  }
}
