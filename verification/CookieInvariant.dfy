/** Every run of jar operations keeps the jar invariant, and the expiry watermark is sound. */
module CookieInvariant {
  import opened CString
  import opened CookieMatch
  import opened CookieParse
  import opened CookieJar

  // ---------- chains ----------

  lemma {:induction false} KeepApart(chain: seq<Cookie>, p: Cookie -> bool)
    requires AllApart(chain)
    ensures AllApart(Keep(chain, p))
  {
    if chain != [] {
      var rest := Keep(chain[1..], p);
      KeepApart(chain[1..], p);
      forall c | c in rest ensures Apart(chain[0], c) {
        var i :| 0 <= i < |chain[1..]| && chain[1..][i] == c;
        assert chain[i + 1] == c;
      }
    }
  }

  lemma {:induction false} KeepEverything(chain: seq<Cookie>, p: Cookie -> bool)
    requires forall c :: c in chain ==> p(c)
    ensures Keep(chain, p) == chain
  {
    if chain != [] {
      KeepEverything(chain[1..], p);
    }
  }

  lemma {:induction false} TotalUpdate(chains: seq<seq<Cookie>>, b: nat, chain: seq<Cookie>)
    requires b < |chains|
    ensures Total(chains[b := chain]) == Total(chains) - |chains[b]| + |chain|
  {
    if b == 0 {
      assert chains[b := chain][1..] == chains[1..];
    } else {
      assert chains[b := chain][1..] == chains[1..][b - 1 := chain];
      TotalUpdate(chains[1..], b - 1, chain);
    }
  }

  lemma {:induction false} TotalOfEmpty(chains: seq<seq<Cookie>>)
    requires forall b :: 0 <= b < |chains| ==> chains[b] == []
    ensures Total(chains) == 0
  {
    if chains != [] {
      TotalOfEmpty(chains[1..]);
    }
  }

  // ---------- the watermark ----------

  lemma {:induction false} MinExpiryBound(chain: seq<Cookie>, m: int)
    ensures MinExpiry(chain, m) <= m
    ensures forall c :: c in chain && c.expires != 0 ==> MinExpiry(chain, m) <= c.expires
  {
    if chain != [] {
      MinExpiryBound(chain[1..], if chain[0].expires != 0 && chain[0].expires < m then chain[0].expires else m);
      forall c | c in chain && c.expires != 0 ensures MinExpiry(chain, m) <= c.expires {
        assert c == chain[0] || c in chain[1..];
      }
    }
  }

  /** The sweep measures a lower bound of every expiry time left. */
  lemma {:induction false} MinExpiryAllBound(chains: seq<seq<Cookie>>, m: int)
    ensures MinExpiryAll(chains, m) <= m
    ensures forall b, c :: 0 <= b < |chains| && c in chains[b] && c.expires != 0 ==> MinExpiryAll(chains, m) <= c.expires
  {
    if chains != [] {
      MinExpiryBound(chains[0], m);
      MinExpiryAllBound(chains[1..], MinExpiry(chains[0], m));
      forall b, c | 0 <= b < |chains| && c in chains[b] && c.expires != 0
        ensures MinExpiryAll(chains, m) <= c.expires
      {
        assert b > 0 ==> chains[b] == chains[1..][b - 1];
      }
    }
  }

  /** Leaving `remove_expired` early gives the same cookies as sweeping every chain. */
  lemma ShortcutIsFullSweep(j: Jar, now: Time, isIp: string -> bool)
    requires Inv(j, isIp)
    ensures RemoveExpired(j, now).chains == FullSweep(j, now).chains
    ensures RemoveExpired(j, now).numcookies == FullSweep(j, now).numcookies
  {
    if now < j.nextExpiration && j.nextExpiration != OFF_MAX {
      forall b | 0 <= b < BUCKETS ensures Keep(j.chains[b], Unexpired(now)) == j.chains[b] {
        forall c | c in j.chains[b] ensures Unexpired(now)(c) {
          assert Filed(j, b, c, isIp);
        }
        KeepEverything(j.chains[b], Unexpired(now));
      }
      assert KeepAll(j.chains, Unexpired(now)) == j.chains;
    }
  }

  // ---------- each operation keeps the invariant ----------

  /** Removing cookies keeps the invariant as long as the watermark stays low enough. */
  lemma KeepAllKeepsInv(j: Jar, p: Cookie -> bool, next: int, isIp: string -> bool)
    requires Inv(j, isIp)
    requires forall b, c :: 0 <= b < BUCKETS && c in KeepAll(j.chains, p)[b] && c.expires != 0 ==> next <= c.expires
    ensures Inv(Filtered(j, p, next), isIp)
  {
    hide KeepAll;
    var kept := KeepAll(j.chains, p);
    var j' := j.(chains := kept, numcookies := Total(kept), nextExpiration := next);
    forall b, c | 0 <= b < BUCKETS && c in kept[b] ensures Filed(j', b, c, isIp) {
      assert c in j.chains[b] && Filed(j, b, c, isIp);
    }
    forall b | 0 <= b < BUCKETS ensures AllApart(kept[b]) {
      KeepApart(j.chains[b], p);
    }
    assert TimesApart(kept) by { hide Filed, AllApart, WellFormed; }
  }

  lemma FullSweepKeepsInv(j: Jar, now: Time, isIp: string -> bool)
    requires Inv(j, isIp)
    ensures Inv(FullSweep(j, now), isIp)
  {
    assert |j.chains| == BUCKETS;
    hide Inv, MinExpiryAll, KeepAll, Filtered, Unexpired;
    var kept := KeepAll(j.chains, Unexpired(now));
    MinExpiryAllBound(kept, OFF_MAX);
    KeepAllKeepsInv(j, Unexpired(now), MinExpiryAll(kept, OFF_MAX), isIp);
  }

  lemma RemoveExpiredKeepsInv(j: Jar, now: Time, isIp: string -> bool)
    requires Inv(j, isIp)
    ensures Inv(RemoveExpired(j, now), isIp)
  {
    hide Inv, FullSweep;
    FullSweepKeepsInv(j, now, isIp);
  }

  lemma ClearSessionKeepsInv(j: Jar, isIp: string -> bool)
    requires Inv(j, isIp)
    ensures Inv(ClearSession(j), isIp)
  {
    forall b, c | 0 <= b < BUCKETS && c in KeepAll(j.chains, Persistent())[b] && c.expires != 0
      ensures j.nextExpiration <= c.expires
    {
      assert Filed(j, b, c, isIp);
    }
    KeepAllKeepsInv(j, Persistent(), j.nextExpiration, isIp);
  }

  lemma PlaceApart(chain: seq<Cookie>, co: Cookie, secure: bool)
    requires AllApart(chain) && (forall c :: c in chain ==> c.ct < co.ct)
    ensures AllApart(Place(chain, co, Judge(chain, co, secure)))
  {
    var v := Judge(chain, co, secure);
    match v
    case Refused =>
    case Appended =>
    case Replaced(k) =>
      forall i | 0 <= i < |chain| && i != k
        ensures Apart(chain[i], co.(ct := chain[k].ct)) && Apart(co.(ct := chain[k].ct), chain[i])
      {
        assert if i < k then Apart(chain[i], chain[k]) else Apart(chain[k], chain[i]);
        SameIdentityIsEquivalence(chain[i], co, chain[k]);
      }
  }

  lemma SameIdentityIsEquivalence(a: Cookie, b: Cookie, c: Cookie)
    ensures SameIdentity(a, b) <==> SameIdentity(b, a)
    ensures SameIdentity(a, b) && SameIdentity(b, c) ==> SameIdentity(a, c)
    ensures SameIdentity(a.(ct := c.ct), b) <==> SameIdentity(a, b)
  {
  }

  /** Storing a cookie with a fresh creation time keeps the invariant. */
  lemma StoreKeepsInv(j: Jar, co: Cookie, secure: bool, isIp: string -> bool)
    requires Inv(j, isIp) && WellFormed(co) && co.ct == j.lastct
    requires forall b, c :: 0 <= b < BUCKETS && c in j.chains[b] ==> c.ct < co.ct
    ensures Inv(Store(j, co, secure, isIp), isIp)
  {
    var b := CookieHash(co.domain, isIp);
    var v := Judge(j.chains[b], co, secure);
    if !v.Refused? {
      var j' := Store(j, co, secure, isIp);
      PlaceApart(j.chains[b], co, secure);
      TotalUpdate(j.chains, b, j'.chains[b]);
      forall d, c | 0 <= d < BUCKETS && c in j'.chains[d] ensures Filed(j', d, c, isIp) {
        StoredIsFiled(j, co, secure, isIp, d, c);
      }
      StoreTimesApart(j, co, secure, isIp);
    }
  }

  /** A cookie found after a store was there before, or is the new one. */
  lemma PlacedFrom(chain: seq<Cookie>, co: Cookie, v: Verdict, c: Cookie)
    requires v.Replaced? ==> v.at < |chain|
    requires c in Place(chain, co, v)
    ensures c in chain || (c == co && v.Appended?) || (v.Replaced? && c == co.(ct := chain[v.at].ct))
  {
  }

  lemma StoredIsFiled(j: Jar, co: Cookie, secure: bool, isIp: string -> bool, b: nat, c: Cookie)
    requires Inv(j, isIp) && WellFormed(co) && co.ct == j.lastct
    requires b < BUCKETS && c in Store(j, co, secure, isIp).chains[b]
    ensures Filed(Store(j, co, secure, isIp), b, c, isIp)
  {
    assert forall ct :: WellFormed(co.(ct := ct));
    hide WellFormed, AllApart, TimesApart, Total;
    var v := Judge(j.chains[b], co, secure);
    if b == CookieHash(co.domain, isIp) && !v.Refused? {
      PlacedFrom(j.chains[b], co, v, c);
      if v.Replaced? {
        assert Filed(j, b, j.chains[b][v.at], isIp);
      }
    }
    if c in j.chains[b] {
      assert Filed(j, b, c, isIp);
    }
  }

  /** Every creation time after a store is the new one, in its bucket, or an earlier one of the same bucket. */
  lemma StoredTime(j: Jar, co: Cookie, secure: bool, isIp: string -> bool, b: nat, c: Cookie) returns (prior: Cookie)
    requires |j.chains| == BUCKETS && b < BUCKETS && c in Store(j, co, secure, isIp).chains[b]
    ensures (b == CookieHash(co.domain, isIp) && c.ct == co.ct) || (prior in j.chains[b] && prior.ct == c.ct)
  {
    prior := c;
    var v := Judge(j.chains[b], co, secure);
    if b == CookieHash(co.domain, isIp) && !v.Refused? {
      PlacedFrom(j.chains[b], co, v, c);
      if v.Replaced? && c !in j.chains[b] {
        prior := j.chains[b][v.at];
      }
    }
  }

  lemma StoreTimesApart(j: Jar, co: Cookie, secure: bool, isIp: string -> bool)
    requires |j.chains| == BUCKETS && TimesApart(j.chains)
    requires forall b, c :: 0 <= b < BUCKETS && c in j.chains[b] ==> c.ct < co.ct
    ensures TimesApart(Store(j, co, secure, isIp).chains)
  {
    var chains := Store(j, co, secure, isIp).chains;
    assert |chains| == BUCKETS;
    hide Store;
    forall d, e, x: Cookie, y: Cookie | 0 <= d < e < BUCKETS && x in chains[d] && y in chains[e] ensures x.ct != y.ct {
      var x' := StoredTime(j, co, secure, isIp, d, x);
      var y' := StoredTime(j, co, secure, isIp, e, y);
    }
  }

  lemma RemoveExpiredOnlyRemoves(j: Jar, now: Time, b: nat, c: Cookie)
    requires b < |j.chains| && c in RemoveExpired(j, now).chains[b]
    ensures c in j.chains[b]
  {
  }

  lemma AddParsedKeepsInv(j: Jar, p: Option<Parsed>, secure: bool, noexpire: bool, now: Time, isIp: string -> bool)
    requires Inv(j, isIp)
    requires p.Some? && Admissible(j, p.value) ==> WellFormed(p.value.cookie)
    ensures Inv(AddParsed(j, p, secure, noexpire, now, isIp), isIp)
  {
    if p.Some? && Admissible(j, p.value) {
      var co := Stamped(j, p.value);
      var j1 := j.(lastct := j.lastct + 1);
      var j2 := if noexpire then j1 else RemoveExpired(j1, now);
      forall b, c | 0 <= b < BUCKETS && c in j2.chains[b] ensures c.ct < co.ct {
        assert c in j.chains[b] by {
          if !noexpire { RemoveExpiredOnlyRemoves(j1, now, b, c); }
        }
        assert Filed(j, b, c, isIp);
      }
      LaterClockKeepsInv(j, isIp);
      hide Inv;
      RemoveExpiredKeepsInv(j1, now, isIp);
      StoreKeepsInv(j2, co, secure, isIp);
    }
  }

  lemma LaterClockKeepsInv(j: Jar, isIp: string -> bool)
    requires Inv(j, isIp)
    ensures Inv(j.(lastct := j.lastct + 1), isIp)
  {
    forall b, c | 0 <= b < BUCKETS && c in j.chains[b] ensures Filed(j.(lastct := j.lastct + 1), b, c, isIp) {
      assert Filed(j, b, c, isIp);
    }
  }
}
