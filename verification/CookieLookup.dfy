/** Looking cookies up: one bucket stands for the whole jar (curl/lib/cookie.c). */
module CookieLookup {
  import opened CString
  import opened CookieMatch
  import opened CookieParse
  import opened CookieJar
  import opened CookieInvariant

  /** What a request asks for. */
  datatype Query = Query(host: string, path: string, secure: bool, isIp: string -> bool)

  predicate IsWanted(c: Cookie, q: Query)
  {
    && (c.secure ==> q.secure)
    && HostMatch(c.domain, c.tailmatch, q.host, q.isIp)
    && PathAllows(c.spath, q.path)
  }

  function Wanted(q: Query): Cookie -> bool
  {
    (c: Cookie) => IsWanted(c, q)
  }

  // ---------- the order of the result ----------

  function OptLength(s: Option<string>): nat
  {
    if s.Some? then |s.value| else 0
  }

  /** The comparison handed to qsort: longer path, domain and name first, then the newer cookie. */
  function CookieSort(a: Cookie, b: Cookie): int
  {
    if OptLength(a.path) != OptLength(b.path) then if OptLength(b.path) > OptLength(a.path) then 1 else -1
    else if OptLength(a.domain) != OptLength(b.domain) then if OptLength(b.domain) > OptLength(a.domain) then 1 else -1
    else if |a.name| != |b.name| then if |b.name| > |a.name| then 1 else -1
    else if b.ct > a.ct then 1 else -1
  }

  predicate Before(a: Cookie, b: Cookie)
  {
    CookieSort(a, b) < 0
  }

  predicate InOrder(s: seq<Cookie>)
  {
    forall i, k :: 0 <= i < k < |s| ==> Before(s[i], s[k])
  }

  predicate DistinctTimes(s: seq<Cookie>)
  {
    forall i, k :: 0 <= i < k < |s| ==> s[i].ct != s[k].ct
  }

  function Insert(c: Cookie, s: seq<Cookie>): seq<Cookie>
  {
    if s == [] || Before(c, s[0]) then [c] + s else [s[0]] + Insert(c, s[1..])
  }

  /** The sorted form of `s`; `OrderIsUnique` shows that any other sorting algorithm gives the same. */
  function Sorted(s: seq<Cookie>): seq<Cookie>
  {
    if s == [] then [] else Insert(s[0], Sorted(s[1..]))
  }

  lemma {:induction false} InsertAdds(c: Cookie, s: seq<Cookie>)
    ensures multiset(Insert(c, s)) == multiset{c} + multiset(s)
    ensures forall x :: x in Insert(c, s) <==> x == c || x in s
  {
    if s != [] && !Before(c, s[0]) {
      InsertAdds(c, s[1..]);
      assert s == [s[0]] + s[1..];
    }
  }

  lemma {:induction false} SortedSame(s: seq<Cookie>)
    ensures multiset(Sorted(s)) == multiset(s)
  {
    if s != [] {
      SortedSame(s[1..]);
      InsertAdds(s[0], Sorted(s[1..]));
      assert s == [s[0]] + s[1..];
    }
  }

  lemma BeforeIsStrictTotal(a: Cookie, b: Cookie, c: Cookie)
    ensures a.ct != b.ct ==> (Before(a, b) <==> !Before(b, a))
    ensures Before(a, b) && Before(b, c) ==> Before(a, c)
  {
  }

  lemma {:induction false} InsertKeepsOrder(c: Cookie, s: seq<Cookie>)
    requires InOrder(s) && forall x :: x in s ==> x.ct != c.ct
    ensures InOrder(Insert(c, s))
  {
    if s != [] {
      if Before(c, s[0]) {
        forall k | 0 <= k < |s| ensures Before(c, s[k]) {
          BeforeIsStrictTotal(c, s[0], s[k]);
        }
      } else {
        InsertKeepsOrder(c, s[1..]);
        InsertAdds(c, s[1..]);
        BeforeIsStrictTotal(c, s[0], c);
        forall x | x in Insert(c, s[1..]) ensures Before(s[0], x) {
          if x != c {
            var k :| 0 <= k < |s[1..]| && s[1..][k] == x;
            assert s[k + 1] == x;
          }
        }
      }
    }
  }

  lemma {:induction false} SortedInOrder(s: seq<Cookie>)
    requires DistinctTimes(s)
    ensures InOrder(Sorted(s))
  {
    if s != [] {
      SortedInOrder(s[1..]);
      SortedSame(s[1..]);
      forall x | x in Sorted(s[1..]) ensures x.ct != s[0].ct {
        assert x in multiset(s[1..]);
        var k :| 0 <= k < |s[1..]| && s[1..][k] == x;
        assert s[k + 1] == x;
      }
      InsertKeepsOrder(s[0], Sorted(s[1..]));
    }
  }

  /** Different cookies have different creation times. */
  ghost predicate TimesTell(s: seq<Cookie>)
  {
    forall x, y :: x in s && y in s && x != y ==> x.ct != y.ct
  }

  lemma SameHead(s: seq<Cookie>, t: seq<Cookie>)
    requires multiset(s) == multiset(t) && InOrder(s) && InOrder(t) && TimesTell(s) && s != [] && t != []
    ensures s[0] == t[0]
  {
    assert s[0] in multiset(t) && t[0] in multiset(s);
    var i :| 0 <= i < |t| && t[i] == s[0];
    var k :| 0 <= k < |s| && s[k] == t[0];
    BeforeIsStrictTotal(s[0], t[0], s[0]);
  }

  lemma SameTail(s: seq<Cookie>, t: seq<Cookie>)
    requires multiset(s) == multiset(t) && s != [] && t != [] && s[0] == t[0]
    ensures multiset(s[1..]) == multiset(t[1..])
  {
    assert s == [s[0]] + s[1..] && t == [t[0]] + t[1..];
    assert multiset(s[1..]) == multiset(s) - multiset{s[0]};
    assert multiset(t[1..]) == multiset(t) - multiset{t[0]};
  }

  /** Two orderings of the same cookies, by this comparison, are one: qsort has no choice. */
  lemma {:induction false} OrderIsUnique(s: seq<Cookie>, t: seq<Cookie>)
    requires multiset(s) == multiset(t) && InOrder(s) && InOrder(t) && TimesTell(s)
    ensures s == t
  {
    assert |t| == |multiset(t)| == |multiset(s)| == |s|;
    if s != [] {
      SameHead(s, t);
      SameTail(s, t);
      hide CookieSort;
      OrderIsUnique(s[1..], t[1..]);
      assert s == [s[0]] + s[1..] && t == [t[0]] + t[1..];
    }
  }

  /** Sorting the same cookies in another order of arrival gives the same list. */
  lemma SortedIgnoresArrival(s: seq<Cookie>, t: seq<Cookie>)
    requires multiset(s) == multiset(t) && DistinctTimes(s) && DistinctTimes(t)
    ensures Sorted(s) == Sorted(t)
  {
    SortedSame(s);
    SortedSame(t);
    SortedInOrder(s);
    SortedInOrder(t);
    assert TimesTell(Sorted(s)) by {
      forall x, y | x in Sorted(s) && y in Sorted(s) && x != y ensures x.ct != y.ct {
        assert x in multiset(s) && y in multiset(s);
      }
    }
    OrderIsUnique(Sorted(s), Sorted(t));
  }

  // ---------- one bucket and all of them ----------

  function AtMost(s: seq<Cookie>, n: nat): seq<Cookie>
  {
    if |s| <= n then s else s[..n]
  }

  /** `Curl_cookie_getlist`: the host's own chain, swept, filtered, capped and sorted. */
  function Lookup(j: Jar, q: Query, now: Time): seq<Cookie>
    requires |j.chains| == BUCKETS
  {
    var b := CookieHash(Some(q.host), q.isIp);
    if j.chains[b] == [] then []
    else Sorted(AtMost(Keep(RemoveExpired(j, now).chains[b], Wanted(q)), MAX_SEND))
  }

  /** Every wanted cookie of every bucket. */
  function ScanAll(chains: seq<seq<Cookie>>, p: Cookie -> bool): seq<Cookie>
  {
    if chains == [] then [] else Keep(chains[0], p) + ScanAll(chains[1..], p)
  }

  lemma {:induction false} ScanNothing(chains: seq<seq<Cookie>>, p: Cookie -> bool)
    requires forall b :: 0 <= b < |chains| ==> Keep(chains[b], p) == []
    ensures ScanAll(chains, p) == []
  {
    if chains != [] {
      ScanNothing(chains[1..], p);
    }
  }

  lemma {:induction false} ScanOneBucket(chains: seq<seq<Cookie>>, p: Cookie -> bool, h: nat)
    requires h < |chains| && forall b :: 0 <= b < |chains| && b != h ==> Keep(chains[b], p) == []
    ensures ScanAll(chains, p) == Keep(chains[h], p)
  {
    if h == 0 {
      ScanNothing(chains[1..], p);
    } else {
      ScanOneBucket(chains[1..], p, h - 1);
    }
  }

  predicate AllIndexable(j: Jar, isIp: string -> bool)
  {
    forall b, c :: 0 <= b < |j.chains| && c in j.chains[b] ==> Indexable(c.domain, c.tailmatch, isIp)
  }

  /** No wanted cookie is filed in a bucket other than the host's. */
  lemma NothingElsewhere(j: Jar, q: Query, now: Time, b: nat)
    requires Inv(j, q.isIp) && IgnoresCase(q.isIp) && AllIndexable(j, q.isIp)
    requires b < BUCKETS && b != CookieHash(Some(q.host), q.isIp)
    ensures Keep(KeepAll(j.chains, Unexpired(now))[b], Wanted(q)) == []
  {
    var kept := Keep(Keep(j.chains[b], Unexpired(now)), Wanted(q));
    if kept != [] {
      var c := kept[0];
      assert c in j.chains[b] && IsWanted(c, q);
      assert Filed(j, b, c, q.isIp);
      IndexableFindsHost(c.domain, c.tailmatch, q.host, q.isIp);
    }
  }

  lemma WantedHaveDistinctTimes(chain: seq<Cookie>, p: Cookie -> bool, n: nat)
    requires AllApart(chain)
    ensures DistinctTimes(AtMost(Keep(chain, p), n))
  {
    hide SameIdentity, Keep;
    KeepApart(chain, p);
    assert forall i, k :: 0 <= i < k < |Keep(chain, p)| ==> Apart(Keep(chain, p)[i], Keep(chain, p)[k]);
  }

  /** When every cookie is indexable, a lookup returns, in strict order, what a scan of the unexpired
      cookies of all buckets finds, up to the cap. */
  lemma LookupIsFullScan(j: Jar, q: Query, now: Time)
    requires Inv(j, q.isIp) && IgnoresCase(q.isIp) && AllIndexable(j, q.isIp)
    ensures var found := AtMost(ScanAll(KeepAll(j.chains, Unexpired(now)), Wanted(q)), MAX_SEND);
            && Lookup(j, q, now) == Sorted(found)
            && multiset(Lookup(j, q, now)) == multiset(found)
            && InOrder(Lookup(j, q, now))
  {
    var h := CookieHash(Some(q.host), q.isIp);
    var live := KeepAll(j.chains, Unexpired(now));
    forall b | 0 <= b < BUCKETS && b != h ensures Keep(live[b], Wanted(q)) == [] {
      NothingElsewhere(j, q, now, b);
    }
    ScanOneBucket(live, Wanted(q), h);
    ShortcutIsFullSweep(j, now, q.isIp);
    var found := AtMost(Keep(live[h], Wanted(q)), MAX_SEND);
    KeepApart(j.chains[h], Unexpired(now));
    WantedHaveDistinctTimes(live[h], Wanted(q), MAX_SEND);
    SortedSame(found);
    SortedInOrder(found);
  }
}
