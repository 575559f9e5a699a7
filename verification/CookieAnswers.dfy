/** What a cookie lookup answers, in terms of the cookie and the request alone (curl/lib/cookie.c). */
module CookieAnswers {
  import opened CString
  import opened CookieMatch
  import opened CookieParse
  import opened CookieJar
  import opened CookieInvariant
  import opened CookieLookup

  // ---------- letters ----------

  const LETTERS: string := "abcdefghijklmnopqrstuvwxyz"
  const CAPITALS: string := "ABCDEFGHIJKLMNOPQRSTUVWXYZ"

  /** Letter number `k`, small in `a` and capital in `b`. */
  predicate BothCases(k: int, a: char, b: char)
  {
    0 <= k < 26 && a == LETTERS[k] && b == CAPITALS[k]
  }

  /** The same byte, or one letter in both cases. */
  predicate SameLetter(a: char, b: char)
  {
    a == b || exists k :: 0 <= k < 26 && (BothCases(k, a, b) || BothCases(k, b, a))
  }

  predicate SameText(a: string, b: string)
  {
    |a| == |b| && forall i :: 0 <= i < |a| ==> SameLetter(a[i], b[i])
  }

  lemma LettersAreRanges(k: nat)
    requires k < 26
    ensures LETTERS[k] as int == 97 + k && CAPITALS[k] as int == 65 + k
  {
  }

  lemma CasesAreRanges(k: int, a: char, b: char)
    ensures BothCases(k, a, b) <==> 0 <= k < 26 && a as int == 97 + k && b as int == 65 + k
  {
    if 0 <= k < 26 {
      LettersAreRanges(k);
    }
  }

  lemma UpperIsSameLetter(a: char, b: char)
    ensures ToUpper(a) == ToUpper(b) <==> SameLetter(a, b)
  {
    hide BothCases;
    if k :| 0 <= k < 26 && (BothCases(k, a, b) || BothCases(k, b, a)) {
      CasesAreRanges(k, a, b);
      CasesAreRanges(k, b, a);
    }
    if ToUpper(a) == ToUpper(b) && a != b {
      CasesAreRanges(ToUpper(a) as int - 65, a, b);
      CasesAreRanges(ToUpper(a) as int - 65, b, a);
    }
  }

  /** Texts are compared byte by byte, with the 26 letters alike in both cases and no others. */
  lemma CaseEqIsSameText(a: string, b: string)
    ensures CaseEq(a, b) <==> SameText(a, b)
  {
    hide SameLetter;
    forall i | 0 <= i < |a| && |a| == |b| ensures ToUpper(a[i]) == ToUpper(b[i]) <==> SameLetter(a[i], b[i]) {
      UpperIsSameLetter(a[i], b[i]);
    }
  }

  // ---------- hosts and paths ----------

  /** The host is the domain of the cookie; or, unless it is an IP number, lies below the domain of a tail-matching one. */
  ghost predicate HostCovered(c: Cookie, host: string, isIp: bool)
  {
    || c.domain.None?
    || SameText(host, c.domain.value)
    || (c.tailmatch && !isIp && exists sub, top :: host == sub + "." + top && SameText(c.domain.value, top))
  }

  lemma BelowDomain(domain: string, host: string)
    ensures TailMatch(domain, host) <==>
            SameText(host, domain) || exists sub, top :: host == sub + "." + top && SameText(domain, top)
  {
    if TailMatch(domain, host) {
      var k := |host| - |domain|;
      CaseEqIsSameText(domain, host[k..]);
      if k == 0 {
        assert host[k..] == host;
        SameTextBothWays(domain, host);
      } else {
        assert host == host[..k - 1] + "." + host[k..];
      }
    }
    if SameText(host, domain) {
      SameTextBothWays(host, domain);
      CaseEqIsSameText(domain, host);
      assert host[|host| - |domain|..] == host;
    }
    if sub, top :| host == sub + "." + top && SameText(domain, top) {
      CaseEqIsSameText(domain, top);
      assert host[|host| - |domain|..] == top;
    }
  }

  lemma SameTextBothWays(a: string, b: string)
    ensures SameText(a, b) ==> SameText(b, a)
  {
    CaseEqIsSameText(a, b);
    CaseEqIsSameText(b, a);
  }

  lemma HostRule(c: Cookie, host: string, isIp: string -> bool)
    ensures HostMatch(c.domain, c.tailmatch, host, isIp) <==> HostCovered(c, host, isIp(host))
  {
    hide SameText, CaseEq;
    if c.domain.Some? {
      CaseEqIsSameText(host, c.domain.value);
      BelowDomain(c.domain.value, host);
    }
  }

  /** A cookie for `spath` is sent with requests for that path and for everything below it, without looking at the query.
      One byte, which stands for the root, covers everything; a request that is not absolute counts as one for the root. */
  predicate PathCovered(spath: Option<string>, path: string)
  {
    || spath.None?
    || |spath.value| == 1
    || (if path != "" && path[0] == '/' then path == spath.value || spath.value + "/" <= path else spath.value == "")
  }

  lemma PathRule(spath: Option<string>, path: string, query: string)
    requires '?' !in path && (query == "" || query[0] == '?')
    ensures PathAllows(spath, path + query) <==> PathCovered(spath, path)
  {
    var uri := path + query;
    FindUnique(uri, '?', |path|);
    assert uri[..|path|] == path;
    if spath.Some? && |spath.value| != 1 {
      var p := UriPath(uri);
      assert p == if path == "" || path[0] != '/' then "/" else path;
      DirectoryRule(spath.value, p);
    }
  }

  /** `p` is `s`, or starts with `s` and a slash. */
  lemma DirectoryRule(s: string, p: string)
    ensures (s <= p && (|s| == |p| || p[|s|] == '/')) <==> p == s || s + "/" <= p
  {
    if s + "/" <= p {
      assert (s + "/")[|s|] == p[|s|] && s <= s + "/";
    }
    if s <= p && |s| < |p| && p[|s|] == '/' {
      assert p[..|s| + 1] == s + "/";
    }
  }

  // ---------- the answer to a request ----------

  /** The cookie is to be sent: not expired, secure only over a secure connection, for this host and this path. */
  ghost predicate ToBeSent(c: Cookie, q: Query, path: string, now: Time)
  {
    && (c.expires == 0 || c.expires >= now)
    && (c.secure ==> q.secure)
    && HostCovered(c, q.host, q.isIp(q.host))
    && PathCovered(c.spath, path)
  }

  lemma WantedRule(c: Cookie, q: Query, path: string, query: string, now: Time)
    requires q.path == path + query && '?' !in path && (query == "" || query[0] == '?')
    ensures IsWanted(c, q) && !IsExpired(c, now) <==> ToBeSent(c, q, path, now)
  {
    HostRule(c, q.host, q.isIp);
    PathRule(c.spath, path, query);
    hide HostCovered, PathCovered, HostMatch, PathAllows;
  }

  /** The jar holds the cookie. */
  predicate Stored(j: Jar, c: Cookie)
  {
    exists b :: 0 <= b < |j.chains| && c in j.chains[b]
  }

  lemma InScan(chains: seq<seq<Cookie>>, p: Cookie -> bool, c: Cookie)
    ensures c in ScanAll(chains, p) <==> p(c) && exists b :: 0 <= b < |chains| && c in chains[b]
  {
    if chains != [] {
      InScan(chains[1..], p, c);
      if b :| 0 <= b < |chains| && c in chains[b] {
        assert b > 0 ==> chains[1..][b - 1] == chains[b];
      }
      if b :| 0 <= b < |chains[1..]| && c in chains[1..][b] {
        assert chains[b + 1] == chains[1..][b];
      }
    }
  }

  lemma InLookup(j: Jar, q: Query, now: Time, c: Cookie)
    requires Inv(j, q.isIp) && IgnoresCase(q.isIp) && AllIndexable(j, q.isIp)
    ensures |Lookup(j, q, now)| <= 150
    ensures c in Lookup(j, q, now) ==> Stored(j, c) && IsWanted(c, q) && !IsExpired(c, now)
    ensures |Lookup(j, q, now)| < 150 && Stored(j, c) && IsWanted(c, q) && !IsExpired(c, now) ==> c in Lookup(j, q, now)
  {
    LookupIsFullScan(j, q, now);
    var live := KeepAll(j.chains, Unexpired(now));
    var all := ScanAll(live, Wanted(q));
    var found := AtMost(all, MAX_SEND);
    hide Inv, Lookup, Sorted, ScanAll, Keep, InOrder;
    InScan(live, Wanted(q), c);
    SameMembers(Lookup(j, q, now), found, c);
    if Stored(j, c) && IsWanted(c, q) && !IsExpired(c, now) {
      var b :| 0 <= b < |j.chains| && c in j.chains[b];
      assert c in live[b];
    }
  }

  lemma SameMembers(s: seq<Cookie>, t: seq<Cookie>, c: Cookie)
    requires multiset(s) == multiset(t)
    ensures |s| == |t| && (c in s <==> c in t)
  {
    assert |multiset(s)| == |s| && |multiset(t)| == |t|;
    assert c in s <==> c in multiset(s);
  }

  /** For a jar of indexable cookies, a lookup returns cookies of the jar that are to be sent, and all of them unless it
      returns the full number of 150. */
  lemma LookupSends(j: Jar, q: Query, path: string, query: string, now: Time, c: Cookie)
    requires Inv(j, q.isIp) && IgnoresCase(q.isIp) && AllIndexable(j, q.isIp)
    requires q.path == path + query && '?' !in path && (query == "" || query[0] == '?')
    ensures |Lookup(j, q, now)| <= 150
    ensures c in Lookup(j, q, now) ==> Stored(j, c) && ToBeSent(c, q, path, now)
    ensures |Lookup(j, q, now)| < 150 ==> (c in Lookup(j, q, now) <==> Stored(j, c) && ToBeSent(c, q, path, now))
  {
    hide Inv, Lookup, AllIndexable, Stored, IsWanted, IsExpired, ToBeSent;
    InLookup(j, q, now, c);
    WantedRule(c, q, path, query, now);
  }

  function Long(s: Option<string>): nat
  {
    match s
    case None => 0
    case Some(t) => |t|
  }

  /** The longer path as received goes first; then the longer domain, the longer name, and the cookie created later. */
  predicate GoesFirst(a: Cookie, b: Cookie)
  {
    || Long(a.path) > Long(b.path)
    || (Long(a.path) == Long(b.path) && Long(a.domain) > Long(b.domain))
    || (Long(a.path) == Long(b.path) && Long(a.domain) == Long(b.domain) && |a.name| > |b.name|)
    || (Long(a.path) == Long(b.path) && Long(a.domain) == Long(b.domain) && |a.name| == |b.name| && a.ct > b.ct)
  }

  lemma BeforeGoesFirst(a: Cookie, b: Cookie)
    requires a.ct != b.ct
    ensures Before(a, b) <==> GoesFirst(a, b)
  {
  }

  /** Every jar, indexable or not: of two cookies a lookup returns, the one that stands before the other goes first. */
  lemma LookupSorts(j: Jar, q: Query, now: Time, i: nat, k: nat)
    requires Inv(j, q.isIp) && i < k < |Lookup(j, q, now)|
    ensures GoesFirst(Lookup(j, q, now)[i], Lookup(j, q, now)[k])
  {
    LookupInOrder(j, q, now);
    var s := Lookup(j, q, now);
    hide Lookup, Inv;
    assert Before(s[i], s[k]) && s[i].ct != s[k].ct;
    BeforeGoesFirst(s[i], s[k]);
  }

  lemma LookupInOrder(j: Jar, q: Query, now: Time)
    requires Inv(j, q.isIp)
    ensures InOrder(Lookup(j, q, now)) && DistinctTimes(Lookup(j, q, now))
  {
    var h := CookieHash(Some(q.host), q.isIp);
    ShortcutIsFullSweep(j, now, q.isIp);
    var live := Keep(j.chains[h], Unexpired(now));
    var found := AtMost(Keep(live, Wanted(q)), MAX_SEND);
    assert AllApart(j.chains[h]);
    hide Inv, Keep, Sorted, InOrder, CookieSort, SameIdentity, AllApart;
    KeepApart(j.chains[h], Unexpired(now));
    WantedHaveDistinctTimes(live, Wanted(q), MAX_SEND);
    SortedInOrder(found);
    SortedSame(found);
    SortedDistinct(found);
    SortedNothing();
  }

  lemma SortedNothing()
    ensures Sorted([]) == [] && InOrder([]) && Keep([], c => true) == []
  {
  }

  lemma {:induction false} OnceOnly(s: seq<Cookie>, x: Cookie)
    requires DistinctTimes(s)
    ensures multiset(s)[x] <= 1
  {
    if s != [] {
      assert s == [s[0]] + s[1..];
      OnceOnly(s[1..], x);
    }
  }

  lemma TwiceThere(t: seq<Cookie>, i: nat, k: nat)
    requires i < k < |t| && t[i] == t[k]
    ensures multiset(t)[t[i]] >= 2
  {
    assert t == t[..k] + [t[k]] + t[k + 1..];
    assert t[..k][i] == t[i];
  }

  lemma SortedDistinct(s: seq<Cookie>)
    requires DistinctTimes(s)
    ensures DistinctTimes(Sorted(s))
  {
    var t := Sorted(s);
    SortedSame(s);
    hide Sorted;
    forall i, k | 0 <= i < k < |t| ensures t[i].ct != t[k].ct {
      if t[i] == t[k] {
        TwiceThere(t, i, k);
        OnceOnly(s, t[i]);
      } else {
        SameMembers(s, t, t[i]);
        SameMembers(s, t, t[k]);
      }
    }
  }
}
