/** Domain and path matching, and the bucket a domain is filed under (curl/lib/cookie.c). */
module CookieMatch {
  import opened CString

  const BUCKETS: nat := 256

  /** The host is the cookie domain, or ends with it right after a dot. */
  predicate TailMatch(domain: string, host: string)
  {
    |domain| <= |host|
    && CaseEq(domain, host[|host| - |domain|..])
    && (|domain| == |host| || host[|host| - |domain| - 1] == '.')
  }

  /** The request path without its query, or "/" when that is not an absolute path. */
  function UriPath(uri: string): string
  {
    var p := uri[..Find(uri, '?')];
    if p == "" || p[0] != '/' then "/" else p
  }

  predicate PathMatch(cookiePath: string, uri: string)
  {
    |cookiePath| == 1 ||
    var p := UriPath(uri);
    cookiePath <= p && (|cookiePath| == |p| || p[|cookiePath|] == '/')
  }

  /** The path part of the test `Curl_cookie_getlist` applies to a cookie. */
  predicate PathAllows(spath: Option<string>, uri: string)
  {
    spath.None? || PathMatch(spath.value, uri)
  }

  /** Strips one pair of quotes, falls back to "/" and drops a trailing slash. */
  function Sanitize(path: string): string
  {
    var p := if path != "" && path[0] == '"' then path[1..] else path;
    var q := if p != "" && p[|p| - 1] == '"' then p[..|p| - 1] else p;
    if q == "" || q[0] != '/' then "/"
    else if q[|q| - 1] == '/' then q[..|q| - 1]
    else q
  }

  predicate HasDot(domain: string)
  {
    '.' in domain
  }

  /** Where the last two labels of the domain start. */
  function TopStart(domain: string): (k: nat)
    ensures k <= |domain|
  {
    var last := FindLast(domain, '.', |domain|);
    if last < 0 then 0 else FindLast(domain, '.', last) + 1
  }

  function TopDomain(domain: string): string
  {
    domain[TopStart(domain)..]
  }

  function Byte(c: char): bv8
  {
    (c as int % 256) as bv8
  }

  /** A signed byte widened to `size_t`. */
  function SignExtend(b: bv8): bv64
  {
    if b < 128 then b as bv64 else b as bv64 | 0xFFFF_FFFF_FFFF_FF00
  }

  /** One round of the hash in 64-bit wrap-around arithmetic. */
  function HashStep(h: bv64, c: char): bv64
  {
    (h + (h << 5)) ^ SignExtend(Byte(ToUpper(c)))
  }

  function HashFrom(h: bv64, s: string): bv64
    decreases |s|
  {
    if s == "" then h else HashFrom(HashStep(h, s[0]), s[1..])
  }

  function BucketOf(h: bv64): (b: nat)
    ensures b < BUCKETS
  {
    (h % 256) as bv8 as nat
  }

  function HashDomain(s: string): (b: nat)
    ensures b < BUCKETS
  {
    BucketOf(HashFrom(5381, s))
  }

  method CookieHashDomain(domain: string, len: nat) returns (b: nat)
    requires len <= |domain|
    ensures b == HashDomain(domain[..len])
  {
    var i, h := 0, 5381 as bv64;
    while i < len
      invariant 0 <= i <= len
      invariant HashFrom(5381, domain[..len]) == HashFrom(h, domain[i..len])
    {
      assert domain[i..len][1..] == domain[i + 1..len];
      h := HashStep(h, domain[i]);
      i := i + 1;
    }
    return BucketOf(h);
  }

  /** The bucket of a domain: null domains and IP numbers go to bucket 0. */
  function CookieHash(domain: Option<string>, isIp: string -> bool): (b: nat)
    ensures b < BUCKETS
  {
    if domain.None? || isIp(domain.value) then 0 else HashDomain(TopDomain(domain.value))
  }

  // ---------- equal up to case means the same bucket ----------

  ghost predicate IgnoresCase(isIp: string -> bool)
  {
    forall a, b :: CaseEq(a, b) ==> isIp(a) == isIp(b)
  }

  lemma {:induction false} HashIgnoresCase(h: bv64, a: string, b: string)
    requires CaseEq(a, b)
    ensures HashFrom(h, a) == HashFrom(h, b)
    decreases |a|
  {
    if a != "" {
      assert ToUpper(a[0]) == ToUpper(b[0]);
      HashIgnoresCase(HashStep(h, a[0]), a[1..], b[1..]);
    }
  }

  lemma DotIgnoresCase(c: char, d: char)
    requires ToUpper(c) == ToUpper(d)
    ensures c == '.' <==> d == '.'
  {
  }

  /** The last dot of a host, seen from inside the suffix that matches the cookie domain. */
  lemma {:induction false} FindLastInSuffix(domain: string, host: string, n: nat)
    requires n <= |domain| <= |host| && CaseEq(domain, host[|host| - |domain|..])
    ensures var k := |host| - |domain|;
            FindLast(host, '.', k + n) ==
            if FindLast(domain, '.', n) >= 0 then k + FindLast(domain, '.', n) else FindLast(host, '.', k)
  {
    if n > 0 {
      var k := |host| - |domain|;
      assert host[k..][n - 1] == host[k + n - 1];
      DotIgnoresCase(domain[n - 1], host[k + n - 1]);
      FindLastInSuffix(domain, host, n - 1);
    }
  }

  lemma SuffixOfSuffix(a: string, b: string, n: nat)
    requires CaseEq(a, b) && n <= |a|
    ensures CaseEq(a[n..], b[n..])
  {
  }

  lemma TopStartInSuffix(domain: string, host: string)
    requires TailMatch(domain, host) && HasDot(domain)
    ensures TopStart(host) == |host| - |domain| + TopStart(domain)
  {
    hide CaseEq;
    var k := |host| - |domain|;
    var last := FindLast(domain, '.', |domain|);
    FindLastInSuffix(domain, host, |domain|);
    assert FindLast(host, '.', |host|) == k + last;
    FindLastInSuffix(domain, host, last);
    assert FindLast(host, '.', k) == k - 1;
  }

  /** A tail-matching host and a cookie domain with a dot in it have the same top domain, up to case. */
  lemma TailMatchSameTop(domain: string, host: string)
    requires TailMatch(domain, host) && HasDot(domain)
    ensures CaseEq(TopDomain(domain), TopDomain(host))
  {
    hide CaseEq;
    TopStartInSuffix(domain, host);
    SuffixOfSuffix(domain, host[|host| - |domain|..], TopStart(domain));
    assert host[|host| - |domain|..][TopStart(domain)..] == TopDomain(host);
  }

  lemma CaseEqSameTop(a: string, b: string)
    requires CaseEq(a, b)
    ensures CaseEq(TopDomain(a), TopDomain(b))
  {
    assert TopStart(a) == TopStart(b) by {
      hide CaseEq;
      assert b[|b| - |a|..] == b;
      FindLastInSuffix(a, b, |a|);
      if FindLast(a, '.', |a|) >= 0 {
        FindLastInSuffix(a, b, FindLast(a, '.', |a|));
      }
    }
    SuffixOfSuffix(a, b, TopStart(a));
  }

  lemma CaseEqSameBucket(a: string, b: string, isIp: string -> bool)
    requires CaseEq(a, b) && IgnoresCase(isIp)
    ensures CookieHash(Some(a), isIp) == CookieHash(Some(b), isIp)
  {
    CaseEqSameTop(a, b);
    HashIgnoresCase(5381, TopDomain(a), TopDomain(b));
  }

  // ---------- when one bucket is enough ----------

  /** The host part of the test `Curl_cookie_getlist` applies to a cookie. */
  predicate HostMatch(domain: Option<string>, tailmatch: bool, host: string, isIp: string -> bool)
  {
    domain.None?
    || (tailmatch && !isIp(host) && TailMatch(domain.value, host))
    || ((!tailmatch || isIp(host)) && CaseEq(host, domain.value))
  }

  /** What a caller can check of a cookie so that its own bucket is the only one ever needed. */
  predicate Indexable(domain: Option<string>, tailmatch: bool, isIp: string -> bool)
  {
    domain.Some? &&
    (tailmatch ==>
       HasDot(domain.value) && CookieHash(domain, isIp) == HashDomain(TopDomain(domain.value)))
  }

  lemma IndexableFindsHost(domain: Option<string>, tailmatch: bool, host: string, isIp: string -> bool)
    requires IgnoresCase(isIp) && Indexable(domain, tailmatch, isIp)
    requires HostMatch(domain, tailmatch, host, isIp)
    ensures CookieHash(Some(host), isIp) == CookieHash(domain, isIp)
  {
    if tailmatch && !isIp(host) {
      TailMatchSameTop(domain.value, host);
      HashIgnoresCase(5381, TopDomain(domain.value), TopDomain(host));
    } else {
      CaseEqSameBucket(host, domain.value, isIp);
    }
  }

  /** One hash round keeps different low bytes different, whatever byte is mixed in. */
  lemma HashStepInjective(h1: bv64, h2: bv64, c: char)
    requires h1 & 0xFF != h2 & 0xFF
    ensures HashStep(h1, c) & 0xFF != HashStep(h2, c) & 0xFF
  {
    HashStepInjectiveBits(h1, h2, SignExtend(Byte(ToUpper(c))));
  }

  lemma HashStepInjectiveBits(h1: bv64, h2: bv64, x: bv64)
    requires h1 & 0xFF != h2 & 0xFF
    ensures ((h1 + (h1 << 5)) ^ x) & 0xFF != ((h2 + (h2 << 5)) ^ x) & 0xFF
  {
  }

  lemma {:induction false} HashFromInjective(h1: bv64, h2: bv64, s: string)
    requires h1 & 0xFF != h2 & 0xFF
    ensures HashFrom(h1, s) & 0xFF != HashFrom(h2, s) & 0xFF
    decreases |s|
  {
    if s != "" {
      HashStepInjective(h1, h2, s[0]);
      HashFromInjective(HashStep(h1, s[0]), HashStep(h2, s[0]), s[1..]);
    }
  }

  lemma LowByteIsBucket(h1: bv64, h2: bv64)
    requires h1 & 0xFF != h2 & 0xFF
    ensures BucketOf(h1) != BucketOf(h2)
  {
    assert h1 % 256 == h1 & 0xFF && h2 % 256 == h2 & 0xFF;
    assert (h1 % 256) as bv8 != (h2 % 256) as bv8;
  }

  lemma OneDotIsWholeTop(host: string)
    requires |host| >= 2 && host[0] != '.' && host[1] == '.'
    requires forall i :: 2 <= i < |host| ==> host[i] != '.'
    ensures TopDomain(host) == host
  {
    assert FindLast(host, '.', |host|) == 1;
  }

  lemma FirstStepsDiffer()
    ensures HashStep(5381, 'a') & 0xFF != HashStep(5381, 'b') & 0xFF
  {
    assert ToUpper('a') == 'A' && ToUpper('b') == 'B';
    assert 'A' as int == 65 && 'B' as int == 66;
    assert Byte('A') == 65;
    assert Byte('B') == 66;
    assert SignExtend(65) == 65 && SignExtend(66) == 66;
  }

  lemma OtherHeadOtherBucket(h: bv64, s: string, t: string)
    requires s != "" && t != "" && s[1..] == t[1..]
    requires HashStep(h, s[0]) & 0xFF != HashStep(h, t[0]) & 0xFF
    ensures BucketOf(HashFrom(h, s)) != BucketOf(HashFrom(h, t))
  {
    HashFromInjective(HashStep(h, s[0]), HashStep(h, t[0]), s[1..]);
    LowByteIsBucket(HashFrom(h, s), HashFrom(h, t));
  }

  /** Two hosts under the same dotless name that never share a bucket. */
  lemma TwoHostsTwoBuckets(ha: string, hb: string, isIp: string -> bool)
    requires |ha| >= 2 && |hb| >= 2 && ha[0] == 'a' && hb[0] == 'b' && ha[1] == '.' && ha[1..] == hb[1..]
    requires forall i :: 2 <= i < |ha| ==> ha[i] != '.'
    requires !isIp(ha) && !isIp(hb)
    ensures CookieHash(Some(ha), isIp) != CookieHash(Some(hb), isIp)
  {
    hide SignExtend, Byte, BucketOf, HashStep, HashFrom, TopDomain;
    assert forall i :: 1 <= i < |ha| ==> hb[i] == hb[1..][i - 1] == ha[i];
    OneDotIsWholeTop(ha);
    OneDotIsWholeTop(hb);
    FirstStepsDiffer();
    OtherHeadOtherBucket(5381, ha, hb);
  }

  /** A host that matches a cookie which is not indexable, and that looks in another bucket. */
  lemma MissedHost(domain: Option<string>, tailmatch: bool, isIp: string -> bool) returns (host: string)
    requires forall d :: !isIp("a." + d) && !isIp("b." + d)
    requires !Indexable(domain, tailmatch, isIp)
    ensures HostMatch(domain, tailmatch, host, isIp)
    ensures CookieHash(Some(host), isIp) != CookieHash(domain, isIp)
  {
    var d := if domain.Some? then domain.value else "";
    var ha, hb := "a." + d, "b." + d;
    assert domain.Some? ==> TailMatch(d, ha) && TailMatch(d, hb) by {
      assert ha[|ha| - |d|..] == d && hb[|hb| - |d|..] == d;
    }
    if HasDot(d) {
      host := ha;
      TailMatchSameTop(d, ha);
      HashIgnoresCase(5381, TopDomain(d), TopDomain(ha));
    } else {
      assert ha[1..] == hb[1..] == "." + d;
      TwoHostsTwoBuckets(ha, hb, isIp);
      host := if CookieHash(Some(ha), isIp) != CookieHash(domain, isIp) then ha else hb;
    }
  }

  /** Looking in the host's own bucket misses no match for a cookie exactly when the cookie is indexable. */
  lemma BucketIsEnoughExactly(domain: Option<string>, tailmatch: bool, isIp: string -> bool)
    requires IgnoresCase(isIp)
    requires forall d :: !isIp("a." + d) && !isIp("b." + d)
    ensures (forall host :: HostMatch(domain, tailmatch, host, isIp) ==>
                            CookieHash(Some(host), isIp) == CookieHash(domain, isIp))
            <==> Indexable(domain, tailmatch, isIp)
  {
    if Indexable(domain, tailmatch, isIp) {
      forall host | HostMatch(domain, tailmatch, host, isIp)
        ensures CookieHash(Some(host), isIp) == CookieHash(domain, isIp)
      {
        IndexableFindsHost(domain, tailmatch, host, isIp);
      }
    } else {
      var host := MissedHost(domain, tailmatch, isIp);
    }
  }
}
