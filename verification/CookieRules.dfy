/** The rules of the jar, spelled out: which paths and lines it makes, which cookies it refuses, replaces and drops
    (curl/lib/cookie.c). */
module CookieRules {
  import opened CString
  import opened CookieMatch
  import opened CookieParse
  import opened CookieJar
  import opened CookieInvariant
  import opened CookieLines
  import opened CookieRuns
  import opened CookieAnswers

  // ---------- the buckets ----------

  lemma LowByte(h: bv64, b: bv8)
    ensures (((h + (h << 5)) ^ SignExtend(b)) % 256) as bv8 == ((h % 256) as bv8 * 33) ^ b
  {
  }

  lemma {:induction false} HashMore(h: bv64, s: string, c: char)
    ensures HashFrom(h, s + [c]) == HashStep(HashFrom(h, s), c)
    decreases |s|
  {
    hide HashStep;
    if s == "" {
      assert s + [c] == [c] && [c][1..] == "";
    } else {
      assert (s + [c])[1..] == s[1..] + [c];
      HashMore(HashStep(h, s[0]), s[1..], c);
    }
  }

  lemma NothingHashed()
    ensures HashDomain("") == 5
  {
  }

  lemma BucketByte(h: bv64)
    ensures BucketOf(h) as bv8 == (h % 256) as bv8
  {
  }

  lemma StepLow(h: bv64, c: char)
    ensures BucketOf(HashStep(h, c)) as bv8 == (BucketOf(h) as bv8 * 33) ^ ((ToUpper(c) as int % 256) as bv8)
  {
    hide SignExtend, BucketOf;
    var b := Byte(ToUpper(c));
    BucketByte(h);
    BucketByte(HashStep(h, c));
    LowByte(h, b);
  }

  /** The bucket of a text, byte by byte: 5 for nothing, and for one byte more 33 times the bucket, xor the byte in upper
      case, modulo 256. */
  lemma HashRule(s: string, c: char)
    ensures HashDomain("") == 5
    ensures HashDomain(s + [c]) as bv8 == (HashDomain(s) as bv8 * 33) ^ ((ToUpper(c) as int % 256) as bv8)
  {
    hide HashStep, HashFrom, BucketOf;
    HashMore(5381, s, c);
    StepLow(HashFrom(5381, s), c);
    NothingHashed();
  }

  /** What counts of a domain are its last two labels. */
  lemma TopRule(front: string, a: string, b: string)
    requires '.' !in a && '.' !in b
    ensures TopDomain(front + "." + a + "." + b) == TopDomain(a + "." + b) == a + "." + b && TopDomain(b) == b
  {
    hide FindLast;
    var s, t := a + "." + b, front + "." + a + "." + b;
    LastDot(b, -1, |b|);
    LastDot(s, |a|, |s|);
    LastDot(s, -1, |a|);
    LastDot(t, |front| + 1 + |a|, |t|);
    LastDot(t, |front|, |front| + 1 + |a|);
    assert t[|front| + 1..] == s;
  }

  lemma LastDot(s: string, k: int, n: nat)
    requires n <= |s| && -1 <= k && (k == -1 || k < n)
    requires (k >= 0 ==> s[k] == '.') && forall i :: k < i < n ==> s[i] != '.'
    ensures FindLast(s, '.', n) == k
  {
    var f := FindLast(s, '.', n);
    assert f >= 0 ==> s[f] == '.';
  }

  /** There are 256 chains; a cookie without a domain, or for an IP number, is in the first one. */
  lemma BucketRule(domain: Option<string>, isIp: string -> bool)
    ensures |EmptyJar().chains| == 256
    ensures CookieHash(domain, isIp) == if domain == None || isIp(domain.value) then 0 else HashDomain(TopDomain(domain.value))
  {
    hide HashDomain, TopDomain;
  }

  // ---------- paths ----------

  /** A path is taken without one pair of quotes; a relative one stands for the root, and a slash at the end is dropped. */
  lemma SanitizeRule(p: string, before: string, after: string)
    requires p != "" ==> p[0] != '"' && p[|p| - 1] != '"'
    requires before in {"", "\""} && after in {"", "\""}
    ensures p == "" || p[0] != '/' ==> Sanitize(before + p + after) == "/"
    ensures forall dir :: p == dir + "/" && p[0] == '/' ==> Sanitize(before + p + after) == dir
    ensures p != "" && p[0] == '/' && p[|p| - 1] != '/' ==> Sanitize(before + p + after) == p
  {
    hide Sanitize;
    Unquoted(before, p, after);
    SanitizeBare(p);
    forall dir | p == dir + "/" && p[0] == '/' ensures Sanitize(before + p + after) == dir {
      assert p[..|p| - 1] == dir;
    }
  }

  lemma Unquoted(before: string, p: string, after: string)
    requires p != "" ==> p[0] != '"' && p[|p| - 1] != '"'
    requires before in {"", "\""} && after in {"", "\""}
    ensures Sanitize(before + p + after) == Sanitize(p)
  {
    var s, q := before + p + after, p + after;
    if p == "" {
      SanitizeBy(s, if before == "" then "" else q, "");
      SanitizeBy("", "", "");
    } else {
      hide Sanitize;
      assert s == before + q;
      LastQuote(p, after);
      FirstQuote(before, q);
      SanitizeBy(s, q, p);
      SanitizeBy(p, p, p);
    }
  }

  lemma SanitizeBy(s: string, q: string, t: string)
    requires q == if s != "" && s[0] == '"' then s[1..] else s
    requires t == if q != "" && q[|q| - 1] == '"' then q[..|q| - 1] else q
    ensures Sanitize(s) == if t == "" || t[0] != '/' then "/" else if t[|t| - 1] == '/' then t[..|t| - 1] else t
  {
  }

  lemma FirstQuote(before: string, p: string)
    requires p != "" && p[0] != '"' && before in {"", "\""}
    ensures before + p != "" && ((before + p)[0] == '"' <==> before != "")
    ensures (if before != "" then (before + p)[1..] else before + p) == p
  {
  }

  lemma LastQuote(p: string, after: string)
    requires p != "" && p[|p| - 1] != '"' && after in {"", "\""}
    ensures p + after != "" && (p + after)[0] == p[0] && ((p + after)[|p + after| - 1] == '"' <==> after != "")
    ensures (if after != "" then (p + after)[..|p + after| - 1] else p + after) == p
  {
  }

  lemma SanitizeBare(p: string)
    requires p != "" ==> p[0] != '"' && p[|p| - 1] != '"'
    ensures Sanitize(p) == if p == "" || p[0] != '/' then "/" else if p[|p| - 1] == '/' then p[..|p| - 1] else p
  {
  }

  /** Without a path attribute the cookie gets the directory of the request, up to and including its last slash before the
      query; none if there is no slash. */
  lemma DefaultPathRule(dir: string, file: string, query: string)
    requires '?' !in dir && '?' !in file && '/' !in file && (query == "" || query[0] == '?')
    ensures DefaultPath(dir + "/" + file + query) == Some(dir + "/")
    ensures DefaultPath(file + query) == None
  {
    var s := dir + "/" + file;
    FindUnique(s + query, '?', |s|);
    LastSlash(s + query, |dir|, |s|);
    assert (s + query)[..|dir| + 1] == dir + "/";
    FindUnique(file + query, '?', |file|);
    NoSlash(file + query, |file|);
  }

  lemma LastSlash(s: string, k: nat, n: nat)
    requires k < n <= |s| && s[k] == '/' && forall i :: k < i < n ==> s[i] != '/'
    ensures FindLast(s, '/', n) == k
  {
    var f := FindLast(s, '/', n);
    assert f >= 0 ==> s[f] == '/';
  }

  lemma NoSlash(s: string, n: nat)
    requires n <= |s| && forall i :: 0 <= i < n ==> s[i] != '/'
    ensures FindLast(s, '/', n) == -1
  {
  }

  // ---------- the lines of a cookie file ----------

  /** Numbers are printed with the usual ten digits, the most significant one first. */
  lemma DigitsRule(n: nat, d: nat)
    requires d < 10
    ensures Itoa(d) == ["0123456789"[d]]
    ensures n > 0 ==> Itoa(10 * n + d) == Itoa(n) + Itoa(d)
  {
    assert (10 * n + d) / 10 == n && (10 * n + d) % 10 == d;
  }

  function Word(b: bool): string
  {
    if b then "TRUE" else "FALSE"
  }

  /** The first field: a dot in front of the domain says that the cookie tail-matches. */
  function DomainText(c: Cookie): string
  {
    match c.domain
    case None => "unknown"
    case Some(d) => if c.tailmatch && !("." <= d) then "." + d else d
  }

  lemma DomainTextIs(c: Cookie)
    ensures DomainField(c) == DomainText(c)
  {
    assert c.domain.Some? ==> ("." <= c.domain.value <==> c.domain.value != "" && c.domain.value[0] == '.');
  }

  /** The printed line: seven fields with tabs between them. */
  lemma LineRule(c: Cookie)
    requires c.expires >= 0
    ensures NetscapeFormat(c) ==
            (if c.httponly then "#HttpOnly_" else "") +
            (DomainText(c) + "\t" + Word(c.tailmatch) + "\t" + (if c.path.Some? then c.path.value else "/")
             + "\t" + Word(c.secure) + "\t" + Itoa(c.expires) + "\t" + c.name + "\t" + c.value)
  {
    hide Itoa, Join, DomainField, DomainText;
    DomainTextIs(c);
    JoinSeven(DomainText(c), Word(c.tailmatch), PathField(c), Word(c.secure), Itoa(c.expires), c.name, c.value);
  }

  lemma JoinSeven(a: string, b: string, c: string, d: string, e: string, f: string, g: string)
    ensures Join([a, b, c, d, e, f, g]) ==
            a + "\t" + b + "\t" + c + "\t" + d + "\t" + e + "\t" + f + "\t" + g
  {
    hide Join;
    JoinThree(a, b, c, [d, e, f, g]);
    JoinThree(d, e, f, [g]);
    JoinMore(f, [g]);
    assert [a, b, c] + [d, e, f, g] == [a, b, c, d, e, f, g] && [d, e, f] + [g] == [d, e, f, g];
    var front, back := a + "\t" + b + "\t" + c + "\t", d + "\t" + e + "\t" + f + "\t" + g;
    assert front + back == a + "\t" + b + "\t" + c + "\t" + d + "\t" + e + "\t" + f + "\t" + g;
  }

  lemma JoinThree(a: string, b: string, c: string, rest: seq<string>)
    requires rest != []
    ensures Join([a, b, c] + rest) == a + "\t" + b + "\t" + c + "\t" + Join(rest)
  {
    hide Join;
    JoinMore(c, rest);
    JoinMore(b, [c] + rest);
    JoinMore(a, [b] + ([c] + rest));
    assert [a, b, c] + rest == [a] + ([b] + ([c] + rest));
  }

  lemma JoinMore(a: string, rest: seq<string>)
    requires rest != []
    ensures Join([a] + rest) == a + "\t" + Join(rest)
    ensures |rest| == 1 ==> Join(rest) == rest[0]
  {
    assert ([a] + rest)[1..] == rest;
  }

  // ---------- refusing and replacing ----------

  predicate AlikeTexts(a: Option<string>, b: Option<string>)
  {
    match (a, b)
    case (None, None) => true
    case (Some(s), Some(t)) => SameText(s, t)
    case _ => false
  }

  /** Two cookies are one: alike in name, domain, sanitized path, and in tail-matching if they have a domain. */
  predicate Twins(a: Cookie, b: Cookie)
  {
    && SameText(a.name, b.name) && AlikeTexts(a.domain, b.domain) && AlikeTexts(a.spath, b.spath)
    && (a.domain.Some? ==> a.tailmatch == b.tailmatch)
  }

  lemma AlikeRule(a: Option<string>, b: Option<string>)
    ensures OptCaseEq(a, b) <==> AlikeTexts(a, b)
  {
    if a.Some? && b.Some? {
      CaseEqIsSameText(a.value, b.value);
    }
    hide SameText, CaseEq;
  }

  lemma IdentityRule(a: Cookie, b: Cookie)
    ensures SameIdentity(a, b) <==> Twins(a, b)
  {
    hide SameText, CaseEq, OptCaseEq, AlikeTexts;
    CaseEqIsSameText(a.name, b.name);
    AlikeRule(a.domain, b.domain);
    AlikeRule(a.spath, b.spath);
  }

  /** `head` is the first directory of the path: all of it, or up to its second slash. */
  predicate FirstDirectory(head: string, path: string)
  {
    && head <= path && (path != "" ==> head != "")
    && (|head| < |path| ==> path[|head|] == '/')
    && forall i :: 1 <= i < |head| ==> head[i] != '/'
  }

  /** A secure cookie refuses a non-secure one that comes over an insecure connection and is alike in name and domain,
      when the new one's path begins like its first directory - as a text, so that "/login" also refuses "/loginhelper". */
  lemma OverlayRule(prior: Cookie, co: Cookie, secure: bool, head: string)
    requires prior.spath.Some? ==> FirstDirectory(head, prior.spath.value)
    ensures Overlays(prior, co, secure) <==>
            && SameText(prior.name, co.name) && AlikeTexts(prior.domain, co.domain)
            && prior.secure && !co.secure && !secure
            && prior.spath.Some? && co.spath.Some?
            && |head| <= |co.spath.value| && SameText(head, co.spath.value[..|head|])
  {
    CaseEqIsSameText(prior.name, co.name);
    AlikeRule(prior.domain, co.domain);
    if prior.spath.Some? && co.spath.Some? {
      var (sp, np) := (prior.spath.value, co.spath.value);
      ScopeIs(sp, head);
      assert Prefix(sp, |head|) == head;
      if |head| <= |np| {
        CaseEqIsSameText(head, np[..|head|]);
      }
    }
    hide SameText, AlikeTexts, OptCaseEq, SecureScope;
  }

  lemma ScopeIs(path: string, head: string)
    requires FirstDirectory(head, path)
    ensures SecureScope(path) == |head|
  {
    if path != "" {
      var rest := path[1..];
      assert forall i :: 0 <= i < |head| - 1 ==> rest[i] == head[i + 1];
      FindUnique(rest, '/', |head| - 1);
    }
  }

  // ---------- what an add, a sweep and a clear leave ----------

  /** A line that has been read may enter the jar: a cookie named "__Secure-" is secure, one named "__Host-" is secure, for
      the path "/" and for one host only; and while a file is loaded into a new session, the cookie is no session cookie. */
  lemma AdmissionRule(j: Jar, p: Parsed)
    ensures Admissible(j, p) <==>
            && (p.securePrefix ==> p.cookie.secure)
            && (p.hostPrefix ==> p.cookie.secure && p.cookie.path == Some("/") && !p.cookie.tailmatch)
            && (j.running || !j.newsession || p.cookie.expires != 0)
  {
  }

  /** What stands against the cookie: one that must not be overlaid, or its twin from a header when it comes from a file. */
  predicate Refusing(x: Cookie, co: Cookie, secure: bool)
  {
    Overlays(x, co, secure) || (SameIdentity(x, co) && x.live && !co.live)
  }

  /** From `before` to `after`: nothing if some cookie stands against the new one; else the new one in the place of its
      twin, with the twin's creation time; else the new one at the end. */
  ghost predicate Outcome(before: seq<Cookie>, after: seq<Cookie>, co: Cookie, secure: bool)
  {
    if exists x :: x in before && Refusing(x, co, secure) then after == before
    else if exists k :: 0 <= k < |before| && SameIdentity(before[k], co) then
      exists k :: 0 <= k < |before| && SameIdentity(before[k], co) && after == before[k := co.(ct := before[k].ct)]
    else after == before + [co]
  }

  /** A cookie that may enter goes into the chain of its domain, unless something stands against it; all other chains are
      only swept. */
  lemma AddRule(j: Jar, p: Parsed, secure: bool, noexpire: bool, now: Time, isIp: string -> bool, b: nat)
    requires Inv(j, isIp) && Admissible(j, p) && b < BUCKETS
    ensures var co := p.cookie.(live := j.running, ct := j.lastct + 1);
            var before := if noexpire then j.chains[b] else Keep(j.chains[b], Unexpired(now));
            var after := AddParsed(j, Some(p), secure, noexpire, now, isIp).chains[b];
            if b == CookieHash(co.domain, isIp) then Outcome(before, after, co, secure) else after == before
  {
    hide Inv, Store, RemoveExpired, Keep, Outcome, Unexpired, AllApart, Admissible, SameIdentity;
    SweptFirst(j, noexpire, now, isIp, b);
    var j1 := j.(lastct := j.lastct + 1);
    StoreRule(if noexpire then j1 else RemoveExpired(j1, now), Stamped(j, p), secure, isIp, b);
  }

  lemma SweptFirst(j: Jar, noexpire: bool, now: Time, isIp: string -> bool, b: nat)
    requires Inv(j, isIp) && b < BUCKETS
    ensures var j1 := j.(lastct := j.lastct + 1);
            var chains := (if noexpire then j1 else RemoveExpired(j1, now)).chains;
            && |j.chains| == |chains| == BUCKETS && AllApart(chains[b])
            && chains[b] == if noexpire then j.chains[b] else Keep(j.chains[b], Unexpired(now))
  {
    assert |j.chains| == BUCKETS && AllApart(j.chains[b]);
    hide Inv, FullSweep, RemoveExpired, Keep, Unexpired, AllApart;
    if !noexpire {
      var j1 := j.(lastct := j.lastct + 1);
      KeepApart(j.chains[b], Unexpired(now));
      LaterClockKeepsInv(j, isIp);
      ShortcutIsFullSweep(j1, now, isIp);
      FullSweepKeeps(j1, now);
    }
  }

  lemma StoreRule(j: Jar, co: Cookie, secure: bool, isIp: string -> bool, b: nat)
    requires |j.chains| == BUCKETS && b < BUCKETS && AllApart(j.chains[b])
    ensures var after := Store(j, co, secure, isIp).chains[b];
            if b == CookieHash(co.domain, isIp) then Outcome(j.chains[b], after, co, secure) else after == j.chains[b]
  {
    hide Judge, AllApart, Outcome;
    JudgeRule(j.chains[b], co, secure);
  }

  lemma JudgeRule(chain: seq<Cookie>, co: Cookie, secure: bool)
    requires AllApart(chain)
    ensures Outcome(chain, Place(chain, co, Judge(chain, co, secure)), co, secure)
  {
    OnlyTwin(chain, co);
    hide SameIdentity, Overlays, AllApart;
    var k := FirstSame(chain, co);
    if exists x :: x in chain && Refusing(x, co, secure) {
      var x :| x in chain && Refusing(x, co, secure);
      var i :| 0 <= i < |chain| && chain[i] == x;
      assert Overlays(chain[i], co, secure) || k == i;
      assert Judge(chain, co, secure).Refused?;
    } else {
      assert forall i :: 0 <= i < |chain| ==> chain[i] in chain && !Refusing(chain[i], co, secure);
      if k < |chain| {
        assert SameIdentity(chain[k], co) && Judge(chain, co, secure) == Replaced(k);
      }
    }
  }

  lemma OnlyTwin(chain: seq<Cookie>, co: Cookie)
    requires AllApart(chain)
    ensures forall i :: 0 <= i < |chain| && SameIdentity(chain[i], co) ==> FirstSame(chain, co) == i
  {
    forall i | 0 <= i < |chain| && SameIdentity(chain[i], co) ensures FirstSame(chain, co) == i {
      var f := FirstSame(chain, co);
      if f < i {
        SameIdentityIsEquivalence(chain[f], co, chain[i]);
        SameIdentityIsEquivalence(chain[i], co, co);
        assert false;
      }
    }
  }

  /** A sweep drops exactly the cookies whose time is over. */
  lemma SweepRule(j: Jar, now: Time, isIp: string -> bool, b: nat, c: Cookie)
    requires Inv(j, isIp) && b < BUCKETS
    ensures c in RemoveExpired(j, now).chains[b] <==> c in j.chains[b] && (c.expires == 0 || now <= c.expires)
  {
    ShortcutIsFullSweep(j, now, isIp);
    FullSweepKeeps(j, now);
    assert |j.chains| == BUCKETS;
    hide Inv, RemoveExpired, FullSweep;
  }

  /** Ending the session drops exactly the cookies without an expiry time, clearing drops all. */
  lemma ClearRule(j: Jar, b: nat, c: Cookie)
    requires b < |j.chains|
    ensures c in ClearSession(j).chains[b] <==> c in j.chains[b] && c.expires != 0
    ensures ClearAll(j).chains[b] == []
  {
  }
}
