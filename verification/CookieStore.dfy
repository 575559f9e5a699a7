/** The jar as libcurl keeps it: 256 singly linked chains that are unlinked, relinked and overwritten in
    place (curl/lib/cookie.c). Every method is proved against the value-level jar of `CookieJar`. */
module CookieStore {
  import opened CString
  import opened CookieMatch
  import opened CookieParse
  import opened CookieJar
  import opened CookieInvariant
  import opened CookieLookup

  class Node {
    var cookie: Cookie
    var next: Node?
    ghost var bucket: nat   // the chain this node belongs to

    constructor (cookie: Cookie, ghost bucket: nat)
      ensures this.cookie == cookie && this.next == null && this.bucket == bucket
    {
      this.cookie, this.next, this.bucket := cookie, null, bucket;
    }
  }

  ghost function At(ns: seq<Node>, i: nat): Node?
  {
    if i < |ns| then ns[i] else null
  }

  ghost predicate Distinct(ns: seq<Node>)
  {
    forall i, k :: 0 <= i < k < |ns| ==> ns[i] != ns[k]
  }

  /** Following `next` from `head` visits exactly `ns`. */
  ghost predicate Linked(head: Node?, ns: seq<Node>)
    reads ns
  {
    head == At(ns, 0) && forall i {:trigger ns[i].next} :: 0 <= i < |ns| ==> ns[i].next == At(ns, i + 1)
  }

  ghost function Values(ns: seq<Node>): (r: seq<Cookie>)
    reads ns
    ensures |r| == |ns| && forall i :: 0 <= i < |ns| ==> r[i] == ns[i].cookie
  {
    seq(|ns|, i requires 0 <= i < |ns| reads ns => ns[i].cookie)
  }

  /** A walk along a chain: `done` has been passed and kept, `pv` is its last node, `rest` is to come. */
  ghost predicate Cursor(head: Node?, pv: Node?, done: seq<Node>, rest: seq<Node>)
    reads done + rest
  {
    Distinct(done + rest) && Linked(head, done + rest) && pv == if done == [] then null else done[|done| - 1]
  }

  lemma CursorStart(head: Node?, ns: seq<Node>)
    requires Distinct(ns) && Linked(head, ns)
    ensures Cursor(head, null, [], ns) && head == At(ns, 0)
  {
    assert [] + ns == ns;
  }

  lemma CursorEnd(head: Node?, pv: Node?, done: seq<Node>)
    requires Cursor(head, pv, done, [])
    ensures Distinct(done) && Linked(head, done)
  {
    assert done + [] == done;
  }

  lemma CursorHead(head: Node?, pv: Node?, done: seq<Node>, rest: seq<Node>)
    requires Cursor(head, pv, done, rest) && rest != []
    ensures rest[0].next == At(rest[1..], 0)
    ensures Cursor(head, rest[0], done + [rest[0]], rest[1..])
    ensures pv == null || pv in done
  {
    assert (done + rest)[|done|] == rest[0];
    assert done + [rest[0]] + rest[1..] == done + rest;
    assert At(done + rest, |done| + 1) == At(rest, 1);
  }

  /** Unlinks the node after `pv`. */
  method Unlink(head: Node?, pv: Node?, co: Node, ghost done: seq<Node>, ghost rest: seq<Node>)
    returns (newHead: Node?)
    requires Cursor(head, pv, done, rest) && rest != [] && co == rest[0]
    modifies (if pv == null then {} else {pv})`next
    ensures Cursor(newHead, pv, done, rest[1..])
  {
    ghost var all, left := done + rest, done + rest[1..];
    assert forall i :: 0 <= i < |left| ==> left[i] == all[if i < |done| then i else i + 1];
    assert all[|done|] == co && co.next == At(all, |done| + 1) == At(left, |done|);
    if pv == null {
      newHead := co.next;
    } else {
      assert pv == all[|done| - 1];
      pv.next := co.next;
      newHead := head;
    }
    assert forall i :: 0 <= i < |left| ==> left[i].next == At(left, i + 1);
  }

  lemma KeepNothing(p: Cookie -> bool)
    ensures Keep([], p) == [] && forall m :: MinExpiry([], m) == m
  {
  }

  /** One step of a filter that keeps what it has found in `vals`, and of the watermark beside it. */
  lemma KeepStep(vals: seq<Cookie>, rest: seq<Cookie>, p: Cookie -> bool, next: int)
    requires rest != []
    ensures !p(rest[0]) ==> Keep(rest, p) == Keep(rest[1..], p)
    ensures p(rest[0]) ==>
              && vals + Keep(rest, p) == vals + [rest[0]] + Keep(rest[1..], p)
              && MinExpiry(Keep(rest, p), next) ==
                 MinExpiry(Keep(rest[1..], p), if rest[0].expires != 0 && rest[0].expires < next then rest[0].expires else next)
  {
    if p(rest[0]) {
      assert Keep(rest, p) == [rest[0]] + Keep(rest[1..], p);
      assert Keep(rest, p)[1..] == Keep(rest[1..], p);
    }
  }

  /** One chain of `remove_expired`: unlinks the expired cookies and lowers the watermark for the others. */
  method SweepChain(head: Node?, now: Time, next0: int, ghost ns: seq<Node>)
    returns (newHead: Node?, removed: nat, next: int, ghost kept: seq<Node>)
    requires Distinct(ns) && Linked(head, ns)
    modifies ns`next
    ensures Distinct(kept) && Linked(newHead, kept) && (forall n :: n in kept ==> n in ns)
    ensures Values(kept) == Keep(old(Values(ns)), Unexpired(now))
    ensures removed == |ns| - |kept| && next == MinExpiry(Values(kept), next0)
  {
    hide Cursor, Linked, Distinct, Values, Keep, MinExpiry;
    CursorStart(head, ns);
    KeepNothing(Unexpired(now));
    ghost var p, full := Unexpired(now), Keep(Values(ns), Unexpired(now));
    newHead, removed, next := head, 0, next0;
    var pv: Node?, co := null, head;
    ghost var rest: seq<Node>, vals: seq<Cookie>, restVals := ns, [], Values(ns);
    kept := [];
    while co != null
      invariant Cursor(newHead, pv, kept, rest) && co == At(rest, 0)
      invariant |kept| == |vals| && forall i :: 0 <= i < |kept| ==> kept[i] in ns && kept[i].cookie == vals[i]
      invariant |rest| == |restVals| && forall i :: 0 <= i < |rest| ==> rest[i] in ns && rest[i].cookie == restVals[i]
      invariant vals + Keep(restVals, p) == full
      invariant MinExpiry(Keep(restVals, p), next) == MinExpiry(full, next0)
      invariant removed + |kept| + |rest| == |ns|
      decreases |rest|
    {
      CursorHead(newHead, pv, kept, rest);
      KeepStep(vals, restVals, p, next);
      var cur: Node := co;
      var nx := cur.next;
      if cur.cookie.expires != 0 && cur.cookie.expires < now {
        newHead := Unlink(newHead, pv, cur, kept, rest);
        removed := removed + 1;
      } else {
        if cur.cookie.expires != 0 && cur.cookie.expires < next {
          next := cur.cookie.expires;
        }
        kept, vals := kept + [cur], vals + [cur.cookie];
        pv := cur;
      }
      rest, restVals := rest[1..], restVals[1..];
      co := nx;
    }
    CursorEnd(newHead, pv, kept);
    assert Values(kept) == full;
  }

  /** Unlinks `curr` the way `Curl_cookie_clearsess` does: `prev` stands on `curr` until a cookie is kept. */
  method UnlinkSession(first: Node?, prev: Node, curr: Node,
                       ghost pv: Node?, ghost done: seq<Node>, ghost rest: seq<Node>)
    returns (first': Node?, prev': Node?)
    requires rest != [] && curr == rest[0] && Cursor(first, pv, done, rest)
    requires prev == if pv == null then curr else pv
    modifies (if pv == null then {} else {pv})`next
    ensures Cursor(first', pv, done, rest[1..])
    ensures prev' == if pv == null then old(curr.next) else pv
  {
    ghost var all, left := done + rest, done + rest[1..];
    assert forall i :: 0 <= i < |left| ==> left[i] == all[if i < |done| then i else i + 1];
    assert all[|done|] == curr && curr.next == At(all, |done| + 1) == At(left, |done|);
    assert done != [] ==> pv == all[|done| - 1];
    first', prev' := first, prev;
    if first == curr {
      first' := curr.next;
    }
    if prev == curr {
      prev' := curr.next;
    } else {
      prev.next := curr.next;
    }
    assert forall i :: 0 <= i < |left| ==> left[i].next == At(left, i + 1);
  }

  /** One chain of `Curl_cookie_clearsess`. */
  method ClearSessionChain(head: Node?, ghost ns: seq<Node>)
    returns (first: Node?, removed: nat, ghost kept: seq<Node>)
    requires Distinct(ns) && Linked(head, ns)
    modifies ns`next
    ensures Distinct(kept) && Linked(first, kept) && (forall n :: n in kept ==> n in ns)
    ensures Values(kept) == Keep(old(Values(ns)), Persistent())
    ensures removed == |ns| - |kept|
  {
    hide Cursor, Linked, Distinct, Values, Keep, MinExpiry;
    CursorStart(head, ns);
    KeepNothing(Persistent());
    ghost var p, full := Persistent(), Keep(Values(ns), Persistent());
    var curr, prev: Node? := head, head;
    first, removed := head, 0;
    ghost var pv: Node? := null;
    ghost var rest: seq<Node>, vals: seq<Cookie>, restVals := ns, [], Values(ns);
    kept := [];
    while curr != null
      invariant Cursor(first, pv, kept, rest) && curr == At(rest, 0)
      invariant prev == if pv == null then curr else pv
      invariant |kept| == |vals| && forall i :: 0 <= i < |kept| ==> kept[i] in ns && kept[i].cookie == vals[i]
      invariant |rest| == |restVals| && forall i :: 0 <= i < |rest| ==> rest[i] in ns && rest[i].cookie == restVals[i]
      invariant vals + Keep(restVals, p) == full
      invariant removed + |kept| + |rest| == |ns|
      decreases |rest|
    {
      CursorHead(first, pv, kept, rest);
      KeepStep(vals, restVals, p, 0);
      var cur: Node := curr;
      var next := cur.next;
      if cur.cookie.expires == 0 {
        first, prev := UnlinkSession(first, prev, cur, pv, kept, rest);
        removed := removed + 1;
      } else {
        kept, vals := kept + [cur], vals + [cur.cookie];
        prev, pv := cur, cur;
      }
      rest, restVals := rest[1..], restVals[1..];
      curr := next;
    }
    CursorEnd(first, pv, kept);
    assert Values(kept) == full;
  }

  lemma {:induction false} MinExpiryAllAppend(chains: seq<seq<Cookie>>, c: seq<Cookie>, m: int)
    ensures MinExpiryAll(chains + [c], m) == MinExpiry(c, MinExpiryAll(chains, m))
    decreases |chains|
  {
    if chains == [] {
      assert chains + [c] == [c];
    } else {
      assert (chains + [c])[1..] == chains[1..] + [c];
      MinExpiryAllAppend(chains[1..], c, MinExpiry(chains[0], m));
    }
  }

  /** The buckets below `i` have been filtered, the others not yet. */
  ghost predicate Partly(now: seq<seq<Cookie>>, was: seq<seq<Cookie>>, p: Cookie -> bool, i: nat)
  {
    |now| == |was| && forall b :: 0 <= b < |was| ==> now[b] == if b < i then Keep(was[b], p) else was[b]
  }

  lemma PartlyStart(was: seq<seq<Cookie>>, p: Cookie -> bool, m: int)
    ensures Partly(was, was, p, 0) && MinExpiryAll(was[..0], m) == m
  {
  }

  lemma PartlyStep(now: seq<seq<Cookie>>, was: seq<seq<Cookie>>, p: Cookie -> bool, i: nat, m: int)
    requires i < |was| && Partly(now, was, p, i)
    ensures var next := now[i := Keep(now[i], p)];
            && Partly(next, was, p, i + 1)
            && Total(next) == Total(now) - |now[i]| + |next[i]|
            && MinExpiryAll(next[..i + 1], m) == MinExpiry(next[i], MinExpiryAll(now[..i], m))
  {
    var next := now[i := Keep(now[i], p)];
    TotalUpdate(now, i, next[i]);
    assert next[..i + 1] == now[..i] + [next[i]];
    MinExpiryAllAppend(now[..i], next[i], m);
  }

  lemma PartlyEnd(now: seq<seq<Cookie>>, was: seq<seq<Cookie>>, p: Cookie -> bool)
    requires Partly(now, was, p, |was|)
    ensures now == KeepAll(was, p) && now[..|was|] == now
  {
  }

  /** The chain of bucket `b`: its nodes belong to it and to the jar, and following the links visits them. */
  ghost predicate BucketOk(head: Node?, ns: seq<Node>, b: nat, repr: set<Node>)
    reads ns
  {
    (forall n :: n in ns ==> n in repr && n.bucket == b) && Distinct(ns) && Linked(head, ns)
  }

  /** What storing a cookie does, by the verdict on it. */
  lemma StoreByVerdict(j: Jar, co: Cookie, secure: bool, isIp: string -> bool)
    requires |j.chains| == BUCKETS
    ensures var b := CookieHash(co.domain, isIp);
            var chain := j.chains[b];
            var next := if co.expires != 0 && co.expires < j.nextExpiration then co.expires else j.nextExpiration;
            Store(j, co, secure, isIp) ==
            match Judge(chain, co, secure)
            case Refused => j
            case Replaced(k) =>
              j.(chains := j.chains[b := chain[k := co.(ct := chain[k].ct)]], nextExpiration := next)
            case Appended =>
              j.(chains := j.chains[b := chain + [co]], numcookies := j.numcookies + 1, nextExpiration := next)
  {
    hide SameIdentity, Overlays;
  }

  lemma BucketParts(head: Node?, ns: seq<Node>, b: nat, repr: set<Node>)
    requires BucketOk(head, ns, b, repr)
    ensures (forall n :: n in ns ==> n in repr && n.bucket == b) && Distinct(ns) && Linked(head, ns)
  {
  }

  lemma PartsBucket(head: Node?, ns: seq<Node>, b: nat, repr: set<Node>)
    requires (forall n :: n in ns ==> n in repr && n.bucket == b) && Distinct(ns) && Linked(head, ns)
    ensures BucketOk(head, ns, b, repr)
  {
  }

  ghost function AllValues(nodes: seq<seq<Node>>, repr: set<Node>): (r: seq<seq<Cookie>>)
    requires forall b, n :: 0 <= b < |nodes| && n in nodes[b] ==> n in repr
    reads repr
    ensures |r| == |nodes| && forall b :: 0 <= b < |nodes| ==> r[b] == Values(nodes[b])
  {
    seq(|nodes|, b requires 0 <= b < |nodes| requires forall n :: n in nodes[b] ==> n in repr reads repr =>
      Values(nodes[b]))
  }

  lemma {:induction false} FirstSameIs(chain: seq<Cookie>, co: Cookie, k: nat)
    requires k <= |chain| && (forall i :: 0 <= i < k ==> !SameIdentity(chain[i], co))
    requires k < |chain| ==> SameIdentity(chain[k], co)
    ensures FirstSame(chain, co) == k
  {
  }

  /** The test of an existing cookie against a new non-secure one, as the code writes it. */
  method RefusesOverlay(prior: Cookie, co: Cookie, secure: bool) returns (refuse: bool)
    ensures refuse == Overlays(prior, co, secure)
  {
    hide CaseEq, NCaseEq;
    refuse := false;
    if CaseEq(prior.name, co.name) {
      var matchingDomains := false;
      if prior.domain.Some? && co.domain.Some? {
        if CaseEq(prior.domain.value, co.domain.value) {
          matchingDomains := true;
        }
      } else if prior.domain.None? && co.domain.None? {
        matchingDomains := true;
      }
      if matchingDomains && prior.spath.Some? && co.spath.Some? && prior.secure && !co.secure && !secure {
        refuse := NCaseEq(prior.spath.value, co.spath.value, SecureScope(prior.spath.value));
      }
    }
  }

  /** The test for the cookie to replace; `replaceOld` is the flag the code carries through its loop. */
  method Replaces(prior: Cookie, co: Cookie, replaceOld0: bool) returns (replaceOld: bool)
    requires CaseEq(prior.name, co.name) && !replaceOld0
    ensures replaceOld == SameIdentity(prior, co)
  {
    hide CaseEq;
    replaceOld := replaceOld0;
    if prior.domain.Some? && co.domain.Some? {
      if CaseEq(prior.domain.value, co.domain.value) && prior.tailmatch == co.tailmatch {
        replaceOld := true;
      }
    } else if prior.domain.None? && co.domain.None? {
      replaceOld := true;
    }
    if replaceOld {
      if prior.spath.Some? && co.spath.Some? {
        replaceOld := CaseEq(prior.spath.value, co.spath.value);
      } else {
        replaceOld := prior.spath.None? && co.spath.None?;
      }
    }
  }

  lemma JudgeIs(chain: seq<Cookie>, co: Cookie, secure: bool, k: nat, refused: bool)
    requires k <= |chain| && (forall i :: 0 <= i < k ==> !SameIdentity(chain[i], co))
    requires k < |chain| ==> SameIdentity(chain[k], co)
    requires refused <==> (exists i :: 0 <= i < |chain| && Overlays(chain[i], co, secure))
                          || (k < |chain| && chain[k].live && !co.live)
    ensures Judge(chain, co, secure) == if refused then Refused else if k < |chain| then Replaced(k) else Appended
  {
    hide SameIdentity, Overlays;
    FirstSameIs(chain, co, k);
  }

  /** The walk of `Curl_cookie_add` along the chain of the new cookie. */
  method ScanChain(head: Node?, co: Cookie, secure: bool, ghost ns: seq<Node>)
    returns (refused: bool, replace: Node?, last: Node?, ghost v: Verdict)
    requires Distinct(ns) && Linked(head, ns)
    ensures v == Judge(Values(ns), co, secure) && refused == v.Refused?
    ensures !refused ==> replace == if v.Replaced? then ns[v.at] else null
    ensures v.Appended? ==> last == if ns == [] then null else ns[|ns| - 1]
  {
    hide Distinct, SameIdentity, Overlays, CaseEq, Judge, FirstSame;
    ghost var vals := Values(ns);
    var clist := head;
    replace, last, refused := null, null, false;
    var replaceOld := false;
    ghost var i, k := 0, |ns|;
    while clist != null
      invariant 0 <= i <= |ns| && clist == At(ns, i) && last == (if i == 0 then null else ns[i - 1])
      invariant replaceOld == (replace != null) && 0 <= k
      invariant if replace == null then k == |ns| else k < i && replace == ns[k] && SameIdentity(vals[k], co)
                                                       && !(vals[k].live && !co.live)
      invariant forall m :: 0 <= m < i && m < k ==> !SameIdentity(vals[m], co)
      invariant forall m :: 0 <= m < i ==> !Overlays(vals[m], co, secure)
      decreases |ns| - i
    {
      refused := RefusesOverlay(clist.cookie, co, secure);
      if refused {
        v := Refused;
        OverlayRefuses(vals, co, secure, i);
        return;
      }
      if replace == null && CaseEq(clist.cookie.name, co.name) {
        replaceOld := Replaces(clist.cookie, co, replaceOld);
        if replaceOld && !co.live && clist.cookie.live {
          refused, v := true, Refused;
          LiveRefuses(vals, co, secure, i);
          return;
        }
        if replaceOld {
          replace, k := clist, i;
        }
      } else if replace == null {
        OtherNameOtherIdentity(clist.cookie, co);
      }
      last := clist;
      clist := clist.next;
      i := i + 1;
    }
    JudgeIs(vals, co, secure, k, false);
    v := if k < |ns| then Replaced(k) else Appended;
  }

  lemma OverlayRefuses(chain: seq<Cookie>, co: Cookie, secure: bool, i: nat)
    requires i < |chain| && Overlays(chain[i], co, secure)
    ensures Judge(chain, co, secure) == Refused
  {
  }

  lemma LiveRefuses(chain: seq<Cookie>, co: Cookie, secure: bool, k: nat)
    requires k < |chain| && (forall i :: 0 <= i < k ==> !SameIdentity(chain[i], co))
    requires SameIdentity(chain[k], co) && chain[k].live && !co.live
    ensures Judge(chain, co, secure) == Refused
  {
    hide SameIdentity, Overlays;
    FirstSameIs(chain, co, k);
  }

  lemma OtherNameOtherIdentity(a: Cookie, b: Cookie)
    requires !CaseEq(a.name, b.name)
    ensures !SameIdentity(a, b)
  {
  }

  /** `s` read backwards. */
  ghost predicate Reversed(r: seq<Cookie>, s: seq<Cookie>)
  {
    |r| == |s| && multiset(r) == multiset(s) && forall i :: 0 <= i < |s| ==> r[i] == s[|s| - 1 - i]
  }

  lemma ReversedStep(r: seq<Cookie>, s: seq<Cookie>, c: Cookie)
    requires Reversed(r, s)
    ensures Reversed([c] + r, s + [c])
  {
  }

  lemma ReversedDistinct(r: seq<Cookie>, s: seq<Cookie>)
    requires Reversed(r, s) && DistinctTimes(s)
    ensures DistinctTimes(r)
  {
  }

  /** The walk of `Curl_cookie_getlist`: copies of the wanted cookies, each put in front of the earlier ones. */
  method Collect(head: Node?, q: Query, ghost ns: seq<Node>) returns (mainco: seq<Cookie>)
    requires Distinct(ns) && Linked(head, ns)
    ensures Reversed(mainco, AtMost(Keep(Values(ns), Wanted(q)), MAX_SEND))
  {
    hide Distinct, Linked, Values, Keep, IsWanted, Reversed, AtMost, CollectedSoFar;
    CollectNothing(Values(ns), Wanted(q));
    NothingReversed();
    CursorStart(head, ns);
    ghost var vals, found := Values(ns), [];
    var co, matches := head, 0;
    mainco := [];
    ghost var i := 0;
    while co != null
      invariant 0 <= i <= |ns| && co == At(ns, i)
      invariant CollectedSoFar(found, vals, i, Wanted(q))
      invariant Reversed(mainco, found) && matches == |found| < MAX_SEND
      decreases |ns| - i
    {
      CollectStep(found, vals, i, Wanted(q));
      NextInChain(head, ns, i);
      assert vals[i] == co.cookie;
      if IsWanted(co.cookie, q) {
        ReversedStep(mainco, found, co.cookie);
        mainco, found := [co.cookie] + mainco, found + [co.cookie];
        matches := matches + 1;
        if matches >= MAX_SEND {
          CollectedEnough(found, vals, i + 1, Wanted(q));
          return;
        }
      }
      co := co.next;
      i := i + 1;
    }
    CollectedEnough(found, vals, i, Wanted(q));
  }

  lemma NextInChain(head: Node?, ns: seq<Node>, i: nat)
    requires Linked(head, ns) && i < |ns|
    ensures ns[i].next == At(ns, i + 1)
  {
  }

  /** What has been found before place `i`, and what is found from there on, is everything wanted. */
  ghost predicate CollectedSoFar(found: seq<Cookie>, vals: seq<Cookie>, i: int, p: Cookie -> bool)
  {
    0 <= i <= |vals| && found + Keep(vals[i..], p) == Keep(vals, p)
  }

  lemma CollectStep(found: seq<Cookie>, vals: seq<Cookie>, i: nat, p: Cookie -> bool)
    requires CollectedSoFar(found, vals, i, p) && i < |vals|
    ensures CollectedSoFar(if p(vals[i]) then found + [vals[i]] else found, vals, i + 1, p)
  {
    assert vals[i..][1..] == vals[i + 1..];
    KeepStep(found, vals[i..], p, 0);
  }

  lemma CollectedEnough(found: seq<Cookie>, vals: seq<Cookie>, i: nat, p: Cookie -> bool)
    requires CollectedSoFar(found, vals, i, p) && |found| <= MAX_SEND && (i < |vals| ==> |found| == MAX_SEND)
    ensures AtMost(Keep(vals, p), MAX_SEND) == found
  {
    if i == |vals| {
      assert vals[i..] == [] && Keep(vals[i..], p) == [];
    }
  }

  lemma CollectNothing(vals: seq<Cookie>, p: Cookie -> bool)
    ensures CollectedSoFar([], vals, 0, p)
  {
    assert vals[0..] == vals;
  }

  lemma NothingReversed()
    ensures Reversed([], [])
  {
  }

  lemma EmptyBucket(b: nat, repr: set<Node>)
    ensures BucketOk(null, [], b, repr) && Values([]) == []
  {
  }

  /** Sorting the backwards list is sorting what was found. */
  lemma ListIsSorted(j: Jar, b: nat, q: Query, list: seq<Cookie>)
    requires Inv(j, q.isIp) && b < BUCKETS
    requires Reversed(list, AtMost(Keep(j.chains[b], Wanted(q)), MAX_SEND))
    ensures Sorted(list) == Sorted(AtMost(Keep(j.chains[b], Wanted(q)), MAX_SEND))
  {
    assert AllApart(j.chains[b]);
    hide Inv, AllApart, Keep, DistinctTimes;
    WantedHaveDistinctTimes(j.chains[b], Wanted(q), MAX_SEND);
    ReversedDistinct(list, AtMost(Keep(j.chains[b], Wanted(q)), MAX_SEND));
    SortedIgnoresArrival(list, AtMost(Keep(j.chains[b], Wanted(q)), MAX_SEND));
  }

  /** `struct CookieInfo`. */
  class CookieInfo {
    const isIp: string -> bool
    const cookies: array<Node?>
    var numcookies: int
    var running: bool
    var newsession: bool
    var lastct: int
    var nextExpiration: int
    ghost var nodes: seq<seq<Node>>
    ghost var repr: set<Node>

    /** An empty jar. */
    constructor (isIp: string -> bool)
      ensures Valid() && this.isIp == isIp && View() == EmptyJar()
    {
      hide Linked, Distinct, AllValues;
      this.isIp := isIp;
      cookies := new Node?[BUCKETS](_ => null);
      numcookies, lastct, nextExpiration := 0, 0, OFF_MAX;
      running, newsession := true, false;
      nodes, repr := seq(BUCKETS, _ => []), {};
      new;
      forall b | 0 <= b < BUCKETS ensures BucketOk(cookies[b], nodes[b], b, repr) && Values(nodes[b]) == [] {
        EmptyBucket(b, repr);
      }
    }

    ghost predicate Valid()
      reads `nodes, `repr, cookies, repr
    {
      && cookies.Length == BUCKETS && |nodes| == BUCKETS
      && (forall b, n :: 0 <= b < BUCKETS && n in nodes[b] ==> n in repr)
      && (forall b :: 0 <= b < BUCKETS ==> BucketOk(cookies[b], nodes[b], b, repr))
    }

    ghost function Chains(): (r: seq<seq<Cookie>>)
      requires Valid()
      reads `nodes, `repr, cookies, repr
      ensures |r| == BUCKETS
    {
      AllValues(nodes, repr)
    }

    ghost function View(): Jar
      requires Valid()
      reads this, cookies, repr
    {
      Jar(Chains(), numcookies, running, newsession, lastct, nextExpiration)
    }

    lemma BucketsApart(b: nat)
      requires Valid() && b < BUCKETS
      ensures forall d, n :: 0 <= d < BUCKETS && d != b && n in nodes[d] ==> n !in nodes[b]
    {
      hide Linked, Distinct;
      assert BucketOk(cookies[b], nodes[b], b, repr);
      forall d, n | 0 <= d < BUCKETS && d != b && n in nodes[d] ensures n !in nodes[b] {
        assert BucketOk(cookies[d], nodes[d], d, repr);
      }
    }

    /** The other buckets, after the links of one have changed: nothing has happened to them. */
    ghost predicate OthersOk(b: nat)
      reads `nodes, `repr, cookies, repr
    {
      && cookies.Length == BUCKETS && |nodes| == BUCKETS
      && (forall d, n :: 0 <= d < BUCKETS && n in nodes[d] ==> n in repr)
      && (forall d :: 0 <= d < BUCKETS && d != b ==> BucketOk(cookies[d], nodes[d], d, repr))
    }

    lemma OthersAndOne(b: nat, values: seq<seq<Cookie>>)
      requires b < BUCKETS && OthersOk(b) && BucketOk(cookies[b], nodes[b], b, repr)
      requires |values| == BUCKETS && forall d :: 0 <= d < BUCKETS ==> Values(nodes[d]) == values[d]
      ensures Valid() && Chains() == values
    {
      hide Linked, Distinct, Values, AllValues;
    }

    /** The head of a bucket after its links have changed. */
    method SetBucket(b: nat, head: Node?, ghost kept: seq<Node>, ghost values: seq<seq<Cookie>>)
      requires b < BUCKETS && OthersOk(b) && BucketOk(head, kept, b, repr)
      requires |values| == BUCKETS && values[b] == Values(kept)
      requires forall d :: 0 <= d < BUCKETS && d != b ==> Values(nodes[d]) == values[d]
      modifies this`nodes, cookies
      ensures Valid() && Chains() == values && nodes[b] == kept
    {
      hide Linked, Distinct, Values, AllValues;
      cookies[b] := head;
      nodes := nodes[b := kept];
      OthersAndOne(b, values);
    }

    method SweepLinks(b: nat, now: Time) returns (head: Node?, removed: nat, next: int, ghost kept: seq<Node>)
      requires Valid() && b < BUCKETS
      modifies repr`next
      ensures OthersOk(b) && BucketOk(head, kept, b, repr)
      ensures forall d :: 0 <= d < BUCKETS && d != b ==> Values(nodes[d]) == old(Chains()[d])
      ensures Values(kept) == Keep(old(Chains()[b]), Unexpired(now))
      ensures removed == |old(Chains()[b])| - |kept| && next == MinExpiry(Values(kept), nextExpiration)
    {
      hide Linked, Distinct, Values, AllValues, Keep, MinExpiry;
      ghost var ns := nodes[b];
      BucketParts(cookies[b], ns, b, repr);
      BucketsApart(b);
      head, removed, next, kept := SweepChain(cookies[b], now, nextExpiration, ns);
      PartsBucket(head, kept, b, repr);
      forall d | 0 <= d < BUCKETS && d != b
        ensures BucketOk(cookies[d], nodes[d], d, repr) && Values(nodes[d]) == old(Values(nodes[d]))
      {
        assert old(BucketOk(cookies[d], nodes[d], d, repr));
        assert forall n :: n in nodes[d] ==> n !in ns;
      }
    }

    method SweepBucket(b: nat, now: Time)
      requires Valid() && b < BUCKETS
      modifies this`numcookies, this`nextExpiration, this`nodes, cookies, repr`next
      ensures Valid()
      ensures Chains() == old(Chains())[b := Keep(old(Chains())[b], Unexpired(now))]
      ensures numcookies == old(numcookies) - (|old(Chains())[b]| - |Chains()[b]|)
      ensures nextExpiration == MinExpiry(Chains()[b], old(nextExpiration))
    {
      hide Linked, Distinct, Values, AllValues, Keep, MinExpiry;
      ghost var values := Chains()[b := Keep(Chains()[b], Unexpired(now))];
      var head, removed, next, kept := SweepLinks(b, now);
      SetBucket(b, head, kept, values);
      numcookies := numcookies - removed;
      nextExpiration := next;
      SameLength(kept);
    }

    lemma ValuesEnd(ns: seq<Node>, n: Node)
      ensures Values(ns + [n]) == Values(ns) + [n.cookie]
    {
    }

    lemma SameLength(ns: seq<Node>)
      ensures |Values(ns)| == |ns|
    {
    }

    method RemoveExpired(now: Time)
      requires Valid()
      modifies this`numcookies, this`nextExpiration, this`nodes, cookies, repr`next
      ensures Valid() && View() == CookieJar.RemoveExpired(old(View()), now)
    {
      hide Valid, Chains, Partly, KeepAll, Keep, Total, MinExpiry, MinExpiryAll;
      ghost var was, p := Chains(), Unexpired(now);
      if now < nextExpiration && nextExpiration != OFF_MAX {
        return;
      }
      nextExpiration := OFF_MAX;
      PartlyStart(was, p, OFF_MAX);
      for i := 0 to BUCKETS
        invariant Valid() && Partly(Chains(), was, p, i)
        invariant numcookies == old(numcookies) - (Total(was) - Total(Chains()))
        invariant nextExpiration == MinExpiryAll(Chains()[..i], OFF_MAX)
      {
        PartlyStep(Chains(), was, p, i, OFF_MAX);
        SweepBucket(i, now);
      }
      PartlyEnd(Chains(), was, p);
    }

    method ClearSessionLinks(b: nat) returns (head: Node?, removed: nat, ghost kept: seq<Node>)
      requires Valid() && b < BUCKETS
      modifies repr`next
      ensures OthersOk(b) && BucketOk(head, kept, b, repr)
      ensures forall d :: 0 <= d < BUCKETS && d != b ==> Values(nodes[d]) == old(Chains()[d])
      ensures Values(kept) == Keep(old(Chains()[b]), Persistent()) && removed == |old(Chains()[b])| - |kept|
    {
      hide Linked, Distinct, Values, AllValues, Keep;
      ghost var ns := nodes[b];
      BucketParts(cookies[b], ns, b, repr);
      BucketsApart(b);
      head, removed, kept := ClearSessionChain(cookies[b], ns);
      PartsBucket(head, kept, b, repr);
      forall d | 0 <= d < BUCKETS && d != b
        ensures BucketOk(cookies[d], nodes[d], d, repr) && Values(nodes[d]) == old(Values(nodes[d]))
      {
        assert old(BucketOk(cookies[d], nodes[d], d, repr));
        assert forall n :: n in nodes[d] ==> n !in ns;
      }
    }

    method ClearSessionBucket(b: nat)
      requires Valid() && b < BUCKETS
      modifies this`numcookies, this`nodes, cookies, repr`next
      ensures Valid()
      ensures Chains() == old(Chains())[b := Keep(old(Chains())[b], Persistent())]
      ensures numcookies == old(numcookies) - (|old(Chains())[b]| - |Chains()[b]|)
    {
      hide Linked, Distinct, Values, AllValues, Keep;
      ghost var values := Chains()[b := Keep(Chains()[b], Persistent())];
      var head, removed, kept := ClearSessionLinks(b);
      SetBucket(b, head, kept, values);
      numcookies := numcookies - removed;
      SameLength(kept);
    }

    method ClearSession()
      requires Valid()
      modifies this`numcookies, this`nodes, cookies, repr`next
      ensures Valid() && View() == CookieJar.ClearSession(old(View()))
    {
      hide Valid, Chains, Partly, KeepAll, Keep, Total, MinExpiryAll;
      ghost var was, p := Chains(), Persistent();
      PartlyStart(was, p, 0);
      for i := 0 to BUCKETS
        invariant Valid() && Partly(Chains(), was, p, i)
        invariant numcookies == old(numcookies) - (Total(was) - Total(Chains()))
      {
        PartlyStep(Chains(), was, p, i, 0);
        ClearSessionBucket(i);
      }
      PartlyEnd(Chains(), was, p);
    }

    method ClearAll()
      requires Valid()
      modifies this`numcookies, this`nodes, cookies
      ensures Valid() && View() == CookieJar.ClearAll(old(View()))
    {
      hide Linked, Distinct, Values, AllValues;
      for i := 0 to BUCKETS
        invariant Valid()
        invariant forall b :: 0 <= b < i ==> nodes[b] == []
      {
        EmptyBucket(i, repr);
        assert forall d :: 0 <= d < BUCKETS ==> BucketOk(cookies[d], nodes[d], d, repr);
        cookies[i] := null;
        nodes := nodes[i := []];
      }
      numcookies := 0;
    }

    /** Overwrites the cookie of a node in place. */
    method Overwrite(b: nat, ghost k: nat, node: Node, co: Cookie)
      requires Valid() && b < BUCKETS && k < |nodes[b]| && node == nodes[b][k]
      modifies node`cookie
      ensures Valid() && Chains() == old(Chains())[b := old(Chains())[b][k := co]]
    {
      hide Values, AllValues;
      ghost var ns := nodes[b];
      assert BucketOk(cookies[b], ns, b, repr);
      assert node.bucket == b;
      node.cookie := co;
      assert Values(ns) == old(Values(ns))[k := co];
      forall d | 0 <= d < BUCKETS ensures BucketOk(cookies[d], nodes[d], d, repr) {
        assert old(BucketOk(cookies[d], nodes[d], d, repr));
      }
      forall d | 0 <= d < BUCKETS && d != b ensures Values(nodes[d]) == old(Values(nodes[d])) {
        assert BucketOk(cookies[d], nodes[d], d, repr);
        assert forall n :: n in nodes[d] ==> n.bucket == d && n.cookie == old(n.cookie);
      }
    }

    /** Links a node after the last one of a chain. */
    method LinkLast(b: nat, last: Node?, node: Node)
      requires Valid() && b < BUCKETS && last == if nodes[b] == [] then null else nodes[b][|nodes[b]| - 1]
      requires node !in repr && node.bucket == b && node.next == null
      modifies cookies, repr`next
      ensures cookies.Length == BUCKETS && BucketOk(cookies[b], nodes[b] + [node], b, repr + {node})
      ensures forall d :: 0 <= d < BUCKETS && d != b ==> BucketOk(cookies[d], nodes[d], d, repr + {node})
    {
      ghost var ns := nodes[b];
      assert BucketOk(cookies[b], ns, b, repr);
      BucketsApart(b);
      if last != null {
        last.next := node;
      } else {
        cookies[b] := node;
      }
      forall d | 0 <= d < BUCKETS && d != b ensures BucketOk(cookies[d], nodes[d], d, repr + {node}) {
        assert old(BucketOk(cookies[d], nodes[d], d, repr));
      }
    }

    /** A new node at the end of its chain. */
    method Append(b: nat, last: Node?, co: Cookie)
      requires Valid() && b < BUCKETS && last == if nodes[b] == [] then null else nodes[b][|nodes[b]| - 1]
      modifies this`nodes, this`repr, cookies, repr`next
      ensures Valid() && Chains() == old(Chains())[b := old(Chains())[b] + [co]]
      ensures fresh(repr - old(repr))
    {
      hide Values, AllValues, Linked, Distinct;
      ghost var values := Chains()[b := Chains()[b] + [co]];
      var node := new Node(co, b);
      LinkLast(b, last, node);
      ValuesEnd(nodes[b], node);
      repr := repr + {node};
      nodes := nodes[b := nodes[b] + [node]];
      assert OthersOk(b);
      OthersAndOne(b, values);
    }

    lemma BucketFacts(b: nat)
      requires Valid() && b < BUCKETS
      ensures |nodes| == BUCKETS && cookies.Length == BUCKETS
      ensures Distinct(nodes[b]) && Linked(cookies[b], nodes[b]) && Chains()[b] == Values(nodes[b])
      ensures forall n :: n in nodes[b] ==> n in repr
      ensures cookies[b] == null <==> Chains()[b] == []
    {
      assert BucketOk(cookies[b], nodes[b], b, repr);
    }

    /** Refuses the cookie, overwrites the one it replaces, or links it in at the end of its chain. */
    method StoreCookie(co0: Cookie, secure: bool)
      requires Valid()
      modifies this`numcookies, this`nextExpiration, this`nodes, this`repr, cookies, repr
      ensures Valid() && View() == Store(old(View()), co0, secure, isIp)
    {
      hide Valid, Chains, Values, Judge, Linked, Distinct, SameIdentity, Overlays, Store;
      var co := co0;
      var b := CookieHash(co.domain, isIp);
      BucketFacts(b);
      var refused, replace, last, v := ScanChain(cookies[b], co, secure, nodes[b]);
      StoreByVerdict(View(), co, secure, isIp);
      if refused {
        return;
      }
      if replace != null {
        co := co.(ct := replace.cookie.ct);
        Overwrite(b, v.at, replace, co);
      } else {
        Append(b, last, co);
        numcookies := numcookies + 1;
      }
      if co.expires != 0 && co.expires < nextExpiration {
        nextExpiration := co.expires;
      }
    }

    /** `Curl_cookie_add` from the parsed line on. */
    method Add(p: Option<Parsed>, secure: bool, noexpire: bool, now: Time)
      requires Valid()
      modifies this`numcookies, this`nextExpiration, this`lastct, this`nodes, this`repr, cookies, repr
      ensures Valid() && View() == AddParsed(old(View()), p, secure, noexpire, now, isIp)
    {
      hide Valid, Chains, Store, CookieJar.RemoveExpired, PrefixRules;
      if p.None? || !PrefixRules(p.value) || (!running && newsession && p.value.cookie.expires == 0) {
        return;
      }
      lastct := lastct + 1;
      if !noexpire {
        RemoveExpired(now);
      }
      StoreCookie(p.value.cookie.(live := running, ct := lastct), secure);
    }

    method AddHeader(attrs: seq<Attr>, r: Request, noexpire: bool)
      requires Valid() && r.isIp == isIp
      modifies this`numcookies, this`nextExpiration, this`lastct, this`nodes, this`repr, cookies, repr
      ensures Valid() && View() == Apply(old(View()), Event.AddHeader(attrs, r, noexpire), isIp)
    {
      hide Valid, Chains, ParseHeader, AddParsed;
      Add(ParseHeader(attrs, r, running), r.secure, noexpire, r.now);
    }

    method AddFileLine(line: string, secure: bool, noexpire: bool, now: Time)
      requires Valid()
      modifies this`numcookies, this`nextExpiration, this`lastct, this`nodes, this`repr, cookies, repr
      ensures Valid() && View() == Apply(old(View()), Event.AddFileLine(line, secure, noexpire, now), isIp)
    {
      hide Valid, Chains, ParseNetscape, AddParsed;
      Add(ParseNetscape(line, secure, running), secure, noexpire, now);
    }

    /** `Curl_cookie_getlist`. */
    method GetList(q: Query, now: Time) returns (list: seq<Cookie>)
      requires Valid() && q.isIp == isIp && Inv(View(), isIp)
      modifies this`numcookies, this`nextExpiration, this`nodes, cookies, repr`next
      ensures Valid() && list == Lookup(old(View()), q, now)
      ensures View() == if old(View()).chains[CookieHash(Some(q.host), isIp)] == [] then old(View())
                        else CookieJar.RemoveExpired(old(View()), now)
    {
      hide Valid, Chains, Linked, Distinct, Keep, Sorted, Inv, CookieJar.RemoveExpired, DistinctTimes, Reversed;
      var b := CookieHash(Some(q.host), q.isIp);
      BucketFacts(b);
      if cookies[b] == null {
        return [];
      }
      RemoveExpiredKeepsInv(View(), now, isIp);
      RemoveExpired(now);
      BucketFacts(b);
      list := Collect(cookies[b], q, nodes[b]);
      ListIsSorted(View(), b, q, list);
      list := Sorted(list);
    }
  }
}
