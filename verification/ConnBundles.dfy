/** The connection cache of curl/lib/conncache.c as a list of bundles of connections. */
module ConnBundles {
  import opened CString

  /** What names a bundle: scope, port and host, in lower case. */
  type Key = string

  /** A connection, known by its address. */
  type Conn = nat

  datatype Bundle = Bundle(key: Key, conns: seq<Conn>)

  /** The bundles in the order the hash is walked, `num_conn` and `next_connection_id`. */
  datatype Cache = Cache(bundles: seq<Bundle>, numConn: int, nextId: nat)

  const Empty: Cache := Cache([], 0, 0)

  /** Every connection, bundle after bundle. */
  function All(bundles: seq<Bundle>): seq<Conn>
  {
    if bundles == [] then [] else bundles[0].conns + All(bundles[1..])
  }

  function IndexOfKey(bundles: seq<Bundle>, key: Key): (n: nat)
    ensures n <= |bundles|
    ensures n < |bundles| ==> bundles[n].key == key
    ensures forall i :: 0 <= i < n ==> bundles[i].key != key
  {
    if bundles == [] || bundles[0].key == key then 0 else 1 + IndexOfKey(bundles[1..], key)
  }

  function Position(conns: seq<Conn>, x: Conn): (n: nat)
    ensures n <= |conns| && (n < |conns| <==> x in conns)
    ensures n < |conns| ==> conns[n] == x
    ensures forall i :: 0 <= i < n ==> conns[i] != x
  {
    if conns == [] || conns[0] == x then 0 else 1 + Position(conns[1..], x)
  }

  /** The bundle a connection's back pointer names: the first one that holds it. */
  function Holder(bundles: seq<Bundle>, x: Conn): (n: nat)
    ensures n <= |bundles|
    ensures n < |bundles| ==> x in bundles[n].conns
    ensures forall i :: 0 <= i < n ==> x !in bundles[i].conns
  {
    if bundles == [] || x in bundles[0].conns then 0 else 1 + Holder(bundles[1..], x)
  }

  /** `bundle_remove_conn`: the first occurrence goes. */
  function Without(conns: seq<Conn>, x: Conn): seq<Conn>
  {
    var n := Position(conns, x);
    if n < |conns| then conns[..n] + conns[n + 1..] else conns
  }

  // ---------- the operations ----------

  /** `Curl_conncache_add_conn`: a new bundle comes to stand at `at` in the walk. */
  function AddConn(c: Cache, x: Conn, key: Key, at: nat): Cache
    requires at <= |c.bundles|
  {
    var i := IndexOfKey(c.bundles, key);
    var bundles :=
      if i < |c.bundles| then c.bundles[i := Bundle(key, c.bundles[i].conns + [x])]
      else c.bundles[..at] + [Bundle(key, [x])] + c.bundles[at..];
    Cache(bundles, c.numConn + 1, c.nextId + 1)
  }

  /** A connection leaves its bundle, which stays even when it is empty then. */
  function Extract(c: Cache, x: Conn): Cache
  {
    var i := Holder(c.bundles, x);
    if i == |c.bundles| then c
    else Cache(c.bundles[i := c.bundles[i].(conns := Without(c.bundles[i].conns, x))], c.numConn - 1, c.nextId)
  }

  /** `Curl_conncache_remove_conn`: an emptied bundle is removed. */
  function RemoveConn(c: Cache, x: Conn): Cache
  {
    var i := Holder(c.bundles, x);
    if i == |c.bundles| then c else
    var d := Extract(c, x);
    if d.bundles[i].conns == [] then d.(bundles := d.bundles[..i] + d.bundles[i + 1..]) else d
  }

  /** The scan of one bundle: the first connection whose score beats `high`, and every later one that beats it. */
  function Best(conns: seq<Conn>, score: map<Conn, int>, high: int, sofar: Option<Conn>): (Option<Conn>, int)
    requires forall x :: x in conns ==> x in score
  {
    if conns == [] then (sofar, high)
    else if score[conns[0]] > high then Best(conns[1..], score, score[conns[0]], Some(conns[0]))
    else Best(conns[1..], score, high, sofar)
  }

  /** `Curl_conncache_extract_oldest`; connections that may not be taken have a score below 0. */
  function ExtractOldest(c: Cache, score: map<Conn, int>): (Option<Conn>, Cache)
    requires forall x :: x in All(c.bundles) ==> x in score
  {
    var (best, _) := Best(All(c.bundles), score, -1, None);
    match best
    case None => (None, c)
    case Some(x) => (best, Extract(c, x))
  }

  /** `Curl_conncache_extract_bundle`. */
  function ExtractBundle(c: Cache, i: nat, score: map<Conn, int>): (Option<Conn>, Cache)
    requires i < |c.bundles| && forall x :: x in c.bundles[i].conns ==> x in score
  {
    var (best, _) := Best(c.bundles[i].conns, score, -1, None);
    match best
    case None => (None, c)
    case Some(x) => (best, Extract(c, x))
  }

  /** `conncache_find_first_connection`: empty bundles are passed over. */
  function FindFirst(bundles: seq<Bundle>): Option<Conn>
  {
    if bundles == [] then None
    else if bundles[0].conns != [] then Some(bundles[0].conns[0])
    else FindFirst(bundles[1..])
  }

  // ---------- the invariant ----------

  function Total(bundles: seq<Bundle>): nat
  {
    if bundles == [] then 0 else |bundles[0].conns| + Total(bundles[1..])
  }

  predicate KeysApart(bundles: seq<Bundle>)
  {
    forall i, j :: 0 <= i < j < |bundles| ==> bundles[i].key != bundles[j].key
  }

  predicate NoDuplicates(s: seq<Conn>)
  {
    forall i, j :: 0 <= i < j < |s| ==> s[i] != s[j]
  }

  /** The counter is the number of connections, each stands in exactly one bundle, and no two bundles have one key. */
  predicate Inv(c: Cache)
  {
    c.numConn == Total(c.bundles) && KeysApart(c.bundles) && NoDuplicates(All(c.bundles))
  }

  lemma {:induction false} TotalIsLength(bundles: seq<Bundle>)
    ensures Total(bundles) == |All(bundles)|
  {
    if bundles != [] {
      TotalIsLength(bundles[1..]);
    }
  }

  lemma {:induction false} AllSplit(a: seq<Bundle>, b: seq<Bundle>)
    ensures All(a + b) == All(a) + All(b)
  {
    if a == [] {
      assert a + b == b;
    } else {
      assert (a + b)[1..] == a[1..] + b;
      AllSplit(a[1..], b);
    }
  }

  lemma AllOne(b: Bundle)
    ensures All([b]) == b.conns
  {
  }

  lemma AllAround(bundles: seq<Bundle>, i: nat, b: Bundle)
    requires i < |bundles|
    ensures All(bundles) == All(bundles[..i]) + bundles[i].conns + All(bundles[i + 1..])
    ensures All(bundles[i := b]) == All(bundles[..i]) + b.conns + All(bundles[i + 1..])
  {
    hide All;
    assert bundles == bundles[..i] + [bundles[i]] + bundles[i + 1..];
    AllSplit(bundles[..i] + [bundles[i]], bundles[i + 1..]);
    AllSplit(bundles[..i], [bundles[i]]);
    AllOne(bundles[i]);
    assert bundles[i := b] == bundles[..i] + [b] + bundles[i + 1..];
    AllSplit(bundles[..i] + [b], bundles[i + 1..]);
    AllSplit(bundles[..i], [b]);
    AllOne(b);
  }

  lemma AllInserted(bundles: seq<Bundle>, at: nat, b: Bundle)
    requires at <= |bundles|
    ensures All(bundles) == All(bundles[..at]) + All(bundles[at..])
    ensures All(bundles[..at] + [b] + bundles[at..]) == All(bundles[..at]) + b.conns + All(bundles[at..])
  {
    hide All;
    assert bundles == bundles[..at] + bundles[at..];
    AllSplit(bundles[..at], bundles[at..]);
    AllSplit(bundles[..at] + [b], bundles[at..]);
    AllSplit(bundles[..at], [b]);
    AllOne(b);
  }

  lemma {:induction false} HolderMeans(bundles: seq<Bundle>, x: Conn)
    ensures Holder(bundles, x) < |bundles| <==> x in All(bundles)
  {
    if bundles != [] {
      HolderMeans(bundles[1..], x);
    }
  }

  lemma {:induction false} NotBefore(bundles: seq<Bundle>, x: Conn)
    requires forall i :: 0 <= i < |bundles| ==> x !in bundles[i].conns
    ensures x !in All(bundles)
  {
    if bundles != [] {
      assert forall i :: 0 <= i < |bundles| - 1 ==> bundles[1..][i] == bundles[i + 1];
      NotBefore(bundles[1..], x);
    }
  }

  lemma PositionIs(s: seq<Conn>, x: Conn, n: nat)
    requires n < |s| && s[n] == x && forall i :: 0 <= i < n ==> s[i] != x
    ensures Position(s, x) == n
  {
  }

  lemma WithoutMiddle(a: seq<Conn>, b: seq<Conn>, d: seq<Conn>, x: Conn)
    requires x !in a && x in b
    ensures Without(a + b + d, x) == a + Without(b, x) + d
  {
    hide Position, Without;
    var n := Position(b, x);
    var s := a + b + d;
    PositionInMiddle(a, b, d, x);
    PositionMeans(b, x);
    calc {
      Without(s, x);
      { WithoutIs(s, x); }
      s[..|a| + n] + s[|a| + n + 1..];
      { MiddleCut(a, b, d, n); }
      (a + b[..n]) + (b[n + 1..] + d);
      { Rejoin(a, b[..n], b[n + 1..], d); }
      a + (b[..n] + b[n + 1..]) + d;
      { WithoutIs(b, x); }
      a + Without(b, x) + d;
    }
  }

  lemma PositionMeans(s: seq<Conn>, x: Conn)
    ensures Position(s, x) < |s| <==> x in s
  {
  }

  lemma WithoutIs(s: seq<Conn>, x: Conn)
    requires Position(s, x) < |s|
    ensures Without(s, x) == s[..Position(s, x)] + s[Position(s, x) + 1..]
  {
  }

  lemma PositionInMiddle(a: seq<Conn>, b: seq<Conn>, d: seq<Conn>, x: Conn)
    requires x !in a && x in b
    ensures Position(a + b + d, x) == |a| + Position(b, x)
  {
    PositionIs(a + b + d, x, |a| + Position(b, x));
  }

  lemma MiddleCut(a: seq<Conn>, b: seq<Conn>, d: seq<Conn>, n: nat)
    requires n < |b|
    ensures (a + b + d)[..|a| + n] == a + b[..n] && (a + b + d)[|a| + n + 1..] == b[n + 1..] + d
  {
  }

  lemma Rejoin(a: seq<Conn>, b: seq<Conn>, c: seq<Conn>, d: seq<Conn>)
    ensures a + b + (c + d) == a + (b + c) + d
  {
  }

  /** A connection that leaves its bundle leaves the walk; nothing else moves. */
  lemma ExtractLeaves(c: Cache, x: Conn)
    ensures All(Extract(c, x).bundles) == Without(All(c.bundles), x)
    ensures All(RemoveConn(c, x).bundles) == Without(All(c.bundles), x)
    ensures x !in All(c.bundles) ==> Extract(c, x) == RemoveConn(c, x) == c
  {
    hide All, Without;
    var i := Holder(c.bundles, x);
    HolderMeans(c.bundles, x);
    if i == |c.bundles| {
      WithoutNothing(All(c.bundles), x);
    } else {
      var d := Extract(c, x);
      AllAround(c.bundles, i, d.bundles[i]);
      NotBefore(c.bundles[..i], x);
      WithoutMiddle(All(c.bundles[..i]), c.bundles[i].conns, All(c.bundles[i + 1..]), x);
      if d.bundles[i].conns == [] {
        EmptyBundleGone(d.bundles, i);
      }
    }
  }

  lemma EmptyBundleGone(bundles: seq<Bundle>, i: nat)
    requires i < |bundles| && bundles[i].conns == []
    ensures All(bundles[..i] + bundles[i + 1..]) == All(bundles)
  {
    hide All;
    AllAround(bundles, i, bundles[i]);
    AllSplit(bundles[..i], bundles[i + 1..]);
    assert All(bundles[..i]) + [] == All(bundles[..i]);
  }

  lemma WithoutNothing(s: seq<Conn>, x: Conn)
    requires x !in s
    ensures Without(s, x) == s
  {
  }

  lemma WithoutKeepsApart(s: seq<Conn>, x: Conn)
    requires NoDuplicates(s)
    ensures NoDuplicates(Without(s, x)) && x !in Without(s, x)
    ensures |Without(s, x)| == |s| - if x in s then 1 else 0
    ensures forall y :: y in Without(s, x) <==> y in s && y != x
  {
    var n := Position(s, x);
    var t := Without(s, x);
    if n < |s| {
      assert forall i :: 0 <= i < |t| ==> t[i] == if i < n then s[i] else s[i + 1];
      forall y | y in s && y != x ensures y in t {
        var j :| 0 <= j < |s| && s[j] == y;
        assert t[if j < n then j else j - 1] == y;
      }
    }
  }

  lemma InsertedAt(a: seq<Conn>, x: Conn, b: seq<Conn>, i: nat)
    requires i <= |a| + |b|
    ensures (a + [x] + b)[i] == if i < |a| then (a + b)[i] else if i == |a| then x else (a + b)[i - 1]
  {
  }

  lemma InsertKeepsApart(a: seq<Conn>, x: Conn, b: seq<Conn>)
    requires NoDuplicates(a + b) && x !in a + b
    ensures NoDuplicates(a + [x] + b) && |a + [x] + b| == |a + b| + 1
  {
    var s, t := a + b, a + [x] + b;
    forall i, j | 0 <= i < j < |t| ensures t[i] != t[j] {
      InsertedAt(a, x, b, i);
      InsertedAt(a, x, b, j);
    }
  }

  lemma InsertedMembers(a: seq<Conn>, x: Conn, b: seq<Conn>)
    requires x !in a
    ensures Without(a + [x] + b, x) == a + b
    ensures forall y :: y in a + [x] + b <==> y in a + b || y == x
  {
    PositionIs(a + [x] + b, x, |a|);
    assert (a + [x] + b)[..|a|] == a && (a + [x] + b)[|a| + 1..] == b;
  }

  lemma KeysStayApart(bundles: seq<Bundle>, i: nat, b: Bundle)
    requires KeysApart(bundles) && i < |bundles| && b.key == bundles[i].key
    ensures KeysApart(bundles[i := b]) && KeysApart(bundles[..i] + bundles[i + 1..])
  {
  }

  lemma NewKeyApart(bundles: seq<Bundle>, at: nat, b: Bundle)
    requires KeysApart(bundles) && at <= |bundles| && forall i :: 0 <= i < |bundles| ==> bundles[i].key != b.key
    ensures KeysApart(bundles[..at] + [b] + bundles[at..])
  {
  }

  /** Where the new connection comes to stand in the walk. */
  lemma AddInserts(c: Cache, x: Conn, key: Key, at: nat) returns (a: seq<Conn>, b: seq<Conn>)
    requires at <= |c.bundles|
    ensures All(c.bundles) == a + b && All(AddConn(c, x, key, at).bundles) == a + [x] + b
  {
    hide All, IndexOfKey;
    var i := IndexOfKey(c.bundles, key);
    if i < |c.bundles| {
      var bundle := Bundle(key, c.bundles[i].conns + [x]);
      AllAround(c.bundles, i, bundle);
      a, b := All(c.bundles[..i]) + c.bundles[i].conns, All(c.bundles[i + 1..]);
      assert All(c.bundles[..i]) + (c.bundles[i].conns + [x]) + b == a + [x] + b;
    } else {
      AllInserted(c.bundles, at, Bundle(key, [x]));
      a, b := All(c.bundles[..at]), All(c.bundles[at..]);
    }
  }

  lemma AddKeepsKeys(c: Cache, x: Conn, key: Key, at: nat)
    requires at <= |c.bundles| && KeysApart(c.bundles)
    ensures KeysApart(AddConn(c, x, key, at).bundles)
  {
    hide KeysApart;
    var i := IndexOfKey(c.bundles, key);
    if i < |c.bundles| {
      KeysStayApart(c.bundles, i, Bundle(key, c.bundles[i].conns + [x]));
    } else {
      NewKeyApart(c.bundles, at, Bundle(key, [x]));
    }
  }

  /** Adding a connection that is not there adds it and nothing else; taking it out again restores the walk. */
  lemma AddKeepsInv(c: Cache, x: Conn, key: Key, at: nat)
    requires Inv(c) && at <= |c.bundles| && x !in All(c.bundles)
    ensures var d := AddConn(c, x, key, at);
            && Inv(d) && Without(All(d.bundles), x) == All(c.bundles)
            && (forall y :: y in All(d.bundles) <==> y in All(c.bundles) || y == x)
  {
    hide All, Without, KeysApart, NoDuplicates;
    var d := AddConn(c, x, key, at);
    var a, b := AddInserts(c, x, key, at);
    InsertKeepsApart(a, x, b);
    InsertedMembers(a, x, b);
    AddKeepsKeys(c, x, key, at);
    TotalIsLength(c.bundles);
    TotalIsLength(d.bundles);
  }

  lemma RemoveKeepsKeys(c: Cache, x: Conn)
    requires KeysApart(c.bundles)
    ensures KeysApart(Extract(c, x).bundles) && KeysApart(RemoveConn(c, x).bundles)
  {
    hide KeysApart, Without;
    var i := Holder(c.bundles, x);
    if i < |c.bundles| {
      var d := Extract(c, x);
      KeysStayApart(c.bundles, i, d.bundles[i]);
      KeysStayApart(d.bundles, i, d.bundles[i]);
    }
  }

  /** Taking a connection out, with or without its emptied bundle, takes it and nothing else. */
  lemma RemoveKeepsInv(c: Cache, x: Conn)
    requires Inv(c)
    ensures Inv(Extract(c, x)) && Inv(RemoveConn(c, x))
    ensures forall y :: y in All(RemoveConn(c, x).bundles) <==> y in All(c.bundles) && y != x
    ensures forall y :: y in All(Extract(c, x).bundles) <==> y in All(c.bundles) && y != x
  {
    hide All, Without, KeysApart, NoDuplicates, Total;
    ExtractLeaves(c, x);
    WithoutKeepsApart(All(c.bundles), x);
    RemoveKeepsKeys(c, x);
    HolderMeans(c.bundles, x);
    TotalIsLength(c.bundles);
    TotalIsLength(Extract(c, x).bundles);
    TotalIsLength(RemoveConn(c, x).bundles);
  }

  function Dropped(c: Cache, n: nat): Cache
    requires n < |c.bundles|
  {
    c.(bundles := c.bundles[..n] + c.bundles[n + 1..])
  }

  lemma DropKeepsInv(c: Cache, n: nat)
    requires Inv(c) && n < |c.bundles| && c.bundles[n].conns == []
    ensures Inv(Dropped(c, n))
  {
    hide All, KeysApart, NoDuplicates, Total;
    EmptyBundleGone(c.bundles, n);
    KeysStayApart(c.bundles, n, c.bundles[n]);
    TotalIsLength(c.bundles);
    TotalIsLength(Dropped(c, n).bundles);
  }

  // ---------- the oldest connection ----------

  /** The scan returns a connection of maximal score above the mark, the first of them, or the one it came with. */
  lemma {:induction false} BestIsMaximal(conns: seq<Conn>, score: map<Conn, int>, high: int, sofar: Option<Conn>)
    requires forall x :: x in conns ==> x in score
    ensures var (best, top) := Best(conns, score, high, sofar);
            && top >= high && (forall x :: x in conns ==> score[x] <= top)
            && (top == high ==> best == sofar)
            && (top > high ==>
                && best.Some? && best.value in conns && score[best.value] == top
                && forall i :: 0 <= i < Position(conns, best.value) ==> score[conns[i]] < top)
  {
    if conns != [] {
      var x := conns[0];
      if score[x] > high {
        BestIsMaximal(conns[1..], score, score[x], Some(x));
      } else {
        BestIsMaximal(conns[1..], score, high, sofar);
      }
    }
  }

  /** A scan can be interrupted between two connections. */
  lemma {:induction false} BestSplit(a: seq<Conn>, b: seq<Conn>, score: map<Conn, int>, high: int, sofar: Option<Conn>)
    requires forall x :: x in a + b ==> x in score
    ensures (forall x :: x in a ==> x in score) && forall x :: x in b ==> x in score
    ensures var (best, top) := Best(a, score, high, sofar); Best(a + b, score, high, sofar) == Best(b, score, top, best)
  {
    assert forall x :: x in a || x in b ==> x in a + b;
    if a == [] {
      assert a + b == b;
    } else {
      assert (a + b)[1..] == a[1..] + b;
      if score[a[0]] > high {
        BestSplit(a[1..], b, score, score[a[0]], Some(a[0]));
      } else {
        BestSplit(a[1..], b, score, high, sofar);
      }
    }
  }

  /** What is extracted is an eligible connection no other is idle longer than; nothing is, exactly when none is eligible
      with an age of at least 0. */
  lemma ExtractsTheOldest(c: Cache, score: map<Conn, int>)
    requires Inv(c) && forall x :: x in All(c.bundles) ==> x in score
    ensures var (best, d) := ExtractOldest(c, score);
            && Inv(d)
            && (best.None? <==> forall x :: x in All(c.bundles) ==> score[x] < 0)
            && (best.None? ==> d == c)
            && (best.Some? ==>
                && best.value in All(c.bundles) && score[best.value] >= 0
                && (forall x :: x in All(c.bundles) ==> score[x] <= score[best.value])
                && |d.bundles| == |c.bundles| && d.numConn == c.numConn - 1
                && forall y :: y in All(d.bundles) <==> y in All(c.bundles) && y != best.value)
  {
    hide All, Best, Inv;
    BestIsMaximal(All(c.bundles), score, -1, None);
    var (best, d) := ExtractOldest(c, score);
    if best.Some? {
      RemoveKeepsInv(c, best.value);
      HolderMeans(c.bundles, best.value);
    }
  }

  // ---------- every run ----------

  datatype Event =
    | Add(x: Conn, key: Key, at: nat)
    | Remove(x: Conn)
    | TakeOldest(score: map<Conn, int>)
    | TakeOldestOf(bundle: nat, score: map<Conn, int>)

  /** A connection is added when it is not in the cache; scores are given for the connections there are. */
  predicate Possible(c: Cache, e: Event)
  {
    match e
    case Add(x, _, at) => x !in All(c.bundles) && at <= |c.bundles|
    case Remove(_) => true
    case TakeOldest(score) => forall x :: x in All(c.bundles) ==> x in score
    case TakeOldestOf(i, score) => i < |c.bundles| && forall x :: x in c.bundles[i].conns ==> x in score
  }

  function Apply(c: Cache, e: Event): Cache
    requires Possible(c, e)
  {
    match e
    case Add(x, key, at) => AddConn(c, x, key, at)
    case Remove(x) => RemoveConn(c, x)
    case TakeOldest(score) => ExtractOldest(c, score).1
    case TakeOldestOf(i, score) => ExtractBundle(c, i, score).1
  }

  lemma ApplyKeepsInv(c: Cache, e: Event)
    requires Inv(c) && Possible(c, e)
    ensures Inv(Apply(c, e))
  {
    hide Inv, All, Best, AddConn, RemoveConn, Extract, IndexOfKey;
    match e
    case Add(x, key, at) => AddKeepsInv(c, x, key, at);
    case Remove(x) => RemoveKeepsInv(c, x);
    case TakeOldest(score) =>
      var (best, _) := Best(All(c.bundles), score, -1, None);
      if best.Some? {
        RemoveKeepsInv(c, best.value);
      }
    case TakeOldestOf(i, score) =>
      var (best, _) := Best(c.bundles[i].conns, score, -1, None);
      if best.Some? {
        RemoveKeepsInv(c, best.value);
      }
  }

  function Run(events: seq<Event>): Cache
  {
    if events == [] then Empty else
    var c := Run(events[..|events| - 1]);
    var e := events[|events| - 1];
    if Possible(c, e) then Apply(c, e) else c
  }

  lemma {:induction false} RunKeepsInv(events: seq<Event>)
    ensures Inv(Run(events))
  {
    hide Possible, Apply;
    if events != [] {
      hide Inv;
      RunKeepsInv(events[..|events| - 1]);
      var c, e := Run(events[..|events| - 1]), events[|events| - 1];
      if Possible(c, e) {
        ApplyKeepsInv(c, e);
      }
    }
  }

  /** After any run the counter is the sum of the bundle sizes, even with empty bundles about, no two bundles have one
      key, and no connection is in two places. */
  lemma Accounting(events: seq<Event>)
    ensures var c := Run(events);
            && c.numConn == Total(c.bundles) == |All(c.bundles)|
            && KeysApart(c.bundles) && NoDuplicates(All(c.bundles))
  {
    hide Run, KeysApart, NoDuplicates, Total, All;
    RunKeepsInv(events);
    TotalIsLength(Run(events).bundles);
  }

  /** Extraction can leave an empty bundle behind. */
  lemma EmptyBundlesHappen()
    ensures exists events :: Run(events).bundles == [Bundle("h", [])]
  {
    var add, take := Add(7, "h", 0), TakeOldest(map[7 := 1]);
    var one := Cache([Bundle("h", [7])], 1, 1);
    assert All(one.bundles) == [7] by {
      AllOne(one.bundles[0]);
    }
    assert Run([]) == Empty && All(Empty.bundles) == [];
    assert [add][..0] == [] && Run([add]) == one;
    assert [add, take][..1] == [add];
    BestOfOne();
    assert Position([7], 7) == 0 && Without([7], 7) == [];
    assert Possible(one, take) && Run([add, take]) == Apply(one, take);
  }

  lemma BestOfOne()
    ensures Best([7], map[7 := 1], -1, None) == (Some(7), 1)
  {
    assert [7][1..] == [];
  }

  // ---------- closing everything ----------

  lemma {:induction false} FirstIsFirst(bundles: seq<Bundle>)
    ensures FindFirst(bundles) == if All(bundles) == [] then None else Some(All(bundles)[0])
  {
    if bundles != [] {
      FirstIsFirst(bundles[1..]);
    }
  }

  /** `Curl_conncache_close_all_connections`: the connections closed, in order, and the cache left. */
  function CloseAll(c: Cache): (seq<Conn>, Cache)
    decreases Total(c.bundles)
  {
    var first := FindFirst(c.bundles);
    if first.None? then ([], c) else
    FirstLeaves(c);
    var (closed, d) := CloseAll(RemoveConn(c, first.value));
    ([first.value] + closed, d)
  }

  lemma FirstLeaves(c: Cache)
    requires FindFirst(c.bundles).Some?
    ensures All(c.bundles) != [] && FindFirst(c.bundles).value == All(c.bundles)[0]
    ensures All(RemoveConn(c, FindFirst(c.bundles).value).bundles) == All(c.bundles)[1..]
    ensures Total(RemoveConn(c, FindFirst(c.bundles).value).bundles) < Total(c.bundles)
  {
    hide All, RemoveConn, Total, FindFirst, Without;
    FirstIsFirst(c.bundles);
    var x := All(c.bundles)[0];
    ExtractLeaves(c, x);
    TotalIsLength(c.bundles);
    TotalIsLength(RemoveConn(c, x).bundles);
    WithoutFirst(All(c.bundles));
  }

  lemma WithoutFirst(s: seq<Conn>)
    requires s != []
    ensures Without(s, s[0]) == s[1..]
  {
    PositionIs(s, s[0], 0);
  }

  /** Closing all connections comes to an end, whatever empty bundles there are, closes each connection once in the order
      of the walk, and leaves none. */
  lemma {:induction false} CloseAllClosesAll(c: Cache)
    requires Inv(c)
    ensures CloseAll(c).0 == All(c.bundles) && All(CloseAll(c).1.bundles) == [] && CloseAll(c).1.numConn == 0
    decreases Total(c.bundles)
  {
    hide All, Inv, RemoveConn, FindFirst;
    FirstIsFirst(c.bundles);
    if FindFirst(c.bundles).None? {
      NothingLeft(c);
    } else {
      FirstLeaves(c);
      RemoveKeepsInv(c, FindFirst(c.bundles).value);
      CloseAllClosesAll(RemoveConn(c, FindFirst(c.bundles).value));
    }
  }

  lemma NothingLeft(c: Cache)
    requires Inv(c) && All(c.bundles) == []
    ensures c.numConn == 0
  {
    TotalIsLength(c.bundles);
  }

  // ---------- walking through the cache ----------

  /** What a callback does with the connection it is given: remove it from the cache, end the walk. */
  datatype Reaction = Reaction(remove: bool, stop: bool)

  function React(c: Cache, x: Conn, act: Conn -> Reaction): Cache
  {
    if act(x).remove then RemoveConn(c, x) else c
  }

  /** The connections the callback is given, the cache afterwards, and whether the callback ended the walk. */
  function Visit(c: Cache, todo: seq<Conn>, act: Conn -> Reaction): (seq<Conn>, Cache, bool)
    decreases |todo|
  {
    if todo == [] then ([], c, false) else
    var d := React(c, todo[0], act);
    if act(todo[0]).stop then ([todo[0]], d, true) else
    var (visited, e, stopped) := Visit(d, todo[1..], act);
    ([todo[0]] + visited, e, stopped)
  }

  /** A walk in two parts: what was visited already, then the rest. */
  function Joined(visited: seq<Conn>, rest: (seq<Conn>, Cache, bool)): (seq<Conn>, Cache, bool)
  {
    (visited + rest.0, rest.1, rest.2)
  }

  lemma VisitOne(c: Cache, x: Conn, todo: seq<Conn>, act: Conn -> Reaction)
    ensures var d := React(c, x, act);
            Visit(c, [x] + todo, act) == Joined([x], if act(x).stop then ([], d, true) else Visit(d, todo, act))
  {
    hide React;
    assert ([x] + todo)[1..] == todo && [x] + [] == [x];
  }

  /** `Curl_conncache_foreach`. */
  function ForEach(c: Cache, act: Conn -> Reaction): (seq<Conn>, Cache, bool)
  {
    Visit(c, All(c.bundles), act)
  }

  lemma ReactMeans(c: Cache, x: Conn, act: Conn -> Reaction)
    requires Inv(c)
    ensures Inv(React(c, x, act))
    ensures forall y :: y in All(React(c, x, act).bundles) <==> y in All(c.bundles) && !(y == x && act(x).remove)
  {
    hide Inv, All, RemoveConn;
    RemoveKeepsInv(c, x);
  }

  /** The walk visits the connections in order up to the first that ends it, and only those it removes are gone. */
  lemma {:induction false} VisitMeans(c: Cache, todo: seq<Conn>, act: Conn -> Reaction)
    requires Inv(c)
    ensures var (visited, d, stopped) := Visit(c, todo, act);
            && Inv(d) && visited <= todo
            && (stopped <==> exists x :: x in todo && act(x).stop)
            && (!stopped ==> visited == todo)
            && (forall i :: 0 <= i < |visited| - 1 ==> !act(visited[i]).stop)
            && (stopped ==> visited != [] && act(visited[|visited| - 1]).stop)
            && forall y :: y in All(d.bundles) <==> y in All(c.bundles) && !(y in visited && act(y).remove)
    decreases |todo|
  {
    hide Inv, All, React;
    if todo != [] {
      ReactMeans(c, todo[0], act);
      VisitMeans(React(c, todo[0], act), todo[1..], act);
    }
  }

  /** Each connection is visited once, even when it is removed while it is visited. */
  lemma ForEachVisitsAll(c: Cache, act: Conn -> Reaction)
    requires Inv(c) && forall x :: x in All(c.bundles) ==> !act(x).stop
    ensures var (visited, d, stopped) := ForEach(c, act);
            && visited == All(c.bundles) && NoDuplicates(visited) && !stopped && Inv(d)
            && forall y :: y in All(d.bundles) <==> y in All(c.bundles) && !act(y).remove
  {
    hide All, Visit, KeysApart, Total;
    VisitMeans(c, All(c.bundles), act);
  }
}
