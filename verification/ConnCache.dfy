/** The objects of curl/lib/conncache.c: connections point back to the bundle that holds them. */
module ConnCache {
  import opened CString
  import opened ConnBundles

  class ConnectData {
    const address: Conn
    const key: Key        // what hashkey makes of its scope, port and host
    var bundle: ConnectBundle?
    var connectionId: nat
    var lastused: int
    var inUse: bool
    var close: bool
    var connectOnly: bool

    constructor (address: Conn, key: Key)
      ensures this.address == address && this.key == key && bundle == null
    {
      this.address, this.key, bundle := address, key, null;
    }
  }

  class ConnectBundle {
    const key: Key
    var numConnections: int
    var connList: seq<ConnectData>

    /** `bundle_create`. */
    constructor (key: Key)
      ensures this.key == key && numConnections == 0 && connList == []
    {
      this.key, numConnections, connList := key, 0, [];
    }

    /** `bundle_add_conn`. */
    method AddConn(conn: ConnectData)
      modifies this, conn`bundle
      ensures connList == old(connList) + [conn] && numConnections == old(numConnections) + 1 && conn.bundle == this
    {
      connList := connList + [conn];
      conn.bundle := this;
      numConnections := numConnections + 1;
    }

    /** `bundle_remove_conn`. */
    method RemoveConn(conn: ConnectData)
      requires conn in connList && NoDuplicates(Addresses(connList))
      modifies this, conn`bundle
      ensures Addresses(connList) == Without(Addresses(old(connList)), conn.address)
      ensures connList == Unlink(old(connList), IndexIn(old(connList), conn))
      ensures |connList| == |old(connList)| - 1 && numConnections == old(numConnections) - 1 && conn.bundle == null
      ensures forall c :: c in connList <==> c in old(connList) && c != conn
    {
      var curr := 0;
      while curr < |connList|
        invariant curr <= |connList| && forall i :: 0 <= i < curr ==> connList[i] != conn
      {
        if connList[curr] == conn {
          assert curr == IndexIn(connList, conn);
          WithoutAt(connList, curr);
          connList := Unlink(connList, curr);
          numConnections := numConnections - 1;
          conn.bundle := null;
          return;
        }
        curr := curr + 1;
      }
    }
  }

  function IndexIn(conns: seq<ConnectData>, c: ConnectData): (n: nat)
    requires c in conns
    ensures n < |conns| && conns[n] == c && forall i :: 0 <= i < n ==> conns[i] != c
  {
    if conns[0] == c then 0 else 1 + IndexIn(conns[1..], c)
  }

  function Addresses(conns: seq<ConnectData>): (r: seq<Conn>)
    ensures |r| == |conns| && forall i :: 0 <= i < |conns| ==> r[i] == conns[i].address
  {
    if conns == [] then [] else [conns[0].address] + Addresses(conns[1..])
  }

  /** `Curl_llist_remove` of the element at `n`. */
  function Unlink<T>(s: seq<T>, n: nat): seq<T>
    requires n < |s|
  {
    s[..n] + s[n + 1..]
  }

  lemma UnlinkAt<T>(s: seq<T>, n: nat, i: nat)
    requires n < |s| && i < |s| - 1
    ensures Unlink(s, n)[i] == if i < n then s[i] else s[i + 1]
  {
  }

  lemma UnlinkAddresses(conns: seq<ConnectData>, n: nat)
    requires n < |conns|
    ensures Addresses(Unlink(conns, n)) == Unlink(Addresses(conns), n)
  {
    hide Addresses;
    var s, t := Addresses(conns), Unlink(conns, n);
    forall i | 0 <= i < |t| ensures Addresses(t)[i] == Unlink(s, n)[i] {
      UnlinkAt(conns, n, i);
      UnlinkAt(s, n, i);
    }
  }

  lemma UnlinkMembers(conns: seq<ConnectData>, n: nat, c: ConnectData)
    requires n < |conns| && NoDuplicates(Addresses(conns)) && c in Unlink(conns, n)
    ensures c in conns && c != conns[n]
  {
    hide Addresses;
    var i :| 0 <= i < |conns| - 1 && Unlink(conns, n)[i] == c;
    UnlinkAt(conns, n, i);
    var j := if i < n then i else i + 1;
    assert Addresses(conns)[j] != Addresses(conns)[n];
  }

  lemma UnlinkKeeps(conns: seq<ConnectData>, n: nat, c: ConnectData)
    requires n < |conns| && c in conns && c != conns[n]
    ensures c in Unlink(conns, n)
  {
    var j :| 0 <= j < |conns| && conns[j] == c;
    UnlinkAt(conns, n, if j < n then j else j - 1);
    assert Unlink(conns, n)[if j < n then j else j - 1] == c;
  }

  lemma WithoutAt(conns: seq<ConnectData>, n: nat)
    requires n < |conns| && NoDuplicates(Addresses(conns))
    ensures Addresses(Unlink(conns, n)) == Without(Addresses(conns), conns[n].address)
    ensures forall c :: c in Unlink(conns, n) <==> c in conns && c != conns[n]
  {
    hide Addresses, NoDuplicates;
    UnlinkAddresses(conns, n);
    FirstPosition(Addresses(conns), n);
    forall c | c in Unlink(conns, n) ensures c in conns && c != conns[n] {
      UnlinkMembers(conns, n, c);
    }
    forall c | c in conns && c != conns[n] ensures c in Unlink(conns, n) {
      UnlinkKeeps(conns, n, c);
    }
  }

  lemma FirstPosition(s: seq<Conn>, n: nat)
    requires n < |s| && NoDuplicates(s)
    ensures Position(s, s[n]) == n
  {
    PositionIs(s, s[n], n);
  }

  ghost function BundleOf(b: ConnectBundle): Bundle
    reads b
  {
    Bundle(b.key, Addresses(b.connList))
  }

  ghost function BundlesOf(hash: seq<ConnectBundle>): (r: seq<Bundle>)
    reads hash
    ensures |r| == |hash| && forall i :: 0 <= i < |hash| ==> r[i] == BundleOf(hash[i])
  {
    if hash == [] then [] else [BundleOf(hash[0])] + BundlesOf(hash[1..])
  }

  lemma BundlesSplit(a: seq<ConnectBundle>, b: seq<ConnectBundle>)
    ensures BundlesOf(a + b) == BundlesOf(a) + BundlesOf(b)
  {
  }

  ghost predicate Apart(hash: seq<ConnectBundle>)
  {
    forall i, j :: 0 <= i < j < |hash| ==> hash[i] != hash[j]
  }

  /** Every connection of a bundle points back to it, and its counter is the length of its list. */
  ghost predicate Holds(b: ConnectBundle)
    reads b, b.connList`bundle
  {
    b.numConnections == |b.connList| && forall c :: c in b.connList ==> c.bundle == b
  }

  ghost predicate Within(b: ConnectBundle, members: set<ConnectData>)
    reads b
  {
    forall c :: c in b.connList ==> c in members
  }

  /** The back pointers of the members, and no others, lead to the bundles. */
  ghost predicate PointBack(hash: seq<ConnectBundle>, members: set<ConnectData>)
    reads hash, members`bundle
  {
    && (forall b :: b in hash ==> Within(b, members) && Holds(b))
    && (forall c :: c in members ==> c.bundle != null && c.bundle in hash && c in c.bundle.connList)
  }

  lemma OnlyInItsBundle(hash: seq<ConnectBundle>, members: set<ConnectData>, conn: ConnectData)
    requires PointBack(hash, members)
    ensures forall b :: b in hash && b != conn.bundle ==> conn !in b.connList
  {
  }

  lemma HolderIs(bundles: seq<Bundle>, i: nat, x: Conn)
    requires i < |bundles| && x in bundles[i].conns && NoDuplicates(All(bundles))
    ensures Holder(bundles, x) == i
  {
    var h := Holder(bundles, x);
    if h < i {
      AllAround(bundles, i, bundles[i]);
      BeforeIsIn(bundles[..i], h, x);
      TwicePresent(All(bundles[..i]), bundles[i].conns, All(bundles[i + 1..]), x);
    }
  }

  lemma {:induction false} BeforeIsIn(bundles: seq<Bundle>, h: nat, x: Conn)
    requires h < |bundles| && x in bundles[h].conns
    ensures x in All(bundles)
  {
    HolderMeans(bundles, x);
  }

  lemma TwicePresent(a: seq<Conn>, b: seq<Conn>, c: seq<Conn>, x: Conn)
    requires x in a && x in b
    ensures !NoDuplicates(a + b + c)
  {
    var i :| 0 <= i < |a| && a[i] == x;
    var j :| 0 <= j < |b| && b[j] == x;
    assert (a + b + c)[i] == (a + b + c)[|a| + j];
  }

  lemma Inserted(hash: seq<ConnectBundle>, at: nat, b: ConnectBundle)
    requires Apart(hash) && at <= |hash| && b !in hash
    ensures Apart(hash[..at] + [b] + hash[at..])
    ensures forall x :: x in hash[..at] + [b] + hash[at..] <==> x in hash || x == b
  {
    assert hash == hash[..at] + hash[at..];
  }

  lemma InsertedBundles(hash: seq<ConnectBundle>, at: nat, b: ConnectBundle)
    requires at <= |hash|
    ensures BundlesOf(hash[..at] + [b] + hash[at..]) == BundlesOf(hash)[..at] + [BundleOf(b)] + BundlesOf(hash)[at..]
  {
    hide BundlesOf;
    BundlesSplit(hash[..at] + [b], hash[at..]);
    BundlesSplit(hash[..at], [b]);
    BundlesSplit(hash[..at], hash[at..]);
    assert hash == hash[..at] + hash[at..];
    OneBundle(b);
    Halves(BundlesOf(hash[..at]), BundlesOf(hash[at..]));
  }

  lemma OneBundle(b: ConnectBundle)
    ensures BundlesOf([b]) == [BundleOf(b)]
  {
  }

  lemma Halves(p: seq<Bundle>, s: seq<Bundle>)
    ensures (p + s)[..|p|] == p && (p + s)[|p|..] == s
  {
  }

  /** The age of a connection that may be taken; `anywhere` adds the conditions of the search through all bundles. */
  function Score(c: ConnectData, now: int, anywhere: bool): int
    reads c`inUse, c`close, c`connectOnly, c`lastused
  {
    if c.inUse || (anywhere && (c.close || c.connectOnly)) then -1 else now - c.lastused
  }

  ghost predicate Scores(score: map<Conn, int>, conns: seq<ConnectData>, now: int, anywhere: bool)
    reads conns
  {
    forall c :: c in conns ==> c.address in score && score[c.address] == Score(c, now, anywhere)
  }

  /** `candidate` has the highest age among the connections that may be taken; null when there is none of age 0 or more. */
  ghost predicate Oldest(candidate: ConnectData?, conns: set<ConnectData>, now: int)
    reads conns`inUse, conns`close, conns`connectOnly, conns`lastused
  {
    && (candidate == null ==> forall c :: c in conns ==> Score(c, now, true) < 0)
    && (candidate != null ==>
        candidate in conns && Score(candidate, now, true) >= 0
        && forall c :: c in conns ==> Score(c, now, true) <= Score(candidate, now, true))
  }

  /** In terms of the fields: not in use, not to be closed and not connect-only, and none of these was used earlier. */
  lemma OldestIsIdle(candidate: ConnectData?, conns: set<ConnectData>, now: int)
    requires Oldest(candidate, conns, now)
    ensures candidate != null ==>
              && candidate in conns && !candidate.inUse && !candidate.close && !candidate.connectOnly
              && candidate.lastused <= now
              && forall c :: c in conns && !c.inUse && !c.close && !c.connectOnly ==> c.lastused >= candidate.lastused
    ensures candidate == null <==> forall c :: c in conns && !c.inUse && !c.close && !c.connectOnly ==> c.lastused > now
  {
    if candidate == null {
      forall c | c in conns && !c.inUse && !c.close && !c.connectOnly ensures c.lastused > now {
        assert Score(c, now, true) < 0;
      }
    } else {
      var d: ConnectData := candidate;
      assert Score(d, now, true) >= 0;
      forall c | c in conns && !c.inUse && !c.close && !c.connectOnly ensures c.lastused >= d.lastused {
        assert Score(c, now, true) <= Score(d, now, true);
      }
    }
  }

  /** The same for one list, in which only being in use counts. */
  lemma BestIsIdle(candidate: ConnectData?, conns: seq<ConnectData>, score: map<Conn, int>, now: int)
    requires Scores(score, conns, now, false) && forall x :: x in Addresses(conns) ==> x in score
    requires AddressOf(candidate) == Best(Addresses(conns), score, -1, None).0
    requires candidate != null ==> candidate in conns
    ensures candidate != null ==>
              && !candidate.inUse && candidate.lastused <= now
              && forall c :: c in conns && !c.inUse ==> c.lastused >= candidate.lastused
    ensures candidate == null <==> forall c :: c in conns && !c.inUse ==> c.lastused > now
  {
    BestIsMaximal(Addresses(conns), score, -1, None);
    hide Best, Addresses;
    forall c | c in conns ensures c.address in Addresses(conns) && score[c.address] == Score(c, now, false) {
      InAddresses(conns, c);
    }
  }

  lemma ScoreIs(score: map<Conn, int>, conns: seq<ConnectData>, c: ConnectData, now: int)
    requires Scores(score, conns, now, true) && c in conns
    ensures c.address in score && score[c.address] == Score(c, now, true)
  {
  }

  function AddressOf(c: ConnectData?): Option<Conn>
  {
    if c == null then None else Some(c.address)
  }

  lemma ScoresCover(score: map<Conn, int>, conns: seq<ConnectData>, now: int, anywhere: bool)
    requires Scores(score, conns, now, anywhere)
    ensures forall x :: x in Addresses(conns) ==> x in score
  {
  }

  /** The scan over one list, from the candidate and the score it comes with. */
  method Scan(conns: seq<ConnectData>, now: int, anywhere: bool, high: int, sofar: ConnectData?, ghost score: map<Conn, int>)
    returns (best: ConnectData?, top: int)
    requires Scores(score, conns, now, anywhere) && high >= -1
    ensures forall x :: x in Addresses(conns) ==> x in score
    ensures (AddressOf(best), top) == Best(Addresses(conns), score, high, AddressOf(sofar))
    ensures top >= high && (best == sofar || best in conns)
  {
    ScoresCover(score, conns, now, anywhere);
    best, top := sofar, high;
    var curr := 0;
    WholeTail(conns);
    while curr < |conns|
      invariant curr <= |conns| && top >= high && (best == sofar || best in conns)
      invariant Covered(Addresses(conns[curr..]), score)
      invariant Best(Addresses(conns[curr..]), score, top, AddressOf(best)) == Best(Addresses(conns), score, high, AddressOf(sofar))
    {
      var conn := conns[curr];
      OneStep(conns, curr);
      if !conn.inUse && !(anywhere && (conn.close || conn.connectOnly)) {
        var age := now - conn.lastused;
        if age > top {
          top := age;
          best := conn;
        }
      }
      curr := curr + 1;
    }
  }

  predicate Covered(xs: seq<Conn>, score: map<Conn, int>)
  {
    forall x :: x in xs ==> x in score
  }

  lemma WholeTail<T>(conns: seq<T>)
    ensures conns[0..] == conns && conns[|conns|..] == []
  {
  }

  lemma OneStep(conns: seq<ConnectData>, n: nat)
    requires n < |conns|
    ensures Addresses(conns[n..]) == [conns[n].address] + Addresses(conns[n + 1..])
  {
    assert conns[n..][1..] == conns[n + 1..];
  }

  function IndexOf(hash: seq<ConnectBundle>, b: ConnectBundle): (n: nat)
    ensures n <= |hash| && (n < |hash| <==> b in hash) && (n < |hash| ==> hash[n] == b)
    ensures forall i :: 0 <= i < n ==> hash[i] != b
  {
    if hash == [] || hash[0] == b then 0 else 1 + IndexOf(hash[1..], b)
  }

  class ConnCache {
    var hash: seq<ConnectBundle>   // in the order the hash is walked
    var numConn: int
    var nextConnectionId: nat
    ghost var members: set<ConnectData>   // the connections in the bundles

    ghost function View(): Cache
      reads this, hash
    {
      Cache(BundlesOf(hash), numConn, nextConnectionId)
    }

    ghost predicate Valid()
      reads this, hash, members`bundle
    {
      Apart(hash) && PointBack(hash, members) && Inv(View())
    }

    constructor ()
      ensures Valid() && View() == Empty
    {
      hash, numConn, nextConnectionId, members := [], 0, 0, {};
    }

    /** `Curl_conncache_find_bundle`. */
    method FindBundle(key: Key) returns (n: nat)
      ensures n <= |hash| && n == IndexOfKey(BundlesOf(hash), key)
    {
      n := 0;
      while n < |hash|
        invariant n <= |hash| && forall i :: 0 <= i < n ==> hash[i].key != key
      {
        if hash[n].key == key {
          break;
        }
        n := n + 1;
      }
      KeyIndexIs(BundlesOf(hash), key, n);
    }

    /** `Curl_conncache_add_conn`; the hash decides where a new bundle comes to stand. */
    method AddConn(conn: ConnectData, at: nat)
      requires Valid() && conn.bundle == null && at <= |hash| && conn.address !in All(View().bundles)
      modifies this, hash, conn
      ensures Valid() && View() == ConnBundles.AddConn(old(View()), conn.address, conn.key, at)
      ensures members == old(members) + {conn} && conn.bundle != null && conn.bundle.key == conn.key
      ensures conn.connectionId == old(nextConnectionId)
    {
      hide All, Apart, BundlesOf, Inv, PointBack, IndexOfKey, ConnBundles.AddConn, Addresses;
      AddKeepsInv(View(), conn.address, conn.key, at);
      var n := FindBundle(conn.key);
      if n == |hash| {
        AddNewBundle(conn, at);
      } else {
        AddToBundle(conn, n, at);
      }
      Count(conn);
      AddCounts(old(View()), conn.address, conn.key, at);
      assert View() == ConnBundles.AddConn(old(View()), conn.address, conn.key, at);
      assert PointBack(hash, members);
    }

    method Count(conn: ConnectData)
      modifies this`nextConnectionId, this`numConn, conn`connectionId
      ensures conn.connectionId == old(nextConnectionId)
      ensures nextConnectionId == old(nextConnectionId) + 1 && numConn == old(numConn) + 1
    {
      conn.connectionId := nextConnectionId;
      nextConnectionId := nextConnectionId + 1;
      numConn := numConn + 1;
    }

    method AddNewBundle(conn: ConnectData, at: nat)
      requires Apart(hash) && PointBack(hash, members) && conn.bundle == null && at <= |hash|
      requires IndexOfKey(BundlesOf(hash), conn.key) == |hash|
      modifies this`hash, this`members, conn`bundle
      ensures Apart(hash) && PointBack(hash, members) && members == old(members) + {conn}
      ensures BundlesOf(hash) == ConnBundles.AddConn(old(View()), conn.address, conn.key, at).bundles
      ensures conn.bundle != null && conn.bundle.key == conn.key
      ensures forall b :: b in hash ==> b in old(hash) || fresh(b)
    {
      hide Apart, Addresses, BundlesOf, Holds, IndexOfKey, ConnBundles.AddConn;
      NewBundleIs(View(), conn.address, conn.key, at);
      var bundle := BundleWith(conn);
      members := members + {conn};
      assert BundlesOf(hash) == old(BundlesOf(hash));
      InsertBundle(bundle, at);
      forall b | b in hash ensures Within(b, members) && Holds(b) {
        if b != bundle {
          assert old(Within(b, members) && Holds(b)) && conn !in b.connList;
        }
      }
    }

    /** A new bundle of one connection. */
    method BundleWith(conn: ConnectData) returns (bundle: ConnectBundle)
      modifies conn`bundle
      ensures fresh(bundle) && conn.bundle == bundle && bundle.key == conn.key && bundle.connList == [conn]
      ensures BundleOf(bundle) == Bundle(conn.key, [conn.address]) && Holds(bundle)
    {
      hide Addresses, Holds;
      bundle := new ConnectBundle(conn.key);
      bundle.AddConn(conn);
      OneConnection(bundle, conn);
    }

    /** `conncache_add_bundle`. */
    method InsertBundle(bundle: ConnectBundle, at: nat)
      requires Apart(hash) && bundle !in hash && at <= |hash|
      modifies this`hash
      ensures Apart(hash) && (forall b :: b in hash <==> b in old(hash) || b == bundle)
      ensures BundlesOf(hash) == old(BundlesOf(hash)[..at] + [BundleOf(bundle)] + BundlesOf(hash)[at..])
    {
      hide Apart, BundlesOf;
      Inserted(hash, at, bundle);
      InsertedBundles(hash, at, bundle);
      hash := hash[..at] + [bundle] + hash[at..];
    }

    method AddToBundle(conn: ConnectData, n: nat, ghost at: nat)
      requires Apart(hash) && PointBack(hash, members) && conn.bundle == null && n < |hash| && at <= |hash|
      requires IndexOfKey(BundlesOf(hash), conn.key) == n
      modifies hash, this`members, conn`bundle
      ensures Apart(hash) && PointBack(hash, members) && members == old(members) + {conn}
      ensures BundlesOf(hash) == ConnBundles.AddConn(old(View()), conn.address, conn.key, at).bundles
      ensures conn.bundle == hash[n]
    {
      hide Addresses, BundlesOf, Holds, IndexOfKey;
      var bundle := hash[n];
      HoldsMeans(bundle);
      bundle.AddConn(conn);
      members := members + {conn};
      AddressesEnd(old(bundle.connList), conn);
      OneMoreConnection(bundle, old(bundle.connList), conn);
      forall b | b in hash ensures Within(b, members) && Holds(b) {
        if b != bundle {
          assert old(Within(b, members) && Holds(b)) && conn !in b.connList;
        }
      }
      assert BundlesOf(hash) == old(BundlesOf(hash))[n := BundleOf(bundle)];
    }

    lemma HolderOf(conn: ConnectData, n: nat)
      requires Valid() && conn in members && n < |hash| && hash[n] == conn.bundle
      ensures Holder(View().bundles, conn.address) == n && NoDuplicates(Addresses(hash[n].connList))
    {
      hide All, Apart, BundlesOf, Inv, Addresses, KeysApart, Holder, NoDuplicates;
      PartIsApart(View(), n);
      InAddresses(hash[n].connList, conn);
      InvApart(View());
      HolderIs(View().bundles, n, conn.address);
    }

    /** `bundle_remove_conn` and the counter: what every way out of the cache has in common. */
    method TakeOut(conn: ConnectData, ghost n: nat)
      requires Valid() && conn in members && n < |hash| && hash[n] == conn.bundle
      modifies this`numConn, this`members, hash, conn`bundle
      ensures Valid() && View() == Extract(old(View()), conn.address)
      ensures members == old(members) - {conn} && conn.bundle == null && hash == old(hash)
      ensures forall b :: b in hash && b != hash[n] ==> b.connList == old(b.connList)
      ensures conn in old(hash[n].connList)
      ensures hash[n].connList == Unlink(old(hash[n].connList), IndexIn(old(hash[n].connList), conn))
    {
      hide All, Apart, BundlesOf, Inv, IndexOfKey, Addresses, Extract, Holds, KeysApart, Holder, NoDuplicates, Unlink,
        IndexIn, Without;
      HolderOf(conn, n);
      ExtractIs(View(), conn.address, n);
      RemoveKeepsInv(View(), conn.address);
      TakeFromBundle(conn, n);
      numConn := numConn - 1;
      assert View() == Extract(old(View()), conn.address);
      assert PointBack(hash, members);
    }

    method TakeFromBundle(conn: ConnectData, ghost n: nat)
      requires Apart(hash) && PointBack(hash, members) && conn in members && n < |hash| && hash[n] == conn.bundle
      requires NoDuplicates(Addresses(hash[n].connList))
      modifies this`members, hash, conn`bundle
      ensures PointBack(hash, members) && members == old(members) - {conn} && conn.bundle == null
      ensures var b := old(BundlesOf(hash)[n]);
              BundlesOf(hash) == old(BundlesOf(hash))[n := b.(conns := Without(b.conns, conn.address))]
      ensures forall b :: b in hash && b != hash[n] ==> b.connList == old(b.connList)
      ensures conn in old(hash[n].connList)
      ensures hash[n].connList == Unlink(old(hash[n].connList), IndexIn(old(hash[n].connList), conn))
    {
      hide BundlesOf, Addresses, Holds, NoDuplicates, Without;
      var bundle := conn.bundle;
      HoldsMeans(bundle);
      OnlyInItsBundle(hash, members, conn);
      bundle.RemoveConn(conn);
      members := members - {conn};
      FewerConnections(bundle);
      forall b | b in hash ensures Within(b, members) && Holds(b) {
        if b != bundle {
          assert old(Within(b, members) && Holds(b)) && conn !in b.connList;
        }
      }
    }

    /** `conncache_remove_bundle`: the hash is walked to the bundle. */
    method RemoveBundle(bundle: ConnectBundle, ghost n: nat)
      requires Apart(hash) && n < |hash| && hash[n] == bundle
      modifies this`hash
      ensures hash == Unlink(old(hash), n)
    {
      var he := 0;
      while he < |hash|
        invariant he <= n
      {
        if hash[he] == bundle {
          hash := Unlink(hash, he);
          return;
        }
        he := he + 1;
      }
    }

    method DropBundle(bundle: ConnectBundle, ghost n: nat)
      requires Valid() && n < |hash| && hash[n] == bundle && bundle.connList == []
      modifies this`hash
      ensures Valid() && View() == Dropped(old(View()), n)
      ensures hash == Unlink(old(hash), n)
    {
      hide All, Apart, BundlesOf, Inv, Addresses, Holds, PointBack;
      NoAddresses();
      DropKeepsInv(View(), n);
      UnlinkedBundles(hash, n);
      UnlinkedApart(hash, n);
      EmptyIsUnneeded(hash, members, n);
      RemoveBundle(bundle, n);
    }

    /** `Curl_conncache_remove_conn`; nothing happens to a connection that is in no bundle. */
    method RemoveConn(conn: ConnectData)
      requires Valid() && (conn.bundle != null ==> conn in members)
      modifies this`numConn, this`members, this`hash, hash, conn`bundle
      ensures Valid() && conn.bundle == null && members == old(members) - {conn}
      ensures View() == if old(conn.bundle) == null then old(View()) else ConnBundles.RemoveConn(old(View()), conn.address)
      ensures forall i :: 0 <= i < |hash| ==> hash[i] in old(hash)
      ensures old(conn.bundle) == null ==> hash == old(hash)
      ensures var b := old(conn.bundle); b != null ==>
              && b in old(hash) && conn in old(b.connList)
              && b.connList == Unlink(old(b.connList), IndexIn(old(b.connList), conn))
              && hash == if b.connList == [] then Unlink(old(hash), IndexOf(old(hash), b)) else old(hash)
      ensures forall b :: b in old(hash) && b != old(conn.bundle) ==> b.connList == old(b.connList)
    {
      hide All, Apart, BundlesOf, Inv, Addresses, Extract, Holds, Holder, ConnBundles.RemoveConn, NoDuplicates, PointBack,
        Unlink, IndexIn;
      PointBackMeans(hash, members);
      if conn.bundle != null {
        RemoveFrom(conn.bundle, conn);
      } else {
        assert conn !in members;
      }
    }

    method RemoveFrom(bundle: ConnectBundle, conn: ConnectData)
      requires Valid() && conn.bundle == bundle && conn in members && bundle in hash
      modifies this`numConn, this`members, this`hash, hash, conn`bundle
      ensures Valid() && conn.bundle == null && members == old(members) - {conn}
      ensures View() == ConnBundles.RemoveConn(old(View()), conn.address)
      ensures forall i :: 0 <= i < |hash| ==> hash[i] in old(hash)
      ensures conn in old(bundle.connList) && bundle.connList == Unlink(old(bundle.connList), IndexIn(old(bundle.connList), conn))
      ensures hash == if bundle.connList == [] then Unlink(old(hash), IndexOf(old(hash), bundle)) else old(hash)
      ensures forall b :: b in old(hash) && b != bundle ==> b.connList == old(b.connList)
    {
      hide All, Apart, BundlesOf, Inv, Addresses, Extract, Holds, Holder, ConnBundles.RemoveConn, NoDuplicates, PointBack, IndexIn;
      ghost var n := IndexOf(hash, bundle);
      HolderOf(conn, n);
      RemoveIs(View(), conn.address, n);
      TakeOut(conn, n);
      PointBackMeans(hash, members);
      HoldsMeans(bundle);
      if bundle.numConnections == 0 {
        NoAddresses();
        DropBundle(bundle, n);
      } else {
        SomeAddresses(bundle.connList);
      }
    }

    /** `Curl_conncache_extract_bundle`: takes a connection out of the bundle that is not in use and that no other such
        connection of it was idle longer than; `score` gives the ages. */
    method ExtractBundle(n: nat, now: int, ghost score: map<Conn, int>) returns (candidate: ConnectData?)
      requires Valid() && n < |hash| && Scores(score, hash[n].connList, now, false)
      modifies this`numConn, this`members, hash, hash[n].connList`bundle
      ensures Valid() && forall x :: x in old(View().bundles[n].conns) ==> x in score
      ensures candidate != null ==>
                && candidate in old(hash[n].connList) && !candidate.inUse && candidate.lastused <= now
                && forall c :: c in old(hash[n].connList) && !c.inUse ==> c.lastused >= candidate.lastused
      ensures candidate == null <==> forall c :: c in old(hash[n].connList) && !c.inUse ==> c.lastused > now
      ensures (AddressOf(candidate), View()) == ConnBundles.ExtractBundle(old(View()), n, score)
    {
      hide All, Apart, BundlesOf, Inv, Addresses, Extract, Holds, Scores, PointBack, Best;
      var bundle := hash[n];
      BundleIn(hash, members, n);
      var highscore: int;
      candidate, highscore := Scan(bundle.connList, now, false, -1, null, score);
      BestIsIdle(candidate, bundle.connList, score, now);
      if candidate != null {
        TakeOut(candidate, n);
      }
    }

    /** `Curl_conncache_extract_oldest`: takes out a connection that is neither in use, nor to be closed, nor connect-only,
        and that none of these was idle longer than; none is taken exactly when there is none of an age of at least 0. */
    method ExtractOldest(now: int, ghost score: map<Conn, int>) returns (candidate: ConnectData?)
      requires Valid() && forall b :: b in hash ==> Scores(score, b.connList, now, true)
      modifies this`numConn, this`members, hash, members`bundle
      ensures Valid() && members == old(members) - {candidate}
      ensures candidate != null ==>
                && candidate in old(members) && !candidate.inUse && !candidate.close && !candidate.connectOnly
                && candidate.lastused <= now
                && forall c :: c in old(members) && !c.inUse && !c.close && !c.connectOnly ==> c.lastused >= candidate.lastused
      ensures candidate == null <==>
              forall c :: c in old(members) && !c.inUse && !c.close && !c.connectOnly ==> c.lastused > now
      ensures forall x :: x in All(old(View().bundles)) ==> x in score
      ensures (AddressOf(candidate), View()) == ConnBundles.ExtractOldest(old(View()), score)
    {
      hide All, Apart, Inv, Addresses, Extract, Holds, Scores, PointBack, BundlesOf, Oldest;
      candidate := FindOldest(now, score);
      FoundIsOldest(candidate, now, score);
      OldestIsIdle(candidate, members, now);
      if candidate != null {
        PointBackMeans(hash, members);
        TakeOldest(candidate, IndexOf(hash, candidate.bundle), now);
      }
    }

    method TakeOldest(candidate: ConnectData, ghost n: nat, ghost now: int)
      requires Valid() && n < |hash| && hash[n] == candidate.bundle && candidate in members && Oldest(candidate, members, now)
      modifies this`numConn, this`members, hash, candidate`bundle
      ensures Valid() && Oldest(candidate, old(members), now) && members == old(members) - {candidate}
      ensures View() == Extract(old(View()), candidate.address)
    {
      hide All, Apart, Inv, Addresses, Extract, PointBack, BundlesOf, Oldest, Unlink, IndexIn;
      TakeOut(candidate, n);
      assert Oldest(candidate, old(members), now);
    }

    lemma FoundIsOldest(candidate: ConnectData?, now: int, score: map<Conn, int>)
      requires Valid() && (forall b :: b in hash ==> Scores(score, b.connList, now, true))
      requires forall x :: x in All(View().bundles) ==> x in score
      requires AddressOf(candidate) == Best(All(View().bundles), score, -1, None).0
      requires candidate != null ==> candidate in members
      ensures Oldest(candidate, members, now)
    {
      hide All, Inv, Best, BundlesOf, PointBack, Scores, Score;
      BestIsMaximal(All(View().bundles), score, -1, None);
      forall c | c in members ensures c.address in All(View().bundles) && score[c.address] == Score(c, now, true) {
        MemberIsListed(hash, members, c);
        ScoreIs(score, c.bundle.connList, c, now);
        var n := IndexOf(hash, c.bundle);
        InAddresses(hash[n].connList, c);
        BeforeIsIn(View().bundles, n, c.address);
      }
    }

    /** The walk through all bundles. */
    method FindOldest(now: int, ghost score: map<Conn, int>) returns (candidate: ConnectData?)
      requires Valid() && forall b :: b in hash ==> Scores(score, b.connList, now, true)
      ensures forall x :: x in All(View().bundles) ==> x in score
      ensures AddressOf(candidate) == Best(All(View().bundles), score, -1, None).0
      ensures candidate != null ==> candidate in members
    {
      hide All, Apart, Inv, Addresses, Holds, Scores, PointBack, BundlesOf;
      AllCovered(hash, score, now);
      candidate := null;
      var highscore := -1;
      var he := 0;
      AllTail(hash);
      while he < |hash|
        invariant he <= |hash| && highscore >= -1 && (candidate != null ==> candidate in members)
        invariant Covered(All(BundlesOf(hash[he..])), score)
        invariant Best(All(BundlesOf(hash[he..])), score, highscore, AddressOf(candidate))
                  == Best(All(View().bundles), score, -1, None)
      {
        var bundle := hash[he];
        BundleIn(hash, members, he);
        NextBundle(hash, he);
        BestSplit(Addresses(bundle.connList), All(BundlesOf(hash[he + 1..])), score, highscore, AddressOf(candidate));
        candidate, highscore := Scan(bundle.connList, now, true, highscore, candidate, score);
        he := he + 1;
      }
    }

    /** `conncache_find_first_connection`. */
    method FindFirst() returns (conn: ConnectData?)
      requires Valid()
      ensures AddressOf(conn) == ConnBundles.FindFirst(View().bundles)
      ensures conn != null ==> conn in members && conn.bundle != null
    {
      hide All, Apart, Inv, Holds, PointBack, BundlesOf, Addresses;
      var he := 0;
      AllTail(hash);
      while he < |hash|
        invariant he <= |hash|
        invariant ConnBundles.FindFirst(BundlesOf(hash[he..])) == ConnBundles.FindFirst(View().bundles)
      {
        var bundle := hash[he];
        BundleIn(hash, members, he);
        FirstStep(hash, he);
        if |bundle.connList| > 0 {
          return bundle.connList[0];
        }
        he := he + 1;
      }
      conn := null;
      NoBundles();
    }

    /** One turn of the loop that closes everything: `conn` goes, and the next one is looked for. */
    method CloseFirst(conn: ConnectData) returns (next: ConnectData?)
      requires Valid() && conn in members && conn.bundle != null
      requires ConnBundles.FindFirst(View().bundles) == Some(conn.address)
      modifies this`numConn, this`members, this`hash, hash, conn`bundle
      ensures Valid() && members == old(members) - {conn} && conn.bundle == null
      ensures forall i :: 0 <= i < |hash| ==> hash[i] in old(hash)
      ensures Total(View().bundles) < old(Total(View().bundles))
      ensures old(CloseAll(View())) == ([conn.address] + CloseAll(View()).0, CloseAll(View()).1)
      ensures AddressOf(next) == ConnBundles.FindFirst(View().bundles)
      ensures next != null ==> next in members && next.bundle != null
    {
      hide All, Apart, Inv, Holds, PointBack, BundlesOf, Addresses, CloseAll, ConnBundles.RemoveConn, ConnBundles.FindFirst,
        Unlink, IndexOf, IndexIn, Total;
      FirstLeaves(View());
      CloseStep(View(), conn.address);
      RemoveConn(conn);
      next := FindFirst();
    }

    /** `Curl_conncache_close_all_connections`, as far as the cache is concerned; `closed` is what it disconnects. */
    method CloseAllConnections() returns (closed: seq<ConnectData>)
      requires Valid()
      modifies this`numConn, this`members, this`hash, hash, members
      ensures Valid() && (Addresses(closed), View()) == CloseAll(old(View()))
      ensures members == {} && forall c :: c in old(members) ==> c.bundle == null
    {
      hide All, Apart, Inv, Holds, PointBack, BundlesOf, Addresses, CloseAll, ConnBundles.FindFirst, Total;
      closed := [];
      NothingClosed(View());
      var conn := FindFirst();
      while conn != null
        invariant Valid() && members <= old(members)
        invariant forall i :: 0 <= i < |hash| ==> hash[i] in old(hash)
        invariant AddressOf(conn) == ConnBundles.FindFirst(View().bundles)
        invariant conn != null ==> conn in members && conn.bundle != null
        invariant forall c :: c in old(members) - members ==> c.bundle == null
        invariant (Addresses(closed) + CloseAll(View()).0, CloseAll(View()).1) == CloseAll(old(View()))
        decreases Total(View().bundles)
      {
        var gone: ConnectData := conn;
        conn := CloseFirst(gone);
        AddressesEnd(closed, gone);
        Regroup(Addresses(closed), gone.address, CloseAll(View()).0);
        closed := closed + [gone];
      }
      CloseEnd(View(), Addresses(closed));
      NoneLeft();
    }

    /** What the callback does with `conn`; it may remove it from the cache and may end the walk. */
    method Callback(conn: ConnectData, act: Conn -> Reaction) returns (stop: bool)
      requires Valid() && conn in members && conn.bundle != null && conn.bundle in hash
      modifies this`numConn, this`members, this`hash, hash, conn`bundle
      ensures Valid() && View() == React(old(View()), conn.address, act) && stop == act(conn.address).stop
      ensures members == old(members) - if act(conn.address).remove then {conn} else {}
      ensures forall i :: 0 <= i < |hash| ==> hash[i] in old(hash)
      ensures var b := old(conn.bundle);
              && conn in old(b.connList)
              && (b.connList == old(b.connList) || b.connList == Unlink(old(b.connList), IndexIn(old(b.connList), conn)))
              && (hash == old(hash) || (b.connList == [] && hash == Unlink(old(hash), IndexOf(old(hash), b))))
      ensures forall b :: b in old(hash) && b != old(conn.bundle) ==> b.connList == old(b.connList)
    {
      hide All, Apart, Inv, Holds, PointBack, BundlesOf, Addresses, ConnBundles.RemoveConn, Unlink, IndexOf, IndexIn;
      MemberIsListed(hash, members, conn);
      if act(conn.address).remove {
        RemoveConn(conn);
      }
      stop := act(conn.address).stop;
    }

    /** `curr->next`. */
    method NextConn(bundle: ConnectBundle, curr: ConnectData) returns (next: ConnectData?)
      requires curr in bundle.connList
      ensures var n := IndexIn(bundle.connList, curr) + 1;
              next == if n < |bundle.connList| then bundle.connList[n] else null
    {
      var n := IndexIn(bundle.connList, curr) + 1;
      next := if n < |bundle.connList| then bundle.connList[n] else null;
    }

    /** The connections of a bundle are distinct, so the first that is left to visit stands where it should. */
    lemma StandsAt(bundle: ConnectBundle, todo: seq<ConnectData>)
      requires Valid() && bundle in hash && Suffix(bundle.connList, todo) && todo != []
      ensures todo[0] in bundle.connList && IndexIn(bundle.connList, todo[0]) == |bundle.connList| - |todo|
      ensures todo[0] in members && todo[0].bundle == bundle
      ensures var k := |bundle.connList| - |todo|; |todo| > 1 ==> bundle.connList[k + 1] == todo[1..][0]
    {
      hide All, BundlesOf, Addresses, Inv, NoDuplicates, IndexIn, PointBack;
      var n := IndexOf(hash, bundle);
      PartIsApart(View(), n);
      BundleIn(hash, members, n);
      FirstStands(bundle.connList, |bundle.connList| - |todo|);
    }

    /** The callback, seen from the bundles `rest` that are still to come. */
    method CallbackBefore(bundle: ConnectBundle, conn: ConnectData, act: Conn -> Reaction, ghost rest: seq<ConnectBundle>)
      returns (stop: bool)
      requires Valid() && bundle in hash && bundle !in rest && Suffix(hash, rest) && conn in members && conn.bundle == bundle
      modifies this`numConn, this`members, this`hash, hash, conn`bundle
      ensures Valid() && Suffix(hash, rest) && members <= old(members)
      ensures forall i :: 0 <= i < |hash| ==> hash[i] in old(hash)
      ensures BundlesOf(rest) == old(BundlesOf(rest))
      ensures conn in old(bundle.connList) && (bundle.connList != [] ==> bundle in hash)
      ensures bundle.connList == old(bundle.connList)
              || bundle.connList == Unlink(old(bundle.connList), IndexIn(old(bundle.connList), conn))
      ensures View() == React(old(View()), conn.address, act) && stop == act(conn.address).stop
    {
      hide All, Apart, Inv, Holds, PointBack, BundlesOf, Addresses, Unlink, IndexOf, IndexIn, React, NoDuplicates, Suffix;
      BeforeRest(hash, rest, bundle);
      RestInHash(hash, rest);
      stop := Callback(conn, act);
      assert forall i :: 0 <= i < |rest| ==> BundleOf(rest[i]) == old(BundleOf(rest[i]));
      assert BundlesOf(rest) == old(BundlesOf(rest));
    }

    /** One turn of the inner loop of `Curl_conncache_foreach`: the next connection is looked up before the callback is
        called. `rest` are the bundles still to come, `todo` the connections of this one, `conn` the first of them. */
    method VisitConn(bundle: ConnectBundle, conn: ConnectData, act: Conn -> Reaction, ghost rest: seq<ConnectBundle>,
                     ghost todo: seq<ConnectData>)
      returns (next: ConnectData?, stop: bool)
      requires Valid() && bundle in hash && bundle !in rest && Suffix(hash, rest)
      requires Suffix(bundle.connList, todo) && todo != [] && conn == todo[0]
      modifies this`numConn, this`members, this`hash, hash, conn`bundle
      ensures Valid() && Suffix(hash, rest) && members <= old(members) && conn in old(members)
      ensures forall i :: 0 <= i < |hash| ==> hash[i] in old(hash)
      ensures BundlesOf(rest) == old(BundlesOf(rest))
      ensures Suffix(bundle.connList, todo[1..]) && (|todo| > 1 ==> bundle in hash)
      ensures next == if |todo| == 1 then null else todo[1..][0]
      ensures View() == React(old(View()), conn.address, act) && stop == act(conn.address).stop
    {
      hide All, Apart, Inv, Holds, PointBack, BundlesOf, Addresses, Unlink, IndexOf, IndexIn, React, NoDuplicates, Suffix;
      StandsAt(bundle, todo);
      next := NextConn(bundle, conn);
      SuffixStep(bundle.connList, todo);
      SuffixFits(bundle.connList, todo);
      ghost var n := IndexIn(bundle.connList, conn);
      assert Suffix(Unlink(bundle.connList, n), todo[1..]);
      stop := CallbackBefore(bundle, conn, act, rest);
      SuffixFits(bundle.connList, todo[1..]);
    }

    /** The same with the visits so far: `goal` is what the whole walk comes to. */
    method VisitNext(bundle: ConnectBundle, conn: ConnectData, act: Conn -> Reaction, visited: seq<ConnectData>,
                     ghost rest: seq<ConnectBundle>, ghost todo: seq<ConnectData>, ghost tail: seq<Conn>,
                     ghost goal: (seq<Conn>, Cache, bool))
      returns (next: ConnectData?, stop: bool)
      requires Valid() && bundle in hash && bundle !in rest && Suffix(hash, rest)
      requires Suffix(bundle.connList, todo) && todo != [] && conn == todo[0] && conn in members
      requires Joined(Addresses(visited), Visit(View(), Addresses(todo) + tail, act)) == goal
      modifies this`numConn, this`members, this`hash, hash, conn`bundle
      ensures Valid() && Suffix(hash, rest) && members <= old(members)
      ensures forall i :: 0 <= i < |hash| ==> hash[i] in old(hash)
      ensures BundlesOf(rest) == old(BundlesOf(rest))
      ensures Suffix(bundle.connList, todo[1..]) && (|todo| > 1 ==> bundle in hash)
      ensures next == if |todo| == 1 then null else todo[1..][0]
      ensures Joined(Addresses(visited + [conn]), if stop then ([], View(), true) else Visit(View(), Addresses(todo[1..]) + tail, act))
              == goal
    {
      hide All, Apart, Inv, Holds, PointBack, BundlesOf, Addresses, Unlink, IndexOf, IndexIn, React, Visit, NoDuplicates,
        Joined, Suffix;
      VisitStep(View(), todo, tail, act);
      AddressesEnd(visited, conn);
      next, stop := VisitConn(bundle, conn, act, rest, todo);
      JoinedStep(Addresses(visited), conn.address,
                 if stop then ([], View(), true) else Visit(View(), Addresses(todo[1..]) + tail, act));
    }

    /** The inner loop; `tail` are the connections of the bundles still to come. */
    method WalkBundle(bundle: ConnectBundle, act: Conn -> Reaction, ghost rest: seq<ConnectBundle>, ghost tail: seq<Conn>)
      returns (visited: seq<ConnectData>, stopped: bool)
      requires Valid() && bundle in hash && bundle !in rest && Suffix(hash, rest)
      modifies this`numConn, this`members, this`hash, hash, members
      ensures Valid() && Suffix(hash, rest) && members <= old(members)
      ensures forall i :: 0 <= i < |hash| ==> hash[i] in old(hash)
      ensures BundlesOf(rest) == old(BundlesOf(rest))
      ensures Visit(old(View()), Addresses(old(bundle.connList)) + tail, act)
              == Joined(Addresses(visited), if stopped then ([], View(), true) else Visit(View(), tail, act))
    {
      hide All, Apart, Inv, Holds, PointBack, BundlesOf, Addresses, Unlink, IndexOf, IndexIn, React, Visit, NoDuplicates,
        Joined, Suffix;
      ghost var goal := Visit(View(), Addresses(bundle.connList) + tail, act);
      visited, stopped := [], false;
      var curr: ConnectData? := if |bundle.connList| > 0 then bundle.connList[0] else null;
      ghost var todo := bundle.connList;
      VisitStarts(View(), Addresses(todo) + tail, act);
      WholeSuffix(todo);
      while curr != null
        invariant Valid() && Suffix(hash, rest) && members <= old(members)
        invariant forall i :: 0 <= i < |hash| ==> hash[i] in old(hash)
        invariant BundlesOf(rest) == old(BundlesOf(rest))
        invariant Suffix(bundle.connList, todo) && (todo != [] ==> bundle in hash)
        invariant curr == if todo == [] then null else todo[0]
        invariant Joined(Addresses(visited), Visit(View(), Addresses(todo) + tail, act)) == goal
        decreases |todo|
      {
        var conn: ConnectData := curr;
        StandsAt(bundle, todo);
        curr, stopped := VisitNext(bundle, conn, act, visited, rest, todo, tail, goal);
        visited := visited + [conn];
        if stopped {
          return;
        }
        todo := todo[1..];
      }
      NoAddresses();
      assert [] + tail == tail;
    }

    /** What has been visited and what the walk would visit from here come to `goal` together. */
    ghost predicate ComesTo(visited: seq<ConnectData>, todo: seq<Conn>, act: Conn -> Reaction, goal: (seq<Conn>, Cache, bool))
      reads this, hash
    {
      Joined(Addresses(visited), Visit(View(), todo, act)) == goal
    }

    lemma ForEachStarts(act: Conn -> Reaction)
      ensures ComesTo([], All(BundlesOf(hash)), act, ConnBundles.ForEach(View(), act))
    {
      ForEachIs(View(), act);
      VisitStarts(View(), All(View().bundles), act);
    }

    lemma NothingLeft(visited: seq<ConnectData>, act: Conn -> Reaction, goal: (seq<Conn>, Cache, bool))
      requires ComesTo(visited, [], act, goal)
      ensures (Addresses(visited), View(), false) == goal
    {
      VisitNothing(View(), act);
      JoinedEnd(Addresses(visited), View(), false);
    }

    /** The walk of a bundle, seen from the bundles `rest` after it, with the visits so far: `goal` is what the whole walk
        comes to. */
    method WalkOn(bundle: ConnectBundle, act: Conn -> Reaction, before: seq<ConnectData>, ghost rest: seq<ConnectBundle>,
                  ghost goal: (seq<Conn>, Cache, bool))
      returns (visited: seq<ConnectData>, stopped: bool)
      requires Valid() && bundle in hash && bundle !in rest && Suffix(hash, rest)
      requires ComesTo(before, Addresses(bundle.connList) + All(BundlesOf(rest)), act, goal)
      modifies this`numConn, this`members, this`hash, hash, members
      ensures Valid() && Suffix(hash, rest) && members <= old(members)
      ensures forall i :: 0 <= i < |hash| ==> hash[i] in old(hash)
      ensures if stopped then (Addresses(visited), View(), true) == goal else ComesTo(visited, All(BundlesOf(rest)), act, goal)
    {
      hide All, Inv, Holds, PointBack, BundlesOf, Addresses, React, Visit, Suffix, Joined, Apart;
      var more;
      more, stopped := WalkBundle(bundle, act, rest, All(BundlesOf(rest)));
      visited := before + more;
      AddressesJoin(before, more);
      JoinedMore(Addresses(before), Addresses(more),
                 if stopped then ([], View(), true) else Visit(View(), All(BundlesOf(rest)), act));
      JoinedEnd(Addresses(visited), View(), true);
    }

    /** `Curl_conncache_foreach`. */
    method ForEach(act: Conn -> Reaction) returns (visited: seq<ConnectData>, aborted: bool)
      requires Valid()
      modifies this`numConn, this`members, this`hash, hash, members
      ensures Valid() && (Addresses(visited), View(), aborted) == ConnBundles.ForEach(old(View()), act)
    {
      hide All, Inv, Holds, PointBack, BundlesOf, Addresses, Unlink, IndexOf, React, Suffix, Apart, Head, ConnBundles.ForEach,
        ComesTo, NextElement;
      ghost var goal := ConnBundles.ForEach(View(), act);
      ForEachStarts(act);
      visited, aborted := [], false;
      var he: ConnectBundle? := Head(hash);
      ghost var rest := hash;
      WholeSuffix(hash);
      HeadMeans(rest);
      while he != null
        invariant Valid() && Suffix(hash, rest) && members <= old(members)
        invariant forall i :: 0 <= i < |hash| ==> hash[i] in old(hash)
        invariant he == Head(rest) && (he != null ==> rest != [] && rest[0] == he) && (he == null ==> rest == [])
        invariant ComesTo(visited, All(BundlesOf(rest)), act, goal)
        decreases |rest|
      {
        var bundle: ConnectBundle := he;
        FirstThenRest(rest);
        RestStands(hash, rest);
        he := NextElement(hash, bundle);   // before the walk, since the callback may make the bundle disappear
        rest := rest[1..];
        visited, aborted := WalkOn(bundle, act, visited, rest, goal);
        HeadMeans(rest);
        if aborted {
          return;
        }
      }
      AllTail(hash);
      NothingLeft(visited, act, goal);
    }

    lemma NoneLeft()
      requires Valid() && ConnBundles.FindFirst(View().bundles) == None
      ensures members == {}
    {
      hide Inv, Addresses, BundlesOf, ConnBundles.FindFirst;
      FirstIsFirst(View().bundles);
      forall c | c in members ensures false {
        var n := IndexOf(hash, c.bundle);
        InAddresses(hash[n].connList, c);
        BeforeIsIn(View().bundles, n, c.address);
      }
    }
  }

  /** `r` is the end of `s`. */
  predicate Suffix<T(==)>(s: seq<T>, r: seq<T>)
  {
    |r| <= |s| && s[|s| - |r|..] == r
  }

  lemma FirstStands(conns: seq<ConnectData>, n: nat)
    requires n < |conns| && NoDuplicates(Addresses(conns))
    ensures IndexIn(conns, conns[n]) == n
  {
    hide Addresses;
    var s, k := Addresses(conns), IndexIn(conns, conns[n]);
    assert s[k] == s[n];
  }

  lemma SuffixStep<T>(s: seq<T>, r: seq<T>)
    requires Suffix(s, r) && r != []
    ensures Suffix(s, r[1..]) && Suffix(Unlink(s, |s| - |r|), r[1..])
  {
  }

  lemma SuffixFits<T>(s: seq<T>, r: seq<T>)
    requires Suffix(s, r)
    ensures |r| <= |s|
  {
  }

  lemma WholeSuffix<T>(s: seq<T>)
    ensures Suffix(s, s)
  {
  }

  lemma RestInHash(hash: seq<ConnectBundle>, rest: seq<ConnectBundle>)
    requires Suffix(hash, rest)
    ensures forall b :: b in rest ==> b in hash
  {
  }

  /** The first element of the walk. */
  function Head(hash: seq<ConnectBundle>): ConnectBundle?
  {
    if |hash| > 0 then hash[0] else null
  }

  lemma HeadMeans(hash: seq<ConnectBundle>)
    ensures Head(hash) == null <==> hash == []
    ensures hash != [] ==> Head(hash) == hash[0]
  {
  }

  /** `Curl_hash_next_element`, from the element at which the iterator stands. */
  function NextElement(hash: seq<ConnectBundle>, current: ConnectBundle): ConnectBundle?
  {
    var n := IndexOf(hash, current) + 1;
    if n < |hash| then hash[n] else null
  }

  lemma RestStands(hash: seq<ConnectBundle>, rest: seq<ConnectBundle>)
    requires Suffix(hash, rest) && rest != [] && Apart(hash)
    ensures rest[0] in hash && rest[0] !in rest[1..] && Suffix(hash, rest[1..])
    ensures NextElement(hash, rest[0]) == Head(rest[1..])
  {
    var n := |hash| - |rest|;
    assert hash[n] == rest[0];
    assert forall i :: 0 <= i < |rest| - 1 ==> rest[1..][i] == hash[n + 1 + i];
  }

  lemma JoinedMore(a: seq<Conn>, b: seq<Conn>, rest: (seq<Conn>, Cache, bool))
    ensures Joined(a, Joined(b, rest)) == Joined(a + b, rest)
  {
    assert a + (b + rest.0) == a + b + rest.0;
  }

  lemma ForEachIs(c: Cache, act: Conn -> Reaction)
    ensures ConnBundles.ForEach(c, act) == Visit(c, All(c.bundles), act)
  {
  }

  lemma JoinedEnd(a: seq<Conn>, c: Cache, stopped: bool)
    ensures Joined(a, ([], c, stopped)) == (a, c, stopped)
  {
    assert a + [] == a;
  }

  lemma AddressesJoin(a: seq<ConnectData>, b: seq<ConnectData>)
    ensures Addresses(a + b) == Addresses(a) + Addresses(b)
  {
  }

  lemma VisitNothing(c: Cache, act: Conn -> Reaction)
    ensures Visit(c, [], act) == ([], c, false)
  {
  }

  lemma BeforeRest(hash: seq<ConnectBundle>, rest: seq<ConnectBundle>, b: ConnectBundle)
    requires Suffix(hash, rest) && b in hash && b !in rest
    ensures IndexOf(hash, b) < |hash| - |rest| && Suffix(Unlink(hash, IndexOf(hash, b)), rest)
  {
    assert forall i :: |hash| - |rest| <= i < |hash| ==> hash[i] == rest[i - (|hash| - |rest|)] && hash[i] in rest;
  }

  lemma VisitStep(c: Cache, todo: seq<ConnectData>, tail: seq<Conn>, act: Conn -> Reaction)
    requires todo != []
    ensures var x := todo[0].address;
            var d := React(c, x, act);
            Visit(c, Addresses(todo) + tail, act)
            == Joined([x], if act(x).stop then ([], d, true) else Visit(d, Addresses(todo[1..]) + tail, act))
  {
    hide React, Visit;
    assert Addresses(todo) + tail == [todo[0].address] + (Addresses(todo[1..]) + tail);
    VisitOne(c, todo[0].address, Addresses(todo[1..]) + tail, act);
  }

  lemma JoinedStep(a: seq<Conn>, x: Conn, rest: (seq<Conn>, Cache, bool))
    ensures Joined(a, Joined([x], rest)) == Joined(a + [x], rest)
  {
    assert a + ([x] + rest.0) == a + [x] + rest.0;
  }

  lemma MemberIsListed(hash: seq<ConnectBundle>, members: set<ConnectData>, c: ConnectData)
    requires PointBack(hash, members) && c in members
    ensures c.bundle != null && c.bundle in hash && c in c.bundle.connList
  {
  }

  lemma VisitStarts(c: Cache, todo: seq<Conn>, act: Conn -> Reaction)
    ensures Joined(Addresses([]), Visit(c, todo, act)) == Visit(c, todo, act)
  {
    hide Visit;
    assert [] + Visit(c, todo, act).0 == Visit(c, todo, act).0;
  }

  lemma FirstThenRest(rest: seq<ConnectBundle>)
    requires rest != []
    ensures All(BundlesOf(rest)) == Addresses(rest[0].connList) + All(BundlesOf(rest[1..]))
  {
    hide BundlesOf, All, Addresses;
    assert rest[0..] == rest;
    NextBundle(rest, 0);
  }

  lemma FirstStep(hash: seq<ConnectBundle>, n: nat)
    requires n < |hash|
    ensures ConnBundles.FindFirst(BundlesOf(hash[n..])) ==
            if hash[n].connList != [] then Some(hash[n].connList[0].address) else ConnBundles.FindFirst(BundlesOf(hash[n + 1..]))
  {
    assert hash[n..][1..] == hash[n + 1..];
    var bs := BundlesOf(hash[n..]);
    assert bs[1..] == BundlesOf(hash[n + 1..]);
  }

  lemma NoBundles()
    ensures ConnBundles.FindFirst(BundlesOf([])) == None
  {
  }

  lemma CloseStep(c: Cache, x: Conn)
    requires ConnBundles.FindFirst(c.bundles) == Some(x)
    ensures var d := ConnBundles.RemoveConn(c, x); CloseAll(c) == ([x] + CloseAll(d).0, CloseAll(d).1)
  {
    hide ConnBundles.RemoveConn, ConnBundles.FindFirst;
  }

  lemma Regroup(a: seq<Conn>, x: Conn, b: seq<Conn>)
    ensures a + ([x] + b) == a + [x] + b
  {
  }

  lemma NothingClosed(c: Cache)
    ensures Addresses([]) + CloseAll(c).0 == CloseAll(c).0
  {
    hide CloseAll;
  }

  lemma CloseEnd(c: Cache, closed: seq<Conn>)
    requires ConnBundles.FindFirst(c.bundles) == None
    ensures (closed + CloseAll(c).0, CloseAll(c).1) == (closed, c)
  {
    assert closed + [] == closed;
  }

  lemma BundleIn(hash: seq<ConnectBundle>, members: set<ConnectData>, n: nat)
    requires PointBack(hash, members) && n < |hash|
    ensures forall c :: c in hash[n].connList ==> c in members && c.bundle == hash[n]
  {
    assert Within(hash[n], members) && Holds(hash[n]);
  }

  lemma {:induction false} AllCovered(hash: seq<ConnectBundle>, score: map<Conn, int>, now: int)
    requires forall b :: b in hash ==> Scores(score, b.connList, now, true)
    ensures Covered(All(BundlesOf(hash)), score)
    decreases |hash|
  {
    hide Scores, Addresses;
    if hash != [] {
      ScoresCover(score, hash[0].connList, now, true);
      AllCovered(hash[1..], score, now);
      NextBundle(hash, 0);
      assert hash[0..] == hash;
    }
  }

  lemma AllTail(hash: seq<ConnectBundle>)
    ensures hash[0..] == hash && hash[|hash|..] == [] && All(BundlesOf([])) == []
  {
  }

  lemma NextBundle(hash: seq<ConnectBundle>, n: nat)
    requires n < |hash|
    ensures All(BundlesOf(hash[n..])) == Addresses(hash[n].connList) + All(BundlesOf(hash[n + 1..]))
  {
    hide Addresses;
    assert hash[n..][1..] == hash[n + 1..];
    var bs := BundlesOf(hash[n..]);
    assert bs[1..] == BundlesOf(hash[n + 1..]);
  }

  lemma NoAddresses()
    ensures Addresses([]) == []
  {
  }

  lemma SomeAddresses(conns: seq<ConnectData>)
    requires conns != []
    ensures Addresses(conns) != []
  {
  }

  lemma RemoveIs(c: Cache, x: Conn, n: nat)
    requires n < |c.bundles| && Holder(c.bundles, x) == n
    ensures var d := Extract(c, x);
            && |d.bundles| == |c.bundles|
            && ConnBundles.RemoveConn(c, x) == if d.bundles[n].conns == [] then Dropped(d, n) else d
  {
  }

  lemma PointBackMeans(hash: seq<ConnectBundle>, members: set<ConnectData>)
    requires PointBack(hash, members)
    ensures forall b :: b in hash ==> Holds(b)
    ensures forall c :: c in members ==> c.bundle != null && c.bundle in hash
  {
  }

  lemma EmptyIsUnneeded(hash: seq<ConnectBundle>, members: set<ConnectData>, n: nat)
    requires PointBack(hash, members) && Apart(hash) && n < |hash| && hash[n].connList == []
    ensures PointBack(Unlink(hash, n), members)
  {
    hide Apart, Holds;
    UnlinkedApart(hash, n);
  }

  lemma UnlinkedBundles(hash: seq<ConnectBundle>, n: nat)
    requires n < |hash|
    ensures BundlesOf(Unlink(hash, n)) == BundlesOf(hash)[..n] + BundlesOf(hash)[n + 1..]
  {
    BundlesSplit(hash[..n], hash[n + 1..]);
  }

  lemma UnlinkedApart(hash: seq<ConnectBundle>, n: nat)
    requires n < |hash| && Apart(hash)
    ensures Apart(Unlink(hash, n)) && forall b :: b in Unlink(hash, n) <==> b in hash && b != hash[n]
  {
    forall b | b in hash && b != hash[n] ensures b in Unlink(hash, n) {
      var j :| 0 <= j < |hash| && hash[j] == b;
      assert Unlink(hash, n)[if j < n then j else j - 1] == b;
    }
  }

  lemma FewerConnections(b: ConnectBundle)
    requires b.numConnections == |b.connList| && forall c :: c in b.connList ==> c.bundle == b
    ensures Holds(b)
  {
  }

  lemma InAddresses(conns: seq<ConnectData>, c: ConnectData)
    requires c in conns
    ensures c.address in Addresses(conns)
  {
    var i :| 0 <= i < |conns| && conns[i] == c;
    assert Addresses(conns)[i] == c.address;
  }

  lemma InvApart(c: Cache)
    requires Inv(c)
    ensures NoDuplicates(All(c.bundles))
  {
  }

  lemma PartIsApart(c: Cache, n: nat)
    requires Inv(c) && n < |c.bundles|
    ensures NoDuplicates(c.bundles[n].conns)
  {
    hide All;
    AllAround(c.bundles, n, c.bundles[n]);
    MiddleApart(All(c.bundles[..n]), c.bundles[n].conns, All(c.bundles[n + 1..]));
  }

  lemma MiddleApart(a: seq<Conn>, b: seq<Conn>, c: seq<Conn>)
    requires NoDuplicates(a + b + c)
    ensures NoDuplicates(b)
  {
    forall i, j | 0 <= i < j < |b| ensures b[i] != b[j] {
      assert (a + b + c)[|a| + i] == b[i] && (a + b + c)[|a| + j] == b[j];
    }
  }

  lemma ExtractIs(c: Cache, x: Conn, n: nat)
    requires n < |c.bundles| && Holder(c.bundles, x) == n
    ensures var b := c.bundles[n];
            Extract(c, x) == Cache(c.bundles[n := b.(conns := Without(b.conns, x))], c.numConn - 1, c.nextId)
  {
  }

  lemma OneMoreConnection(b: ConnectBundle, before: seq<ConnectData>, c: ConnectData)
    requires b.connList == before + [c] && b.numConnections == |before| + 1 && c.bundle == b
    requires forall x :: x in before ==> x.bundle == b
    ensures Holds(b)
  {
  }

  lemma HoldsMeans(b: ConnectBundle)
    requires Holds(b)
    ensures b.numConnections == |b.connList| && forall c :: c in b.connList ==> c.bundle == b
  {
  }

  lemma NewBundleIs(c: Cache, x: Conn, key: Key, at: nat)
    requires at <= |c.bundles| && IndexOfKey(c.bundles, key) == |c.bundles|
    ensures ConnBundles.AddConn(c, x, key, at).bundles == c.bundles[..at] + [Bundle(key, [x])] + c.bundles[at..]
  {
  }

  lemma AddCounts(c: Cache, x: Conn, key: Key, at: nat)
    requires at <= |c.bundles|
    ensures var d := ConnBundles.AddConn(c, x, key, at); d.numConn == c.numConn + 1 && d.nextId == c.nextId + 1
  {
  }

  lemma OneConnection(b: ConnectBundle, c: ConnectData)
    requires b.connList == [c] && b.numConnections == 1 && c.bundle == b
    ensures BundleOf(b) == Bundle(b.key, [c.address]) && Holds(b)
  {
    assert Addresses([c]) == [c.address];
  }

  lemma AddressesEnd(conns: seq<ConnectData>, c: ConnectData)
    ensures Addresses(conns + [c]) == Addresses(conns) + [c.address]
  {
  }

  lemma KeyIndexIs(bundles: seq<Bundle>, key: Key, n: nat)
    requires n <= |bundles| && (forall i :: 0 <= i < n ==> bundles[i].key != key) && (n < |bundles| ==> bundles[n].key == key)
    ensures IndexOfKey(bundles, key) == n
  {
  }
}
