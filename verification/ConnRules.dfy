/** What the operations of the connection cache leave, written out bundle by bundle (curl/lib/conncache.c). */
module ConnRules {
  import opened CString
  import opened ConnBundles

  lemma IndexIs(f: seq<Bundle>, b: Bundle, g: seq<Bundle>)
    requires KeysApart(f + [b] + g)
    ensures IndexOfKey(f + [b] + g, b.key) == |f|
  {
    hide IndexOfKey;
    var s := f + [b] + g;
    assert s[|f|] == b;
    var i := IndexOfKey(s, b.key);
    assert i < |s|;
  }

  /** A connection goes to the end of the bundle of its key; without one a bundle of its own is put among the others. */
  lemma AddRule(f: seq<Bundle>, b: Bundle, g: seq<Bundle>, numConn: int, nextId: nat, x: Conn, key: Key, at: nat)
    requires at <= |f + [b] + g|
    ensures KeysApart(f + [b] + g) ==>
              AddConn(Cache(f + [b] + g, numConn, nextId), x, b.key, at) ==
              Cache(f + [Bundle(b.key, b.conns + [x])] + g, numConn + 1, nextId + 1)
    ensures (forall a :: a in f + g ==> a.key != key) ==>
              AddConn(Cache(f + g, numConn, nextId), x, key, |f|) ==
              Cache(f + [Bundle(key, [x])] + g, numConn + 1, nextId + 1)
  {
    hide IndexOfKey;
    if KeysApart(f + [b] + g) {
      IndexIs(f, b, g);
    }
    assert (f + g)[..|f|] == f && (f + g)[|f|..] == g;
  }

  lemma HolderIs(f: seq<Bundle>, b: Bundle, g: seq<Bundle>, x: Conn)
    requires x in b.conns && x !in All(f)
    ensures Holder(f + [b] + g, x) == |f|
    decreases |f|
  {
    var s := f + [b] + g;
    if f != [] {
      assert s[0] == f[0] && s[1..] == f[1..] + [b] + g;
      HolderIs(f[1..], b, g, x);
    }
  }

  lemma WithoutIs(a: seq<Conn>, x: Conn, z: seq<Conn>)
    requires x !in a
    ensures Without(a + [x] + z, x) == a + z
  {
    hide Position;
    var s := a + [x] + z;
    assert s[|a|] == x && s[..|a|] == a && s[|a| + 1..] == z;
    assert forall i :: 0 <= i < |a| ==> s[i] in a;
    PositionIs(s, x, |a|);
  }

  lemma OnlyThere(f: seq<Bundle>, key: Key, a: seq<Conn>, x: Conn, z: seq<Conn>, g: seq<Bundle>)
    requires NoDuplicates(All(f + [Bundle(key, a + [x] + z)] + g))
    ensures x !in All(f) && x !in a
  {
    var b := Bundle(key, a + [x] + z);
    assert f + [b] + g == f + ([b] + g) && ([b] + g)[1..] == g;
    AllSplit(f, [b] + g);
    var s := All(f + [b] + g);
    assert All([b] + g) == b.conns + All(g);
    assert s == All(f) + (b.conns + All(g));
    var k := |All(f)| + |a|;
    assert s[k] == x;
    hide All;
    assert forall i :: 0 <= i < |All(f)| ==> All(f)[i] == s[i];
    assert forall i :: 0 <= i < |a| ==> a[i] == s[|All(f)| + i];
  }

  /** A connection that leaves leaves its bundle only, the others there keep their order; the counter goes down by one.
      Removing it takes the bundle away with the last connection, extracting it does not. */
  lemma LeaveRule(f: seq<Bundle>, key: Key, a: seq<Conn>, x: Conn, z: seq<Conn>, g: seq<Bundle>, numConn: int, nextId: nat)
    requires Inv(Cache(f + [Bundle(key, a + [x] + z)] + g, numConn, nextId))
    ensures var c := Cache(f + [Bundle(key, a + [x] + z)] + g, numConn, nextId);
            && Extract(c, x) == Cache(f + [Bundle(key, a + z)] + g, numConn - 1, nextId)
            && RemoveConn(c, x) ==
               Cache(if a == z == [] then f + g else f + [Bundle(key, a + z)] + g, numConn - 1, nextId)
  {
    var b := Bundle(key, a + [x] + z);
    var c := Cache(f + [b] + g, numConn, nextId);
    OnlyThere(f, key, a, x, z, g);
    HolderIs(f, b, g, x);
    WithoutIs(a, x, z);
    hide Inv, Holder, Without, All;
    Replaced(f, b, Bundle(key, a + z), g);
  }

  lemma Replaced(f: seq<Bundle>, b: Bundle, d: Bundle, g: seq<Bundle>)
    ensures var s, t := f + [b] + g, f + [d] + g;
            && s[|f|] == b && t[|f|] == d && s[|f| := d] == t && t[..|f|] == f && t[|f| + 1..] == g
  {
  }

  /** A connection in no bundle changes nothing. */
  lemma StrangerRule(c: Cache, x: Conn)
    requires forall i :: 0 <= i < |c.bundles| ==> x !in c.bundles[i].conns
    ensures Extract(c, x) == c && RemoveConn(c, x) == c
  {
    hide Holder;
    assert Holder(c.bundles, x) == |c.bundles|;
  }
}
