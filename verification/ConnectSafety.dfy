/** What every Happy Eyeballs run keeps: each opened socket is in exactly one place, whatever the outcome of attempts and
    polls is (curl/lib/connect.c). */
module ConnectSafety {
  import opened CString
  import opened Connect

  // ---------- sockets are conserved ----------

  function Is(s: Option<nat>, k: nat): nat
  {
    if s == Some(k) then 1 else 0
  }

  /** In how many places socket `k` is: closed (each time counts), in a slot, or the connected one. */
  function Places(c: Conn, k: nat): nat
    requires Shaped(c)
  {
    multiset(c.closed)[k] + Is(c.tempsock[0], k) + Is(c.tempsock[1], k) + Is(c.sock, k)
  }

  /** Every opened socket is in exactly one place, and so never closed twice. */
  ghost predicate Conserved(c: Conn)
  {
    Shaped(c) && forall k: nat :: Places(c, k) == if k < c.created then 1 else 0
  }

  /** From `a` to `b` sockets only change places, except that new ones appear once. */
  ghost predicate Moves(a: Conn, b: Conn)
  {
    && Shaped(a) && Shaped(b) && a.created <= b.created
    && forall k: nat :: Places(b, k) == Places(a, k) + if a.created <= k < b.created then 1 else 0
  }

  lemma MovesTwice(a: Conn, b: Conn, c: Conn)
    requires Moves(a, b) && Moves(b, c)
    ensures Moves(a, c)
  {
    hide Places;
  }

  lemma SinglePlaces(c: Conn, i: nat, o: nat -> Attempt, k: nat)
    requires Shaped(c) && i < 2 && c.tempaddr[i] < |c.family| && c.tempsock[i].None?
    ensures var r := Single(c, i, o).0;
            Places(r, k) == Places(c, k) + if c.created <= k < r.created then 1 else 0
  {
    OneMoreClosed(c.closed, c.created, k);
  }

  lemma OneMoreClosed(closed: seq<nat>, x: nat, k: nat)
    ensures multiset(closed + [x])[k] == multiset(closed)[k] + if x == k then 1 else 0
  {
  }

  lemma SingleMoves(c: Conn, i: nat, o: nat -> Attempt)
    requires Shaped(c) && i < 2 && c.tempaddr[i] < |c.family| && c.tempsock[i].None?
    ensures var (r, code) := Single(c, i, o);
            && Moves(c, r) && r.sock == c.sock && r.tempsock[1 - i] == c.tempsock[1 - i]
            && (code != OK ==> r.tempsock[i].None?)
  {
    forall k: nat {
      SinglePlaces(c, i, o, k);
    }
  }

  lemma OnlyAddressesMove(a: Conn, b: Conn)
    requires Shaped(a) && Shaped(b)
    requires a.closed == b.closed && a.tempsock == b.tempsock && a.sock == b.sock && a.created == b.created
    ensures Moves(a, b)
  {
  }

  lemma {:induction false} TryFromMoves(c: Conn, i: nat, o: nat -> Attempt)
    requires Shaped(c) && i < 2 && c.tempsock[i].None?
    ensures var r := TryFrom(c, i, o).0;
            Moves(c, r) && r.sock == c.sock && r.tempsock[1 - i] == c.tempsock[1 - i]
    decreases |c.family| - c.tempaddr[i]
  {
    hide Places, Moves, Single;
    OnlyAddressesMove(c, c);
    if c.tempaddr[i] < |c.family| {
      SingleMoves(c, i, o);
      var (c1, code) := Single(c, i, o);
      if code == COULDNT_CONNECT {
        SingleAddresses(c, i, o);
        var c2 := Ainext(c1, i, true);
        OnlyAddressesMove(c1, c2);
        TryFromMoves(c2, i, o);
        MovesTwice(c, c1, c2);
        MovesTwice(c, c2, TryFrom(c2, i, o).0);
      }
    }
  }

  lemma SingleAddresses(c: Conn, i: nat, o: nat -> Attempt)
    requires Shaped(c) && i < 2 && c.tempaddr[i] < |c.family|
    ensures var (r, code) := Single(c, i, o);
            && r.tempaddr == c.tempaddr && r.family == c.family && r.tempfamily == c.tempfamily
            && r.parallel == c.parallel && r.timeouts == c.timeouts
            && r.log == c.log + [(i, c.tempaddr[i])]
  {
  }

  lemma TakeOutAndClose(c: Conn, i: nat, k: nat, r: Conn)
    requires Shaped(c) && i < 2 && Shaped(r)
    ensures Places(c.(tempsock := c.tempsock[i := None]), k) + Is(c.tempsock[i], k) == Places(c, k)
    ensures Places(CloseIf(r, c.tempsock[i]), k) == Places(r, k) + Is(c.tempsock[i], k)
  {
  }

  lemma TryNextMoves(c: Conn, first: bool, i: nat, o: nat -> Attempt)
    requires Shaped(c) && i < 2
    ensures var r := TryNextIp(c, first, i, o).0;
            Moves(c, r) && r.sock == c.sock && r.tempsock[1 - i] == c.tempsock[1 - i]
  {
    hide Places, TryFrom;
    var c1 := c.(tempsock := c.tempsock[i := None]);
    TryFromMoves(c1, i, o);
    OnlyAddressesMove(c1, c1);
    var r := if first then TryFrom(c1, i, o).0 else c1;
    forall k: nat {
      TakeOutAndClose(c, i, k, r);
    }
  }

  lemma {:induction false} HostLoopMoves(c: Conn, i: nat, result: int, o: nat -> Attempt)
    requires Shaped(c) && i < 2 && c.tempsock[i].None? && result != OK
    ensures var (r, code) := HostLoop(c, i, result, o);
            && Moves(c, r) && r.sock == c.sock && r.tempsock[1 - i] == c.tempsock[1 - i]
    decreases |c.family| - c.tempaddr[i]
  {
    hide Places, Moves, Single;
    OnlyAddressesMove(c, c);
    if c.tempaddr[i] < |c.family| {
      SingleMoves(c, i, o);
      var (c1, code) := Single(c, i, o);
      if code != OK {
        SingleAddresses(c, i, o);
        var c2 := Ainext(c1, i, true);
        OnlyAddressesMove(c1, c2);
        HostLoopMoves(c2, i, code, o);
        MovesTwice(c, c1, c2);
        MovesTwice(c, c2, HostLoop(c2, i, code, o).0);
      }
    }
  }

  lemma ConnectHostMoves(c: Conn, version: IpVersion, timeout: int, o: nat -> Attempt)
    requires Shaped(c) && c.family != [] && timeout >= 0 && c.tempsock == [None, None]
    ensures Moves(c, ConnectHost(c, version, timeout, o).0)
    ensures ConnectHost(c, version, timeout, o).0.sock == c.sock
  {
    hide Places, Moves, HostLoop;
    var c0 := Prepare(c, version, timeout);
    OnlyAddressesMove(c, c0);
    HostLoopMoves(c0, 0, COULDNT_CONNECT, o);
    var (c1, code) := HostLoop(c0, 0, COULDNT_CONNECT, o);
    MovesTwice(c, c0, c1);
    if code != OK {
      HostLoopMoves(c1, 1, code, o);
      MovesTwice(c, c1, HostLoop(c1, 1, code, o).0);
    }
  }

  lemma WinMoves(c: Conn, i: nat)
    requires Shaped(c) && i < 2 && c.sock.None?
    ensures Moves(c, Win(c, i)) && Win(c, i).tempsock == [None, None] && Win(c, i).sock == c.tempsock[i]
  {
  }

  lemma NextAddressMoves(c: Conn, first: bool, i: nat, result: int, allow: int, o: nat -> Attempt)
    requires Shaped(c) && i < 2 && c.tempaddr[i] < |c.family|
    ensures Moves(c, NextAddress(c, first, i, result, allow, o).0)
    ensures NextAddress(c, first, i, result, allow, o).0.sock == c.sock
  {
    hide Places, Moves, TryNextIp;
    var t := if c.tempaddr[i] + 1 == |c.family| then allow else Half(allow);
    var c1 := Ainext(c.(timeouts := c.timeouts[i := t]), i, true);
    OnlyAddressesMove(c, c1);
    TryNextMoves(c1, first, i, o);
    MovesTwice(c, c1, TryNextIp(c1, first, i, o).0);
  }

  lemma AfterPollMoves(c: Conn, first: bool, i: nat, result: int, failed: bool, allow: int, o: nat -> Attempt)
    requires Shaped(c) && i < 2
    ensures var r := AfterPoll(c, first, i, result, failed, allow, o);
            r.GoOn? && Moves(c, r.c) && r.c.sock == c.sock
  {
    hide Places, Moves, NextAddress;
    OnlyAddressesMove(c, c);
    if failed && c.tempaddr[i] < |c.family| {
      NextAddressMoves(c, first, i, result, allow, o);
    }
  }

  lemma SlotMoves(c: Conn, first: bool, i: nat, result: int, e: Input, o: nat -> Attempt)
    requires Shaped(c) && i < 2 && c.sock.None?
    ensures var r := Slot(c, first, i, result, e, o);
            && Moves(c, r.c)
            && (r.GoOn? ==> r.c.sock.None?)
            && (r.Connected? ==> r.c.sock.Some? && r.c.tempsock == [None, None])
  {
    hide Places, Moves, TryNextIp, AfterPoll, Win;
    OnlyAddressesMove(c, c);
    if c.tempsock[i].Some? {
      match e.poll[i]
      case Writable(error) =>
        WinMoves(c, i);
        AfterPollMoves(c, first, i, result, true, e.allow, o);
      case Errored(error) =>
        AfterPollMoves(c, first, i, result, error != 0, e.allow, o);
      case NotYet =>
        var c0 := c.(parallel := true);
        OnlyAddressesMove(c, c0);
        TryNextMoves(c0, first, 1, o);
        MovesTwice(c, c0, TryNextIp(c0, first, 1, o).0);
        var c1 := if i == 0 && !c.parallel && e.happy then TryNextIp(c0, first, 1, o).0 else c;
        AfterPollMoves(c1, first, i, result, e.elapsed[i] >= c.timeouts[i], e.allow, o);
        MovesTwice(c, c1, AfterPoll(c1, first, i, result, e.elapsed[i] >= c.timeouts[i], e.allow, o).c);
    }
  }

  lemma IsConnectedMoves(c: Conn, first: bool, e: Input, o: nat -> Attempt)
    requires Shaped(c) && c.sock.None?
    ensures var (r, v) := IsConnected(c, first, e, o);
            && Moves(c, r)
            && (if v.Won? then r.sock.Some? && r.tempsock == [None, None] else r.sock.None?)
  {
    hide Places, Moves, Slot, TryNextIp;
    SlotMoves(c, first, 0, OK, e, o);
    var s0 := Slot(c, first, 0, OK, e, o);
    if s0.GoOn? {
      SlotMoves(s0.c, first, 1, s0.result, e, o);
      var s1 := Slot(s0.c, first, 1, s0.result, e, o);
      MovesTwice(c, s0.c, s1.c);
      TryNextMoves(s1.c, first, 1, o);
      MovesTwice(c, s1.c, TryNextIp(s1.c, first, 1, o).0);
    }
  }

  lemma {:induction false} RaceMoves(c: Conn, first: bool, events: seq<Input>, o: nat -> Attempt)
    requires Shaped(c) && c.sock.None?
    ensures var (r, v) := Race(c, first, events, o);
            && Moves(c, r)
            && (if v.Won? then r.sock.Some? && r.tempsock == [None, None] else r.sock.None?)
    decreases |events|
  {
    hide Places, Moves, IsConnected;
    OnlyAddressesMove(c, c);
    if events != [] {
      IsConnectedMoves(c, first, events[0], o);
      var (c1, v) := IsConnected(c, first, events[0], o);
      if v.StillTrying? {
        RaceMoves(c1, first, events[1..], o);
        MovesTwice(c, c1, Race(c1, first, events[1..], o).0);
      }
    }
  }

  // ---------- the whole run ----------

  /** A connection before `Curl_connecthost`, with the addresses the resolver found. */
  predicate Fresh(c: Conn)
  {
    && Shaped(c) && c.family != [] && c.tempsock == [None, None] && c.sock.None?
    && c.created == 0 && c.closed == [] && c.log == []
  }

  function Connection(c: Conn, first: bool, version: IpVersion, timeout: int, events: seq<Input>, o: nat -> Attempt)
    : (Conn, Verdict)
    requires Fresh(c) && timeout >= 0
  {
    var (c1, code) := ConnectHost(c, version, timeout, o);
    if code == OK then Race(c1, first, events, o) else (c1, NoMore(code))
  }

  lemma ConnectionMoves(c: Conn, first: bool, version: IpVersion, timeout: int, events: seq<Input>, o: nat -> Attempt)
    requires Fresh(c) && timeout >= 0
    ensures var (r, v) := Connection(c, first, version, timeout, events, o);
            && Moves(c, r)
            && (if v.Won? then r.sock.Some? && r.tempsock == [None, None] else r.sock.None?)
  {
    hide ConnectHost, Race, Moves;
    ConnectHostMoves(c, version, timeout, o);
    var (c1, code) := ConnectHost(c, version, timeout, o);
    if code == OK {
      RaceMoves(c1, first, events, o);
      MovesTwice(c, c1, Race(c1, first, events, o).0);
    }
  }

  lemma WinnerIsTheOnlyOneOpen(c: Conn)
    requires Conserved(c) && c.sock.Some? && c.tempsock == [None, None]
    ensures c.sock.value < c.created && multiset(c.closed)[c.sock.value] == 0
    ensures forall k: nat :: k < c.created && k != c.sock.value ==> multiset(c.closed)[k] == 1
  {
    assert Places(c, c.sock.value) == if c.sock.value < c.created then 1 else 0;
    forall k: nat | k < c.created && k != c.sock.value ensures multiset(c.closed)[k] == 1 {
      assert Places(c, k) == 1;
    }
  }

  /** Whatever attempts and polls turn out to be, every socket is in one place at any time, and a winner is
      the only open one. */
  lemma SocketsAreConserved(c: Conn, first: bool, version: IpVersion, timeout: int, events: seq<Input>, o: nat -> Attempt)
    requires Fresh(c) && timeout >= 0
    ensures var (r, v) := Connection(c, first, version, timeout, events, o);
            && Conserved(r)
            && (v.Won? ==> r.sock.Some? && r.tempsock == [None, None] && multiset(r.closed)[r.sock.value] == 0
                           && forall k: nat :: k < r.created && k != r.sock.value ==> multiset(r.closed)[k] == 1)
            && (!v.Won? ==> r.sock.None?)
  {
    hide Connection;
    var (r, v) := Connection(c, first, version, timeout, events, o);
    ConnectionMoves(c, first, version, timeout, events, o);
    assert forall k: nat :: Places(c, k) == 0;
    assert Conserved(r);
    if v.Won? {
      WinnerIsTheOnlyOneOpen(r);
    }
  }
}
