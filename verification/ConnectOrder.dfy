/** In which order addresses are tried, which are tried again, and when a connection gives up or stalls
    (curl/lib/connect.c), whatever the outcome of the attempts is. */
module ConnectOrder {
  import opened CString
  import opened Connect
  import opened ConnectLog
  import opened ConnectSafety

  predicate Of(r: Run, c: Conn)
  {
    Shaped(c) && r.family == c.family && r.fams == c.tempfamily
  }

  /** Slot `i` stands on the address it waits for, or else on the one due. */
  predicate Stands(r: Run, c: Conn, i: nat)
  {
    && Of(r, c) && i < 2
    && match c.tempsock[i]
       case None => c.tempaddr[i] == Due(r, c.log, i)
       case Some(_) =>
         var x := Last(c.log, i);
         x.Some? && c.log[x.value].1 == c.tempaddr[i] && r.o(x.value).Pending?
  }

  // ---------- one attempt ----------

  /** What stays the same of slot `i` while the other one moves. */
  predicate SameSlot(a: Conn, b: Conn, i: nat)
  {
    && Shaped(a) && Shaped(b) && i < 2
    && a.family == b.family && a.tempfamily == b.tempfamily
    && a.tempaddr[i] == b.tempaddr[i] && a.tempsock[i] == b.tempsock[i]
    && Last(a.log, i) == Last(b.log, i)
    && (Last(a.log, i).Some? ==> a.log[Last(a.log, i).value] == b.log[Last(a.log, i).value])
  }

  lemma SameSlotStands(r: Run, a: Conn, b: Conn, i: nat)
    requires SameSlot(a, b, i) && Stands(r, a, i)
    ensures Stands(r, b, i) && Stuck(r, b.log, i) == Stuck(r, a.log, i)
  {
    hide Last;
  }

  lemma SameSlotTwice(a: Conn, b: Conn, c: Conn, i: nat)
    requires SameSlot(a, b, i) && SameSlot(b, c, i)
    ensures SameSlot(a, c, i)
  {
    hide Last;
  }

  /** An attempt of slot `i` is the due one; a retry if the slot was stuck, which slot 0 never is. */
  lemma SingleWalks(r: Run, c: Conn, i: nat)
    requires Stands(r, c, i) && LogInv(r, c.log) && c.tempsock[i].None? && c.tempaddr[i] < |c.family|
    requires Stuck(r, c.log, i) ==> i == 1 && !StuckAgain(r, c.log, i)
    ensures var (d, code) := Single(c, i, r.o);
            && LogInv(r, d.log) && SameSlot(c, d, 1 - i) && Of(r, d)
            && Last(d.log, i) == Some(|c.log|) && d.log[|c.log|] == (i, c.tempaddr[i]) && d.log == c.log + [(i, c.tempaddr[i])]
            && Retry(r, d.log, |c.log|) == Stuck(r, c.log, i)
            && d.tempaddr == c.tempaddr && d.parallel == c.parallel
            && d.tempsock[i].Some? == r.o(|c.log|).Pending?
            && code == if r.o(|c.log|).Pending? then OK else r.o(|c.log|).code
  {
    hide Walk, FewRetries, Due, Last, Stuck, StuckAgain;
    var e := (i, c.tempaddr[i]);
    SingleAddresses(c, i, r.o);
    WalkAppend(r, c.log, e);
    FewRetriesAppend(r, c.log, e);
    LastAppend(c.log, e, i);
    LastAppend(c.log, e, 1 - i);
    RetryAppend(r, c.log, e, |c.log|);
  }

  /** After an attempt that leaves a socket or that the code does not leave behind, the slot stands as it is. */
  lemma StaysPut(r: Run, c: Conn, i: nat, x: nat)
    requires Of(r, c) && i < 2 && Last(c.log, i) == Some(x) && c.log[x] == (i, c.tempaddr[i])
    requires c.tempsock[i].Some? == r.o(x).Pending? && (Left(r, x) ==> r.o(x).Pending?)
    ensures Stands(r, c, i) && Stuck(r, c.log, i) == !Left(r, x)
  {
    hide Last;
  }

  /** After another failure it goes on to the next address, and stands there. */
  lemma GoesOn(r: Run, c: Conn, i: nat, x: nat)
    requires Of(r, c) && i < 2 && Last(c.log, i) == Some(x) && c.log[x] == (i, c.tempaddr[i]) && Left(r, x)
    requires c.tempaddr[i] < |c.family|
    ensures var d := Ainext(c.(tempsock := c.tempsock[i := None]), i, true);
            && Stands(r, d, i) && !Stuck(r, d.log, i) && SameSlot(c, d, 1 - i)
            && d.log == c.log && d.parallel == c.parallel && d.tempaddr[i] > c.tempaddr[i] && d.tempsock[i].None?
  {
    hide Last;
  }

  // ---------- the two loops over addresses ----------

  predicate Inv(r: Run, c: Conn)
  {
    Of(r, c) && Stands(r, c, 0) && Stands(r, c, 1) && LogInv(r, c.log)
  }

  /** How a loop over the addresses of slot `i` ends. */
  predicate Tried(r: Run, c: Conn, d: Conn, code: int, i: nat)
  {
    && i < 2 && Of(r, c) && Stands(r, d, i) && LogInv(r, d.log) && SameSlot(c, d, 1 - i)
    && d.parallel == c.parallel && c.log <= d.log
    && (code == OK ==> d.tempsock[i].Some? || Hollow(r, d.log))
    && (code != OK ==> d.tempsock[i].None?)
    && (d.tempsock[i].None? ==> d.tempaddr[i] == |d.family| || Stuck(r, d.log, i))
    && (code == COULDNT_CONNECT ==> d.tempaddr[i] == |d.family|)
    && (StuckAgain(r, d.log, i) ==> Stuck(r, c.log, i))
  }

  lemma TriedLater(r: Run, c: Conn, c1: Conn, d: Conn, code: int, i: nat)
    requires Tried(r, c1, d, code, i) && Of(r, c) && SameSlot(c, c1, 1 - i) && c1.parallel == c.parallel
    requires c.log <= c1.log && !Stuck(r, c1.log, i)
    ensures Tried(r, c, d, code, i)
  {
    hide Last, LogInv, Stuck, StuckAgain, Stands;
    SameSlotTwice(c, c1, d, 1 - i);
  }

  /** An attempt the slot leaves behind, and the move to the next address. */
  lemma StepsOn(r: Run, c: Conn, i: nat)
    requires Stands(r, c, i) && LogInv(r, c.log) && c.tempsock[i].None? && c.tempaddr[i] < |c.family|
    requires Stuck(r, c.log, i) ==> i == 1 && !StuckAgain(r, c.log, i)
    requires r.o(|c.log|).Failed? && Left(r, |c.log|)
    ensures var d := Ainext(Single(c, i, r.o).0, i, true);
            && Stands(r, d, i) && LogInv(r, d.log) && d.tempsock[i].None? && !Stuck(r, d.log, i)
            && SameSlot(c, d, 1 - i) && d.parallel == c.parallel
            && c.log <= d.log && |d.log| == |c.log| + 1 && d.tempaddr[i] > c.tempaddr[i]
  {
    hide Last, LogInv, Due, Single, Ainext, Stuck, StuckAgain, Stands;
    SingleWalks(r, c, i);
    var c1 := Single(c, i, r.o).0;
    GoesOn(r, c1, i, |c.log|);
    assert c1.(tempsock := c1.tempsock[i := None]) == c1;
    SameSlotTwice(c, c1, Ainext(c1, i, true), 1 - i);
  }

  /** An attempt the loop stops at. */
  lemma StopsThere(r: Run, c: Conn, i: nat)
    requires Stands(r, c, i) && LogInv(r, c.log) && c.tempsock[i].None? && c.tempaddr[i] < |c.family|
    requires Stuck(r, c.log, i) ==> i == 1 && !StuckAgain(r, c.log, i)
    requires r.o(|c.log|).Pending? || (!Left(r, |c.log|) && r.o(|c.log|).code != COULDNT_CONNECT)
    ensures var (d, code) := Single(c, i, r.o); Tried(r, c, d, code, i)
  {
    hide Last, LogInv, Due, Single, Stands, Stuck, Retry;
    SingleWalks(r, c, i);
    var d := Single(c, i, r.o).0;
    StaysPut(r, d, i, |c.log|);
  }

  lemma {:induction false} TryFromWalks(r: Run, c: Conn, i: nat)
    requires Stands(r, c, i) && LogInv(r, c.log) && c.tempsock[i].None? && |c.log| >= r.start
    requires Stuck(r, c.log, i) ==> i == 1 && !StuckAgain(r, c.log, i)
    ensures var (d, code) := TryFrom(c, i, r.o); Tried(r, c, d, code, i)
    decreases |c.family| - c.tempaddr[i]
  {
    hide Last, LogInv, Due, Ainext;
    if c.tempaddr[i] < |c.family| {
      SingleAddresses(c, i, r.o);
      if Single(c, i, r.o).1 == COULDNT_CONNECT {
        StepsOn(r, c, i);
        var d := Ainext(Single(c, i, r.o).0, i, true);
        hide Tried, Single, Stuck, StuckAgain, Stands;
        TryFromWalks(r, d, i);
        TriedLater(r, c, d, TryFrom(d, i, r.o).0, TryFrom(d, i, r.o).1, i);
      } else {
        StopsThere(r, c, i);
      }
    }
  }

  lemma {:induction false} HostLoopGrows(c: Conn, i: nat, result: int, o: nat -> Attempt)
    requires Shaped(c) && i < 2
    ensures |c.log| <= |HostLoop(c, i, result, o).0.log|
    decreases |c.family| - c.tempaddr[i]
  {
    hide Single, Ainext;
    if c.tempaddr[i] < |c.family| {
      SingleAddresses(c, i, o);
      var (c1, code) := Single(c, i, o);
      if code != OK {
        AinextAdvances(c1, i);
        HostLoopGrows(Ainext(c1, i, true), i, code, o);
      }
    }
  }

  lemma AinextAdvances(c: Conn, i: nat)
    requires Shaped(c) && i < 2 && c.tempaddr[i] < |c.family|
    ensures var d := Ainext(c, i, true);
            d.tempaddr[i] > c.tempaddr[i] && d.family == c.family && d.log == c.log
  {
  }

  /** `HostLoop` stops at CURLE_OK only, so a family it does not get a socket from is used up. */
  lemma {:induction false} HostLoopWalks(r: Run, c: Conn, i: nat, result: int)
    requires Stands(r, c, i) && LogInv(r, c.log) && c.tempsock[i].None? && !Stuck(r, c.log, i) && result != OK
    requires |HostLoop(c, i, result, r.o).0.log| <= r.start
    ensures var (d, code) := HostLoop(c, i, result, r.o);
            && Tried(r, c, d, if code == OK then OK else COULDNT_CONNECT, i)
    decreases |c.family| - c.tempaddr[i]
  {
    hide Last, LogInv, Due, Ainext;
    if c.tempaddr[i] < |c.family| {
      SingleAddresses(c, i, r.o);
      var (c1, code) := Single(c, i, r.o);
      if code == OK {
        StopsThere(r, c, i);
      } else {
        var d := Ainext(c1, i, true);
        AinextAdvances(c1, i);
        HostLoopGrows(d, i, code, r.o);
        StepsOn(r, c, i);
        HostLoopWalks(r, d, i, code);
        var (e, code') := HostLoop(d, i, code, r.o);
        TriedLater(r, c, d, e, if code' == OK then OK else COULDNT_CONNECT, i);
      }
    }
  }

  /** `trynextip` for a slot whose socket has been taken out. */
  lemma TryNextWalks(r: Run, c: Conn, i: nat)
    requires Of(r, c) && i < 2 && LogInv(r, c.log) && |c.log| >= r.start
    requires Stands(r, c.(tempsock := c.tempsock[i := None]), i)
    requires Stuck(r, c.log, i) ==> i == 1 && !StuckAgain(r, c.log, i)
    ensures var (d, code) := TryNextIp(c, true, i, r.o); Tried(r, c, d, code, i)
  {
    hide Last, LogInv, Due, TryFrom, Stuck, StuckAgain;
    var c1 := c.(tempsock := c.tempsock[i := None]);
    TryFromWalks(r, c1, i);
  }

  // ---------- one call of is_connected ----------

  /** The connection between two rounds, with the result so far. */
  predicate Mid(r: Run, c: Conn, result: int)
  {
    && Inv(r, c) && |c.log| >= r.start
    && (c.tempsock[0].None? ==> c.tempaddr[0] == |c.family| || Stuck(r, c.log, 0))
    && (!c.parallel && c.tempsock[0].Some? ==> Last(c.log, 1).None?)
    && (result == OK && c.tempsock == [None, None] ==> Hollow(r, c.log))
    && (StuckAgain(r, c.log, 1) ==> result == OK && c.tempsock == [None, None])
  }

  lemma PendingIsNotStuck(r: Run, c: Conn, i: nat)
    requires Stands(r, c, i) && c.tempsock[i].Some?
    ensures !Stuck(r, c.log, i) && Last(c.log, i).Some? && c.tempaddr[i] < |c.family|
  {
    hide Last;
  }

  /** A pending socket has failed: its slot moves to the next address, and stands there once the socket is taken out. */
  lemma TakenOutStands(r: Run, c: Conn, i: nat, t: int)
    requires Stands(r, c, i) && c.tempsock[i].Some?
    ensures var d := Ainext(c.(timeouts := c.timeouts[i := t]), i, true);
            && Of(r, d) && Stands(r, d.(tempsock := d.tempsock[i := None]), i)
            && SameSlot(c, d, 1 - i) && d.log == c.log && d.parallel == c.parallel && d.tempsock == c.tempsock
  {
    PendingIsNotStuck(r, c, i);
    hide Last, Stuck;
    var x := Last(c.log, i).value;
    GoesOn(r, c.(timeouts := c.timeouts[i := t]), i, x);
  }

  lemma SameSlotStuckAgain(r: Run, a: Conn, b: Conn, i: nat)
    requires SameSlot(a, b, i) && a.log <= b.log
    ensures StuckAgain(r, b.log, i) == StuckAgain(r, a.log, i)
  {
    if Last(a.log, i).Some? {
      assert b.log[..Last(a.log, i).value] == a.log[..Last(a.log, i).value];
    }
    hide Last, Left;
  }

  /** After a slot's socket has failed and its loop over addresses has ended. */
  lemma TriedKeepsMid(r: Run, c: Conn, d: Conn, code: int, i: nat, result: int, res: int)
    requires Mid(r, c, result) && i < 2 && c.tempsock[i].Some?
    requires Tried(r, c, d, code, i)
    requires res == if (code != COULDNT_CONNECT || d.tempsock[1 - i].None?) && result == OK then code else result
    ensures Mid(r, d, res)
  {
    hide Last, LogInv, Stands, Stuck, StuckAgain, Hollow;
    PendingIsNotStuck(r, c, i);
    if i == 0 {
      SameSlotStands(r, c, d, 1);
      SameSlotStuckAgain(r, c, d, 1);
      assert d.tempsock == [d.tempsock[0], c.tempsock[1]];
    } else {
      SameSlotStands(r, c, d, 0);
      SameSlotStuckAgain(r, c, d, 0);
      assert d.tempsock == [c.tempsock[0], d.tempsock[1]];
    }
  }

  lemma TriedFrom(r: Run, c: Conn, c1: Conn, d: Conn, code: int, i: nat)
    requires Tried(r, c1, d, code, i) && Of(r, c) && SameSlot(c, c1, 1 - i) && c1.parallel == c.parallel
    requires c.log == c1.log
    ensures Tried(r, c, d, code, i)
  {
    hide Last, LogInv, Stuck, StuckAgain, Stands;
    SameSlotTwice(c, c1, d, 1 - i);
  }

  lemma NextAddressKeepsMid(r: Run, c: Conn, i: nat, result: int, allow: int)
    requires Mid(r, c, result) && i < 2 && c.tempsock[i].Some? && c.tempaddr[i] < |c.family|
    ensures var (d, res) := NextAddress(c, true, i, result, allow, r.o); Mid(r, d, res)
  {
    PendingIsNotStuck(r, c, i);
    var t := if c.tempaddr[i] + 1 == |c.family| then allow else Half(allow);
    var c1 := Ainext(c.(timeouts := c.timeouts[i := t]), i, true);
    TakenOutStands(r, c, i, t);
    hide Last, LogInv, Due, TryNextIp, Ainext, Stands, Stuck, StuckAgain, Hollow;
    TryNextWalks(r, c1, i);
    var (d, code) := TryNextIp(c1, true, i, r.o);
    TriedFrom(r, c, c1, d, code, i);
    var (d', res) := NextAddress(c, true, i, result, allow, r.o);
    TriedKeepsMid(r, c, d, code, i, result, res);
  }

  /** The parallel timer starts slot 1, which has made no attempt then. */
  lemma StartParallelKeepsMid(r: Run, c: Conn, result: int)
    requires Mid(r, c, result) && c.tempsock[0].Some? && !c.parallel
    ensures var d := TryNextIp(c.(parallel := true), true, 1, r.o).0;
            Mid(r, d, result) && d.tempsock[0].Some? && d.tempaddr[0] == c.tempaddr[0]
  {
    hide Last, LogInv, Due, TryNextIp, Hollow;
    var c0 := c.(parallel := true);
    var (d, code) := TryNextIp(c0, true, 1, r.o);
    assert c0.(tempsock := c0.tempsock[1 := None]) == c0;
    TryNextWalks(r, c0, 1);
    SameSlotStands(r, c0, d, 0);
  }

  lemma MidHasLog(r: Run, c: Conn, result: int)
    requires Mid(r, c, result)
    ensures Of(r, c) && LogInv(r, c.log) && |c.log| >= r.start
  {
  }

  lemma AfterPollKeepsMid(r: Run, c: Conn, i: nat, result: int, failed: bool, allow: int)
    requires Mid(r, c, result) && i < 2 && c.tempsock[i].Some?
    ensures var s := AfterPoll(c, true, i, result, failed, allow, r.o); s.GoOn? && Mid(r, s.c, s.result)
  {
    hide Mid, NextAddress;
    MidHasLog(r, c, result);
    if failed && c.tempaddr[i] < |c.family| {
      NextAddressKeepsMid(r, c, i, result, allow);
    }
  }

  lemma StillWaitingKeepsMid(r: Run, c: Conn, i: nat, result: int, e: Input)
    requires Mid(r, c, result) && i < 2 && c.tempsock[i].Some? && e.poll[i].NotYet?
    ensures var s := Slot(c, true, i, result, e, r.o); s.GoOn? && Mid(r, s.c, s.result)
  {
    hide Mid, AfterPoll, TryNextIp;
    MidHasLog(r, c, result);
    if i == 0 && !c.parallel && e.happy {
      StartParallelKeepsMid(r, c, result);
      AfterPollKeepsMid(r, TryNextIp(c.(parallel := true), true, 1, r.o).0, i, result,
                        e.elapsed[i] >= c.timeouts[i], e.allow);
    } else {
      AfterPollKeepsMid(r, c, i, result, e.elapsed[i] >= c.timeouts[i], e.allow);
    }
  }

  lemma SlotKeepsMid(r: Run, c: Conn, i: nat, result: int, e: Input)
    requires Mid(r, c, result) && i < 2
    ensures var s := Slot(c, true, i, result, e, r.o);
            && (s.GoOn? ==> Mid(r, s.c, s.result))
            && (s.Connected? ==> Of(r, s.c) && LogInv(r, s.c.log) && |s.c.log| >= r.start)
  {
    hide Mid, LogInv, AfterPoll, TryNextIp;
    MidHasLog(r, c, result);
    if c.tempsock[i].Some? {
      match e.poll[i]
      case Writable(error) => AfterPollKeepsMid(r, c, i, result, true, e.allow);
      case Errored(error) => AfterPollKeepsMid(r, c, i, result, error != 0, e.allow);
      case NotYet => StillWaitingKeepsMid(r, c, i, result, e);
    }
  }

  /** No socket is pending, and each slot is at the end of its family or stuck. */
  predicate Ended(r: Run, c: Conn)
  {
    && Inv(r, c) && c.tempsock == [None, None]
    && (c.tempaddr[0] == |c.family| || Stuck(r, c.log, 0))
    && (c.tempaddr[1] == |c.family| || Stuck(r, c.log, 1))
  }

  /** What is known after each call of `is_connected`, and at the end of a run. */
  predicate After(r: Run, c: Conn, v: Verdict)
  {
    && Of(r, c) && LogInv(r, c.log) && |c.log| >= r.start
    && (v.StillTrying? ==> Mid(r, c, OK))
    && (v.NoMore? ==> Ended(r, c))
  }

  lemma ConcludeIsAfter(r: Run, c: Conn, result: int, allow: int)
    requires Mid(r, c, result)
    ensures var (d, v) := Conclude(c, true, result, allow, r.o); After(r, d, v) && !v.Won?
  {
    hide Last, LogInv, Due, TryNextIp, Hollow;
    if allow >= 0 && result != OK && c.tempsock[0].None? && c.tempsock[1].None? {
      assert c.tempsock == [None, None];
      assert c.(tempsock := c.tempsock[1 := None]) == c;
      TryNextWalks(r, c, 1);
      var (d, code) := TryNextIp(c, true, 1, r.o);
      SameSlotStands(r, c, d, 0);
      assert d.tempsock == [None, d.tempsock[1]];
    }
  }

  lemma IsConnectedIsAfter(r: Run, c: Conn, e: Input)
    requires Mid(r, c, OK)
    ensures var (d, v) := IsConnected(c, true, e, r.o); After(r, d, v)
  {
    MidHasLog(r, c, OK);
    hide Mid, LogInv, Slot, Conclude;
    SlotKeepsMid(r, c, 0, OK, e);
    var s0 := Slot(c, true, 0, OK, e, r.o);
    if s0.GoOn? {
      SlotKeepsMid(r, s0.c, 1, s0.result, e);
      var s1 := Slot(s0.c, true, 1, s0.result, e, r.o);
      if s1.GoOn? {
        ConcludeIsAfter(r, s1.c, s1.result, e.allow);
      }
    }
  }

  lemma {:induction false} RaceIsAfter(r: Run, c: Conn, events: seq<Input>)
    requires Mid(r, c, OK)
    ensures var (d, v) := Race(c, true, events, r.o); After(r, d, v)
    decreases |events|
  {
    MidHasLog(r, c, OK);
    hide Mid, LogInv, IsConnected;
    if events != [] {
      IsConnectedIsAfter(r, c, events[0]);
      var (c1, v) := IsConnected(c, true, events[0], r.o);
      if v.StillTrying? {
        RaceIsAfter(r, c1, events[1..]);
      }
    }
  }

  // ---------- whole runs ----------

  function RunOf(c: Conn, version: IpVersion, timeout: int, o: nat -> Attempt): Run
    requires Fresh(c) && timeout >= 0
  {
    Run(c.family, Prepare(c, version, timeout).tempfamily, o, |ConnectHost(c, version, timeout, o).0.log|)
  }

  lemma PrepareStands(c: Conn, version: IpVersion, timeout: int, o: nat -> Attempt)
    requires Fresh(c) && timeout >= 0
    ensures var (d, r) := (Prepare(c, version, timeout), RunOf(c, version, timeout, o));
            && Inv(r, d) && d.log == [] && d.tempsock == [None, None] && r.fams[0] != r.fams[1]
  {
    hide ConnectHost;
  }

  lemma ConnectHostIsAfter(c: Conn, version: IpVersion, timeout: int, o: nat -> Attempt)
    requires Fresh(c) && timeout >= 0
    ensures var r := RunOf(c, version, timeout, o);
            var (d, code) := ConnectHost(c, version, timeout, o);
            && r.fams[0] != r.fams[1]
            && After(r, d, if code == OK then StillTrying else NoMore(code))
  {
    hide Last, LogInv, Due, HostLoop, Prepare, Hollow;
    var r := RunOf(c, version, timeout, o);
    var c0 := Prepare(c, version, timeout);
    PrepareStands(c, version, timeout, o);
    var (c1, code) := HostLoop(c0, 0, COULDNT_CONNECT, o);
    HostLoopGrows(c1, 1, code, o);
    NoAttempt(r, 0);
    NoAttempt(r, 1);
    HostLoopWalks(r, c0, 0, COULDNT_CONNECT);
    SameSlotStands(r, c0, c1, 1);
    if code != OK {
      HostLoopWalks(r, c1, 1, code);
      SameSlotStands(r, c1, HostLoop(c1, 1, code, o).0, 0);
    }
  }

  lemma NoAttempt(r: Run, i: nat)
    ensures Last([], i) == None && !Stuck(r, [], i)
  {
  }

  lemma ConnectionIsAfter(c: Conn, version: IpVersion, timeout: int, events: seq<Input>, o: nat -> Attempt)
    requires Fresh(c) && timeout >= 0
    ensures var (d, v) := Connection(c, true, version, timeout, events, o);
            After(RunOf(c, version, timeout, o), d, v)
  {
    hide ConnectHost, Race, Mid, LogInv, Ended;
    ConnectHostIsAfter(c, version, timeout, o);
    var (c1, code) := ConnectHost(c, version, timeout, o);
    if code == OK {
      RaceIsAfter(RunOf(c, version, timeout, o), c1, events);
    }
  }

  // ---------- the order of attempts ----------

  /** Over every run on the first socket, however attempts end: each attempt is on the address due for its slot, which is
      the first of its family, the next one after the slot's last, or that one again after an outcome `trynextip` stops
      at; and only slot 1 ever retries, never twice in a row. */
  lemma EveryAttemptIsDue(c: Conn, version: IpVersion, timeout: int, events: seq<Input>, o: nat -> Attempt)
    requires Fresh(c) && timeout >= 0
    ensures var (d, v) := Connection(c, true, version, timeout, events, o);
            var r := RunOf(c, version, timeout, o);
            Walks(r, d.log) && FewRetries(r, d.log)
  {
    hide Connection, RunOf, Walk, FewRetries;
    ConnectionIsAfter(c, version, timeout, events, o);
  }

  lemma FamiliesDiffer(c: Conn, version: IpVersion, timeout: int, o: nat -> Attempt)
    requires Fresh(c) && timeout >= 0
    ensures var r := RunOf(c, version, timeout, o);
            r.family == c.family && |r.fams| == 2 && r.fams[0] != r.fams[1] && r.o == o
  {
    hide ConnectHost;
  }

  /** An address is tried twice if and only if some attempt is a retry. Slot 0 always tries its family in list order
      without a gap, and so does slot 1 when it does not retry. */
  lemma TriedTwiceExactly(c: Conn, version: IpVersion, timeout: int, events: seq<Input>, o: nat -> Attempt)
    requires Fresh(c) && timeout >= 0
    ensures var (d, v) := Connection(c, true, version, timeout, events, o);
            var r := RunOf(c, version, timeout, o);
            && InList(r, d.log)
            && (NoRepeat(d.log) <==> forall n :: 0 <= n < |d.log| ==> !Retry(r, d.log, n))
            && LogOf(d.log, 0) == Upto(r.family, r.fams[0], Reach(r, d.log, 0))
            && (NoRepeat(d.log) ==> LogOf(d.log, 1) == Upto(r.family, r.fams[1], Reach(r, d.log, 1)))
  {
    hide Connection, RunOf, Walk, FewRetries, Upto, LogOf, Reach, Retry, NoRepeat;
    EveryAttemptIsDue(c, version, timeout, events, o);
    FamiliesDiffer(c, version, timeout, o);
    var d := Connection(c, true, version, timeout, events, o).0;
    var r := RunOf(c, version, timeout, o);
    RepeatsAreRetries(r, d.log);
    FewMeansNone(r, d.log);
    OrderWithoutRetries(r, d.log, 0);
    if NoRepeat(d.log) {
      OrderWithoutRetries(r, d.log, 1);
    }
  }

  lemma FewMeansNone(r: Run, log: Log)
    requires FewRetries(r, log)
    ensures NoRetry(r, log, 0)
  {
    hide Retry;
  }

  /** No run makes more than one attempt for each address of slot 0's family and two for each one of slot 1's. */
  lemma AttemptsAreBounded(c: Conn, version: IpVersion, timeout: int, events: seq<Input>, o: nat -> Attempt)
    requires Fresh(c) && timeout >= 0
    ensures var log := Connection(c, true, version, timeout, events, o).0.log;
            var fams := Prepare(c, version, timeout).tempfamily;
            && |log| <= |Upto(c.family, fams[0], |c.family|)| + 2 * |Upto(c.family, fams[1], |c.family|)|
            && (NoRepeat(log) ==> |log| <= |c.family|)
  {
    hide Connection, ConnectHost, Walk, FewRetries, Upto, NoRepeat;
    EveryAttemptIsDue(c, version, timeout, events, o);
    var log := Connection(c, true, version, timeout, events, o).0.log;
    var r := RunOf(c, version, timeout, o);
    AttemptsOfLog(r, log);
    if NoRepeat(log) {
      FamiliesDiffer(c, version, timeout, o);
      AttemptsWithoutRepeat(r, log);
    }
  }

  lemma AttemptsWithoutRepeat(r: Run, log: Log)
    requires LogInv(r, log) && NoRepeat(log) && r.fams[0] != r.fams[1]
    ensures |log| <= |r.family|
  {
    hide Walk, FewRetries, NoRepeat, Upto, Retry;
    RepeatsAreRetries(r, log);
    FirstsAreAll(r, log);
    FirstsBounded(r, log, 0);
    FirstsBounded(r, log, 1);
    UptoGrows(r.family, r.fams[0], Reach(r, log, 0), |r.family|);
    UptoGrows(r.family, r.fams[1], Reach(r, log, 1), |r.family|);
    UptoTogether(r.family, r.fams[0], r.fams[1], |r.family|);
  }

  lemma {:induction false} FirstsAreAll(r: Run, log: Log)
    requires InList(r, log) && forall n :: 0 <= n < |log| ==> !Retry(r, log, n)
    ensures |log| == Firsts(r, log, 0) + Firsts(r, log, 1)
    decreases |log|
  {
    hide Retry;
    if log != [] {
      var m := |log| - 1;
      assert log[m] in log;
      forall n | 0 <= n < m ensures !Retry(r, log[..m], n) {
        RetryPrefix(r, log, m, n);
      }
      FirstsAreAll(r, log[..m]);
    }
  }

  /** The one IPv6 address of two is tried twice: the timer's attempt on it ends in a code that is not
      CURLE_COULDNT_CONNECT, and when the IPv4 address fails, the last resort finds the slot still standing on it. */
  lemma SecondTryHappens(c: Conn, o: nat -> Attempt, e0: Input, e1: Input)
    requires Fresh(c) && c.family == [AF_INET, AF_INET6] && !c.parallel
    requires o(0).Pending? && o(1) == o(2) == Failed(true, 42)
    requires e0 == Event([NotYet, NotYet], [0, 0], true, 100) && e1 == Event([Errored(1), NotYet], [0, 0], true, 100)
    ensures Connection(c, true, Whatever, 200, [e0, e1], o).0.log == [(0, 0), (1, 1), (1, 1)]
  {
    hide IsConnected, ConnectHost;
    OnePending(c, o);
    var c1 := ConnectHost(c, Whatever, 200, o).0;
    TimerTries(c1, o, e0);
    var c2 := IsConnected(c1, true, e0, o).0;
    FailureTriesAgain(c2, o, e1);
    RaceUnfolds(c1, e0, [e1], o);
    RaceUnfolds(c2, e1, [], o);
    hide Race;
    assert [e1] == [e1] + [] && [e0, e1] == [e0] + [e1];
  }

  lemma RaceUnfolds(c: Conn, e: Input, events: seq<Input>, o: nat -> Attempt)
    requires Shaped(c)
    ensures var (c1, v) := IsConnected(c, true, e, o);
            Race(c, true, [e] + events, o) == if v.StillTrying? then Race(c1, true, events, o) else (c1, v)
  {
    hide IsConnected;
    assert ([e] + events)[1..] == events;
  }

  lemma OnePending(c: Conn, o: nat -> Attempt)
    requires Fresh(c) && c.family == [AF_INET, AF_INET6] && !c.parallel && o(0).Pending?
    ensures var (d, code) := ConnectHost(c, Whatever, 200, o);
            && code == OK && d.family == d.tempfamily == [AF_INET, AF_INET6] && d.timeouts[0] == 100 && !d.parallel
            && d.tempaddr == [0, 1] && d.tempsock == [Some(0), None] && d.log == [(0, 0)]
  {
    var c0 := Prepare(c, Whatever, 200);
    assert c0.tempaddr == [0, 1];
  }

  lemma TimerTries(c: Conn, o: nat -> Attempt, e: Input)
    requires Shaped(c) && c.family == [AF_INET, AF_INET6] && !c.parallel && o(1) == Failed(true, 42)
    requires e == Event([NotYet, NotYet], [0, 0], true, 100) && c.timeouts[0] > 0
    requires c.tempaddr == [0, 1] && c.tempsock == [Some(0), None] && c.log == [(0, 0)]
    ensures var (d, v) := IsConnected(c, true, e, o);
            && v == StillTrying && d.tempaddr == [0, 1] && d.tempsock == [Some(0), None]
            && d.log == [(0, 0), (1, 1)] && d.parallel && d.family == c.family && d.tempfamily == c.tempfamily
  {
  }

  lemma FailureTriesAgain(c: Conn, o: nat -> Attempt, e: Input)
    requires Shaped(c) && c.family == [AF_INET, AF_INET6] && c.tempfamily == c.family && o(2) == Failed(true, 42)
    requires e == Event([Errored(1), NotYet], [0, 0], true, 100)
    requires c.tempaddr == [0, 1] && c.tempsock == [Some(0), None] && c.log == [(0, 0), (1, 1)]
    ensures IsConnected(c, true, e, o).0.log == [(0, 0), (1, 1), (1, 1)]
    ensures IsConnected(c, true, e, o).1.NoMore?
  {
  }

  // ---------- giving up ----------

  predicate AllTried(c: Conn, i: nat)
    requires Shaped(c) && i < 2
  {
    forall a: nat :: a < |c.family| && c.family[a] == c.tempfamily[i] ==> (i, a) in c.log
  }

  /** The last attempt of slot `i` was one `trynextip` stops at, and its family has more addresses. */
  predicate GaveUpEarly(r: Run, log: Log, i: nat)
    requires InList(r, log) && i < 2
  {
    Stuck(r, log, i) && NextOf(r.family, r.fams[i], Reach(r, log, i)) < |r.family|
  }

  lemma SlotAllTried(r: Run, c: Conn, i: nat)
    requires Inv(r, c) && i < 2 && c.tempsock[i].None? && (c.tempaddr[i] == |c.family| || Stuck(r, c.log, i))
    ensures AllTried(c, i) <==> !GaveUpEarly(r, c.log, i)
  {
    var next := NextOf(r.family, r.fams[i], Reach(r, c.log, i));
    if GaveUpEarly(r, c.log, i) {
      StuckDue(r, c.log, i);
      hide Walk, Last, Due, FewRetries;
      if (i, next) in c.log {
        var n :| 0 <= n < |c.log| && c.log[n] == (i, next);
        Ascends(r, c.log, n);
      }
      assert !AllTried(c, i);
    } else {
      forall a: nat | a < |c.family| && c.family[a] == c.tempfamily[i] ensures (i, a) in c.log {
        AddressWasTried(r, c, i, a);
      }
    }
  }

  lemma StuckDue(r: Run, log: Log, i: nat)
    requires InList(r, log) && i < 2 && Stuck(r, log, i)
    ensures Due(r, log, i) + 1 == Reach(r, log, i) && (i, Due(r, log, i)) in log
  {
    hide Last;
    assert log[Last(log, i).value] == (i, Due(r, log, i));
  }

  lemma AddressWasTried(r: Run, c: Conn, i: nat, a: nat)
    requires Inv(r, c) && i < 2 && c.tempsock[i].None? && (c.tempaddr[i] == |c.family| || Stuck(r, c.log, i))
    requires !GaveUpEarly(r, c.log, i) && a < |c.family| && c.family[a] == c.tempfamily[i]
    ensures (i, a) in c.log
  {
    hide Walk, Last, Due, FewRetries, Stuck, Reach;
    if Stuck(r, c.log, i) {
      StuckDue(r, c.log, i);
    }
    if a < Due(r, c.log, i) {
      BeforeDueIsTried(r, c.log, i, a);
    }
  }

  /** When a run ends for want of addresses, the addresses of a slot's family have all been tried if and only if the
      slot did not stop early. */
  lemma GivesUpExactly(c: Conn, version: IpVersion, timeout: int, events: seq<Input>, o: nat -> Attempt, i: nat)
    requires Fresh(c) && timeout >= 0 && i < 2
    ensures var (d, v) := Connection(c, true, version, timeout, events, o);
            var r := RunOf(c, version, timeout, o);
            && Of(r, d) && InList(r, d.log)
            && (v.NoMore? ==> (AllTried(d, i) <==> !GaveUpEarly(r, d.log, i)))
  {
    hide Connection, RunOf, Walk, FewRetries, Stands, AllTried, GaveUpEarly, Stuck, Mid;
    ConnectionIsAfter(c, version, timeout, events, o);
    var (d, v) := Connection(c, true, version, timeout, events, o);
    if v.NoMore? {
      SlotAllTried(RunOf(c, version, timeout, o), d, i);
    }
  }

  // ---------- stalling ----------

  /** The slot of the last attempt. */
  function LastSlot(c: Conn): (i: nat)
    requires Shaped(c) && c.log != []
    ensures i < 2
  {
    assert c.log[|c.log| - 1] in c.log;
    c.log[|c.log| - 1].0
  }

  /** A run that is still going has no pending socket if and only if its last attempt reported CURLE_OK without a socket
      and the other slot has none. */
  lemma StillTryingExactly(c: Conn, version: IpVersion, timeout: int, events: seq<Input>, o: nat -> Attempt)
    requires Fresh(c) && timeout >= 0
    ensures var (d, v) := Connection(c, true, version, timeout, events, o);
            var r := RunOf(c, version, timeout, o);
            && Of(r, d) && InList(r, d.log)
            && (v.StillTrying? ==>
                (d.tempsock == [None, None] <==>
                 Hollow(r, d.log) && d.tempsock[1 - LastSlot(d)].None?))
  {
    hide Connection, RunOf, Walk, FewRetries, Last;
    ConnectionIsAfter(c, version, timeout, events, o);
    var (d, v) := Connection(c, true, version, timeout, events, o);
    var r := RunOf(c, version, timeout, o);
    if v.StillTrying? && d.log != [] {
      LastUnfolds(d.log, LastSlot(d));
      assert d.tempsock == [d.tempsock[0], d.tempsock[1]];
    }
  }

  /** Once nothing is pending, nothing happens until the overall timeout. */
  lemma {:induction false} StalledStays(c: Conn, first: bool, events: seq<Input>, o: nat -> Attempt)
    requires Shaped(c) && c.tempsock == [None, None] && forall e :: e in events ==> e.allow >= 0
    ensures Race(c, first, events, o) == (c, StillTrying)
    decreases |events|
  {
    if events != [] {
      assert events[0] in events;
      StalledStays(c, first, events[1..], o);
    }
  }

  /** If the first attempt reports CURLE_OK without a socket (its address could not be printed), no other address is
      tried, whatever the list, and the run goes on without a pending socket until the overall timeout. */
  lemma OkWithoutSocketStalls(c: Conn, first: bool, version: IpVersion, timeout: int, events: seq<Input>, o: nat -> Attempt)
    requires Fresh(c) && timeout >= 0 && o(0).Failed? && o(0).code == OK
    requires exists a :: 0 <= a < |c.family| && c.family[a] in Prepare(c, version, timeout).tempfamily
    requires forall e :: e in events ==> e.allow >= 0
    ensures var (d, v) := Connection(c, first, version, timeout, events, o);
            v == StillTrying && d.tempsock == [None, None] && |d.log| == 1
  {
    FirstIsHollow(c, version, timeout, o);
    hide ConnectHost, Race, Prepare;
    StalledStays(ConnectHost(c, version, timeout, o).0, first, events, o);
  }

  lemma FirstIsHollow(c: Conn, version: IpVersion, timeout: int, o: nat -> Attempt)
    requires Fresh(c) && timeout >= 0 && o(0).Failed? && o(0).code == OK
    requires exists a :: 0 <= a < |c.family| && c.family[a] in Prepare(c, version, timeout).tempfamily
    ensures var (d, code) := ConnectHost(c, version, timeout, o);
            code == OK && d.tempsock == [None, None] && |d.log| == 1
  {
    SomeFirst(c, version, timeout);
    hide Prepare;
    var c0 := Prepare(c, version, timeout);
    var i := if c0.tempaddr[0] < |c0.family| then 0 else 1;
    assert HostLoop(c0, i, COULDNT_CONNECT, o) == Single(c0, i, o);
    assert Single(c0, i, o).0.tempsock == [None, None];
  }

  lemma SomeFirst(c: Conn, version: IpVersion, timeout: int)
    requires Fresh(c) && timeout >= 0
    requires exists a :: 0 <= a < |c.family| && c.family[a] in Prepare(c, version, timeout).tempfamily
    ensures var d := Prepare(c, version, timeout);
            && d.tempsock == [None, None] && d.log == [] && d.family == c.family
            && (d.tempaddr[0] < |d.family| || d.tempaddr[1] < |d.family|)
  {
    var d := Prepare(c, version, timeout);
    var a :| 0 <= a < |c.family| && c.family[a] in d.tempfamily;
    assert c.family[a] == d.tempfamily[0] || c.family[a] == d.tempfamily[1];
  }

  // ---------- plain attempts ----------

  /** Every attempt leaves a pending socket or fails with CURLE_COULDNT_CONNECT. */
  ghost predicate Plain(o: nat -> Attempt)
  {
    forall k: nat :: o(k).Pending? || o(k).code == COULDNT_CONNECT
  }

  lemma PlainIsLeft(r: Run)
    requires Plain(r.o)
    ensures forall x: nat :: Left(r, x)
    ensures forall log: Log :: !Hollow(r, log)
  {
  }

  /** With such attempts, over every run on the first socket: no address is tried twice, each family is tried in list order
      without a gap, giving up for want of addresses means both families were tried to the end, and while the connection
      is still trying, a socket is pending. */
  lemma EveryAddressOnceInOrder(c: Conn, version: IpVersion, timeout: int, events: seq<Input>, o: nat -> Attempt)
    requires Plain(o) && Fresh(c) && timeout >= 0
    ensures var (d, v) := Connection(c, true, version, timeout, events, o);
            var r := RunOf(c, version, timeout, o);
            && Of(r, d) && InList(r, d.log) && NoRepeat(d.log)
            && LogOf(d.log, 0) == Upto(r.family, r.fams[0], Reach(r, d.log, 0))
            && LogOf(d.log, 1) == Upto(r.family, r.fams[1], Reach(r, d.log, 1))
            && (v.NoMore? ==> AllTried(d, 0) && AllTried(d, 1))
            && (v.StillTrying? ==> d.tempsock[0].Some? || d.tempsock[1].Some?)
  {
    hide Connection, Last, Due, Upto, LogOf, Reach, NoRepeat, AllTried, ConnectHost, NextOf, Left, Hollow, Plain;
    TriedTwiceExactly(c, version, timeout, events, o);
    GivesUpExactly(c, version, timeout, events, o, 0);
    GivesUpExactly(c, version, timeout, events, o, 1);
    StillTryingExactly(c, version, timeout, events, o);
    var r := RunOf(c, version, timeout, o);
    PlainIsLeft(r);
    var d := Connection(c, true, version, timeout, events, o).0;
    assert d.tempsock == [d.tempsock[0], d.tempsock[1]];
  }
}
