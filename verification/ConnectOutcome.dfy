/** What decides a race for a connection: when a socket wins, when it is given up, when the second family starts, and what
    a failure reports (curl/lib/connect.c). */
module ConnectOutcome {
  import opened CString
  import opened Connect
  import opened ConnectSafety
  import opened ConnectLog
  import opened ConnectOrder

  // ---------- the start ----------

  /** The families are 2 for IPv4 and 10 for IPv6: that of the first address and the other one, or the one asked for only.
      Each slot starts at the first address of its family, with all the time there is for one address, half of it for
      more. */
  lemma StartRule(c: Conn, version: IpVersion, timeout: int)
    requires Fresh(c) && timeout >= 0
    ensures var d := Prepare(c, version, timeout);
            && d.tempfamily == (match version
                                case Whatever => [c.family[0], if c.family[0] == 10 then 2 else 10]
                                case V4 => [2, 0]
                                case V6 => [10, 0])
            && (forall i :: 0 <= i < 2 ==>
                  (d.tempaddr[i] < |c.family| ==> c.family[d.tempaddr[i]] == d.tempfamily[i])
                  && d.timeouts[i] == if |c.family| == 1 then timeout else timeout / 2)
            && (forall i, a :: 0 <= i < 2 && 0 <= a < d.tempaddr[i] ==> c.family[a] != d.tempfamily[i])
            && d.tempsock == [None, None]
  {
  }

  // ---------- one call of is_connected ----------

  /** The timer starts the second slot: the first has waited in vain so far, and it has not happened before. */
  predicate StartsSecond(c: Conn, e: Input)
    requires Shaped(c)
  {
    c.tempsock[0].Some? && e.poll[0].NotYet? && e.happy && !c.parallel
  }

  /** The connection when the second slot is looked at. */
  function BeforeSecond(c: Conn, first: bool, e: Input, o: nat -> Attempt): (d: Conn)
    requires Shaped(c)
    ensures Shaped(d)
  {
    Slot(c, first, 0, OK, e, o).c
  }

  /** The socket that wins in a call: the first slot's if it became writable without an error, else the second's. */
  function Winner(c: Conn, first: bool, e: Input, o: nat -> Attempt): Option<nat>
    requires Shaped(c)
  {
    if c.tempsock[0].Some? && e.poll[0] == Writable(0) then c.tempsock[0]
    else if BeforeSecond(c, first, e, o).tempsock[1].Some? && e.poll[1] == Writable(0) then
      BeforeSecond(c, first, e, o).tempsock[1]
    else None
  }

  /** Slot 0 leaves the other socket alone, unless the timer starts the second slot. */
  lemma SecondIsUntouched(c: Conn, first: bool, e: Input, o: nat -> Attempt)
    requires Shaped(c) && !StartsSecond(c, e) && !(c.tempsock[0].Some? && e.poll[0] == Writable(0))
    ensures BeforeSecond(c, first, e, o).tempsock[1] == c.tempsock[1]
  {
    hide TryNextIp;
    if c.tempsock[0].Some? && c.tempaddr[0] < |c.family| {
      var t := if c.tempaddr[0] + 1 == |c.family| then e.allow else Half(e.allow);
      TryNextMoves(Ainext(c.(timeouts := c.timeouts[0 := t]), 0, true), first, 0, o);
    }
  }

  /** A round of a slot ends the race if and only if the slot's socket became writable without an error. */
  lemma SlotWins(c: Conn, first: bool, i: nat, result: int, e: Input, o: nat -> Attempt)
    requires Shaped(c) && i < 2
    ensures var s := Slot(c, first, i, result, e, o);
            && (s.Connected? <==> c.tempsock[i].Some? && e.poll[i] == Writable(0))
            && (s.Connected? ==> s.c.sock == c.tempsock[i])
  {
    hide NextAddress, TryNextIp;
  }

  /** A call is won if and only if a pending socket turned out writable without an error; that socket is connected then. */
  lemma CallWins(c: Conn, first: bool, e: Input, o: nat -> Attempt)
    requires Shaped(c)
    ensures var (d, v) := IsConnected(c, first, e, o);
            && (v.Won? <==> Winner(c, first, e, o).Some?)
            && (v.Won? ==> d.sock == Winner(c, first, e, o))
  {
    hide Slot, TryNextIp;
    SlotWins(c, first, 0, OK, e, o);
    var s := Slot(c, first, 0, OK, e, o);
    if s.GoOn? {
      SlotWins(s.c, first, 1, s.result, e, o);
    }
  }

  /** Otherwise the call ends the race by the overall timeout if and only if no time is left. */
  lemma CallTimesOut(c: Conn, first: bool, e: Input, o: nat -> Attempt)
    requires Shaped(c)
    ensures IsConnected(c, first, e, o).1.TimedOut? <==> Winner(c, first, e, o).None? && e.allow < 0
  {
    CallWins(c, first, e, o);
    hide Slot, TryNextIp, Winner;
  }

  /** The pending socket of a slot has failed: an error, or no answer in the time it has. */
  predicate HasFailed(c: Conn, i: nat, e: Input)
    requires Shaped(c) && i < 2
  {
    match e.poll[i]
    case Writable(error) => error != 0
    case Errored(error) => error != 0
    case NotYet => c.timeouts[i] <= e.elapsed[i]
  }

  /** A pending socket that neither wins nor fails stays: nothing is tried for its slot, and it keeps its time. */
  lemma SlotWaits(c: Conn, first: bool, i: nat, result: int, e: Input, o: nat -> Attempt)
    requires Shaped(c) && i < 2 && c.tempsock[i].Some? && e.poll[i] != Writable(0) && !HasFailed(c, i, e)
    requires i == 1 || !StartsSecond(c, e)
    ensures Slot(c, first, i, result, e, o) == GoOn(c, result)
  {
    hide NextAddress, TryNextIp;
  }

  /** One that fails is closed, and its slot moves to the next address of its family, with all the time left for the last
      address of the list and half of it for others. */
  lemma SlotGivesUp(c: Conn, first: bool, i: nat, result: int, e: Input, o: nat -> Attempt)
    requires Shaped(c) && i < 2 && c.tempsock[i].Some? && c.tempaddr[i] < |c.family|
    requires HasFailed(c, i, e) && (i == 1 || !StartsSecond(c, e))
    ensures var s := Slot(c, first, i, result, e, o);
            && s.GoOn? && c.tempsock[i].value in s.c.closed
            && s.c.timeouts[i] == (if c.tempaddr[i] == |c.family| - 1 then e.allow else HalfOf(e.allow))
            && s.c.timeouts[1 - i] == c.timeouts[1 - i]
  {
    hide NextAddress, TryNextIp, HalfOf;
    NextAddressCloses(c, first, i, result, e.allow, o);
  }

  lemma NextAddressCloses(c: Conn, first: bool, i: nat, result: int, allow: int, o: nat -> Attempt)
    requires Shaped(c) && i < 2 && c.tempsock[i].Some? && c.tempaddr[i] < |c.family|
    ensures var d := NextAddress(c, first, i, result, allow, o).0;
            && c.tempsock[i].value in d.closed
            && d.timeouts == c.timeouts[i := if c.tempaddr[i] == |c.family| - 1 then allow else HalfOf(allow)]
  {
    hide TryNextIp;
    var t := if c.tempaddr[i] + 1 == |c.family| then allow else Half(allow);
    var c1 := Ainext(c.(timeouts := c.timeouts[i := t]), i, true);
    TryNextCloses(c1, first, i, o);
  }

  /** Half of it, without the fraction. */
  function HalfOf(x: int): int
  {
    if x % 2 == 0 then x / 2 else if x > 0 then (x - 1) / 2 else (x + 1) / 2
  }

  lemma TryNextCloses(c: Conn, first: bool, i: nat, o: nat -> Attempt)
    requires Shaped(c) && i < 2 && c.tempsock[i].Some?
    ensures var d := TryNextIp(c, first, i, o).0; c.tempsock[i].value in d.closed && d.timeouts == c.timeouts
  {
    hide TryFrom;
    TryFromKeepsTimes(c.(tempsock := c.tempsock[i := None]), i, o);
  }

  lemma {:induction false} TryFromKeepsTimes(c: Conn, i: nat, o: nat -> Attempt)
    requires Shaped(c) && i < 2
    ensures TryFrom(c, i, o).0.timeouts == c.timeouts
    decreases |c.family| - c.tempaddr[i]
  {
    hide Single;
    if c.tempaddr[i] < |c.family| {
      SingleAddresses(c, i, o);
      var (c1, code) := Single(c, i, o);
      if code == COULDNT_CONNECT {
        TryFromKeepsTimes(Ainext(c1, i, true), i, o);
      }
    }
  }

  /** When the timer starts the second slot, that slot tries its addresses before the first one's own fate is decided. */
  lemma SecondStarts(c: Conn, first: bool, e: Input, o: nat -> Attempt)
    requires Shaped(c) && StartsSecond(c, e)
    ensures var d := TryNextIp(c.(parallel := true), first, 1, o).0;
            Slot(c, first, 0, OK, e, o) ==
            if c.timeouts[0] <= e.elapsed[0] && d.tempaddr[0] < |d.family| then
              var (r, result) := NextAddress(d, first, 0, OK, e.allow, o); GoOn(r, result)
            else GoOn(d, OK)
  {
    hide NextAddress, TryNextIp;
  }

  // ---------- whole runs ----------

  /** The run after the first `k` events. */
  function Sofar(c: Conn, first: bool, events: seq<Input>, k: nat, o: nat -> Attempt): (r: (Conn, Verdict))
    requires Shaped(c) && k <= |events|
    ensures Shaped(r.0)
  {
    Race(c, first, events[..k], o)
  }

  /** At event `k` the run is still going, and socket `s` turns out writable without an error. */
  predicate WinsAt(c: Conn, first: bool, events: seq<Input>, o: nat -> Attempt, k: nat, s: nat)
    requires Shaped(c)
  {
    && k < |events| && Sofar(c, first, events, k, o).1.StillTrying?
    && Winner(Sofar(c, first, events, k, o).0, first, events[k], o) == Some(s)
  }

  lemma SofarLater(c: Conn, first: bool, events: seq<Input>, k: nat, o: nat -> Attempt)
    requires Shaped(c) && 0 < k <= |events|
    ensures var (c1, v) := IsConnected(c, first, events[0], o);
            Sofar(c, first, events, k, o) == if v.StillTrying? then Sofar(c1, first, events[1..], k - 1, o) else (c1, v)
  {
    hide IsConnected;
    assert events[..k][1..] == events[1..][..k - 1];
  }

  /** A run is won if and only if at some event a pending socket turns out writable without an error; that socket is the
      one connected. */
  ghost predicate WonRightly(c: Conn, first: bool, events: seq<Input>, o: nat -> Attempt, d: Conn, v: Verdict)
    requires Shaped(c)
  {
    && (v.Won? <==> exists k: nat, s: nat :: WinsAt(c, first, events, o, k, s))
    && forall k: nat, s: nat :: WinsAt(c, first, events, o, k, s) ==> d.sock == Some(s)
  }

  lemma {:induction false} RaceWins(c: Conn, first: bool, events: seq<Input>, o: nat -> Attempt)
    requires Shaped(c)
    ensures var (d, v) := Race(c, first, events, o);
            WonRightly(c, first, events, o, d, v)
    decreases |events|
  {
    hide IsConnected, Winner;
    if events != [] {
      CallWins(c, first, events[0], o);
      var (c1, v) := IsConnected(c, first, events[0], o);
      assert events[..0] == [];
      assert Sofar(c, first, events, 0, o) == (c, StillTrying);
      if v.Won? {
        var s := Winner(c, first, events[0], o).value;
        assert WinsAt(c, first, events, o, 0, s);
      }
      if v.StillTrying? {
        RaceWins(c1, first, events[1..], o);
      }
      forall k: nat, s: nat | WinsAt(c, first, events, o, k, s) && k > 0
        ensures v.StillTrying? && WinsAt(c1, first, events[1..], o, k - 1, s)
      {
        SofarLater(c, first, events, k, o);
      }
      if v.StillTrying? {
        forall k: nat, s: nat | WinsAt(c1, first, events[1..], o, k, s) ensures WinsAt(c, first, events, o, k + 1, s) {
          SofarLater(c, first, events, k + 1, o);
        }
      }
    }
  }

  /** Over a whole connection, on either socket. */
  lemma ConnectionWins(c: Conn, first: bool, version: IpVersion, timeout: int, events: seq<Input>, o: nat -> Attempt)
    requires Fresh(c) && timeout >= 0
    ensures var (c1, code) := ConnectHost(c, version, timeout, o);
            var (d, v) := Connection(c, first, version, timeout, events, o);
            if code == OK then WonRightly(c1, first, events, o, d, v) else v == NoMore(code)
  {
    hide ConnectHost, Race, WonRightly;
    var (c1, code) := ConnectHost(c, version, timeout, o);
    if code == OK {
      RaceWins(c1, first, events, o);
    }
  }

  // ---------- what a failure reports ----------

  /** Success, CURLE_COULDNT_CONNECT, or the code of one of the first `n` attempts. */
  ghost predicate Explained(n: nat, o: nat -> Attempt, code: int)
  {
    code == 0 || code == 7 || exists k: nat :: k < n && o(k).Failed? && o(k).code == code
  }

  lemma ExplainedLater(n: nat, m: nat, o: nat -> Attempt, code: int)
    requires n <= m && Explained(n, o, code)
    ensures Explained(m, o, code)
  {
  }

  lemma {:induction false} TryFromExplains(c: Conn, i: nat, o: nat -> Attempt)
    requires Shaped(c) && i < 2
    ensures var (d, code) := TryFrom(c, i, o); |c.log| <= |d.log| && Explained(|d.log|, o, code)
    decreases |c.family| - c.tempaddr[i]
  {
    hide Single;
    if c.tempaddr[i] < |c.family| {
      SingleAddresses(c, i, o);
      SingleExplains(c, i, o);
      var (c1, code) := Single(c, i, o);
      if code == COULDNT_CONNECT {
        TryFromExplains(Ainext(c1, i, true), i, o);
      }
    }
  }

  lemma SingleExplains(c: Conn, i: nat, o: nat -> Attempt)
    requires Shaped(c) && i < 2 && c.tempaddr[i] < |c.family|
    ensures Explained(|c.log| + 1, o, Single(c, i, o).1)
  {
  }

  lemma {:induction false} HostLoopExplains(c: Conn, i: nat, result: int, o: nat -> Attempt)
    requires Shaped(c) && i < 2 && Explained(|c.log|, o, result)
    ensures var (d, code) := HostLoop(c, i, result, o); |c.log| <= |d.log| && Explained(|d.log|, o, code)
    decreases |c.family| - c.tempaddr[i]
  {
    hide Single, Explained;
    if c.tempaddr[i] < |c.family| {
      SingleAddresses(c, i, o);
      SingleExplains(c, i, o);
      var (c1, code) := Single(c, i, o);
      if code != OK {
        HostLoopExplains(Ainext(c1, i, true), i, code, o);
      }
    }
  }

  lemma TryNextExplains(c: Conn, first: bool, i: nat, o: nat -> Attempt)
    requires Shaped(c) && i < 2
    ensures var (d, code) := TryNextIp(c, first, i, o); |c.log| <= |d.log| && Explained(|d.log|, o, code)
  {
    hide TryFrom;
    TryFromExplains(c.(tempsock := c.tempsock[i := None]), i, o);
  }

  lemma SlotExplains(c: Conn, first: bool, i: nat, result: int, e: Input, o: nat -> Attempt)
    requires Shaped(c) && i < 2 && Explained(|c.log|, o, result)
    ensures var s := Slot(c, first, i, result, e, o);
            |c.log| <= |s.c.log| && (s.GoOn? ==> Explained(|s.c.log|, o, s.result))
  {
    hide TryNextIp, Explained, AfterPoll;
    TryNextExplains(c.(parallel := true), first, 1, o);
    var d := TryNextIp(c.(parallel := true), first, 1, o).0;
    ExplainedLater(|c.log|, |d.log|, o, result);
    AfterPollExplains(c, first, i, result, true, e.allow, o);
    AfterPollExplains(c, first, i, result, false, e.allow, o);
    AfterPollExplains(d, first, i, result, true, e.allow, o);
    AfterPollExplains(d, first, i, result, false, e.allow, o);
  }

  lemma AfterPollExplains(c: Conn, first: bool, i: nat, result: int, failed: bool, allow: int, o: nat -> Attempt)
    requires Shaped(c) && i < 2 && Explained(|c.log|, o, result)
    ensures var s := AfterPoll(c, first, i, result, failed, allow, o);
            s.GoOn? && |c.log| <= |s.c.log| && Explained(|s.c.log|, o, s.result)
  {
    hide TryNextIp, Explained;
    if failed && c.tempaddr[i] < |c.family| {
      var t := if c.tempaddr[i] + 1 == |c.family| then allow else Half(allow);
      var c1 := Ainext(c.(timeouts := c.timeouts[i := t]), i, true);
      TryNextExplains(c1, first, i, o);
      ExplainedLater(|c.log|, |TryNextIp(c1, first, i, o).0.log|, o, result);
    }
  }

  lemma CallExplains(c: Conn, first: bool, e: Input, o: nat -> Attempt)
    requires Shaped(c)
    ensures var (d, v) := IsConnected(c, first, e, o);
            v.NoMore? ==> v.code != 0 && Explained(|d.log|, o, v.code)
  {
    ExplainedSuccess(|c.log|, o);
    hide Slot, TryNextIp, Explained;
    SlotExplains(c, first, 0, OK, e, o);
    var s := Slot(c, first, 0, OK, e, o);
    if s.GoOn? {
      SlotExplains(s.c, first, 1, s.result, e, o);
      var u := Slot(s.c, first, 1, s.result, e, o);
      if u.GoOn? {
        TryNextExplains(u.c, first, 1, o);
        ExplainedLater(|u.c.log|, |TryNextIp(u.c, first, 1, o).0.log|, o, u.result);
      }
    }
  }

  lemma ExplainedSuccess(n: nat, o: nat -> Attempt)
    ensures Explained(n, o, OK) && Explained(n, o, COULDNT_CONNECT)
  {
  }

  lemma {:induction false} RaceExplains(c: Conn, first: bool, events: seq<Input>, o: nat -> Attempt)
    requires Shaped(c)
    ensures var (d, v) := Race(c, first, events, o);
            v.NoMore? ==> v.code != 0 && Explained(|d.log|, o, v.code)
    decreases |events|
  {
    hide IsConnected, Explained;
    if events != [] {
      CallExplains(c, first, events[0], o);
      var (c1, v) := IsConnected(c, first, events[0], o);
      if v.StillTrying? {
        RaceExplains(c1, first, events[1..], o);
      }
    }
  }

  /** A connection that gives up reports CURLE_COULDNT_CONNECT or the code of one of its attempts, and never success. */
  lemma FailureIsExplained(c: Conn, first: bool, version: IpVersion, timeout: int, events: seq<Input>, o: nat -> Attempt)
    requires Fresh(c) && timeout >= 0
    ensures var (d, v) := Connection(c, first, version, timeout, events, o);
            v.NoMore? ==> v.code != 0 && Explained(|d.log|, o, v.code)
  {
    ExplainedSuccess(0, o);
    hide HostLoop, Race, Prepare, Explained;
    PrepareHasNoLog(c, version, timeout);
    var c0 := Prepare(c, version, timeout);
    HostLoopExplains(c0, 0, COULDNT_CONNECT, o);
    var (c1, code) := HostLoop(c0, 0, COULDNT_CONNECT, o);
    HostLoopExplains(c1, 1, code, o);
    RaceExplains(ConnectHost(c, version, timeout, o).0, first, events, o);
  }

  lemma PrepareHasNoLog(c: Conn, version: IpVersion, timeout: int)
    requires Fresh(c) && timeout >= 0
    ensures Prepare(c, version, timeout).log == [] && Prepare(c, version, timeout).created == 0
  {
  }

  // ---------- how many sockets are opened ----------

  /** Of the first `n` attempts, those that opened a socket: still connecting, or failed after opening one. */
  function Opening(n: nat, o: nat -> Attempt): nat
  {
    if n == 0 then 0
    else Opening(n - 1, o) + match o(n - 1) case Pending => 1 case Failed(opens, _) => if opens then 1 else 0
  }

  predicate Counted(c: Conn, o: nat -> Attempt)
  {
    c.created == Opening(|c.log|, o)
  }

  lemma SingleCounts(c: Conn, i: nat, o: nat -> Attempt)
    requires Shaped(c) && i < 2 && c.tempaddr[i] < |c.family| && Counted(c, o)
    ensures Counted(Single(c, i, o).0, o)
  {
  }

  lemma {:induction false} TryFromCounts(c: Conn, i: nat, o: nat -> Attempt)
    requires Shaped(c) && i < 2 && Counted(c, o)
    ensures Counted(TryFrom(c, i, o).0, o)
    decreases |c.family| - c.tempaddr[i]
  {
    hide Single;
    if c.tempaddr[i] < |c.family| {
      SingleAddresses(c, i, o);
      SingleCounts(c, i, o);
      var (c1, code) := Single(c, i, o);
      if code == COULDNT_CONNECT {
        TryFromCounts(Ainext(c1, i, true), i, o);
      }
    }
  }

  lemma {:induction false} HostLoopCounts(c: Conn, i: nat, result: int, o: nat -> Attempt)
    requires Shaped(c) && i < 2 && Counted(c, o)
    ensures Counted(HostLoop(c, i, result, o).0, o)
    decreases |c.family| - c.tempaddr[i]
  {
    hide Single;
    if c.tempaddr[i] < |c.family| {
      SingleAddresses(c, i, o);
      SingleCounts(c, i, o);
      var (c1, code) := Single(c, i, o);
      if code != OK {
        HostLoopCounts(Ainext(c1, i, true), i, code, o);
      }
    }
  }

  lemma TryNextCounts(c: Conn, first: bool, i: nat, o: nat -> Attempt)
    requires Shaped(c) && i < 2 && Counted(c, o)
    ensures Counted(TryNextIp(c, first, i, o).0, o)
  {
    hide TryFrom;
    TryFromCounts(c.(tempsock := c.tempsock[i := None]), i, o);
  }

  lemma AfterPollCounts(c: Conn, first: bool, i: nat, result: int, failed: bool, allow: int, o: nat -> Attempt)
    requires Shaped(c) && i < 2 && Counted(c, o)
    ensures Counted(AfterPoll(c, first, i, result, failed, allow, o).c, o)
  {
    hide TryNextIp;
    if failed && c.tempaddr[i] < |c.family| {
      var t := if c.tempaddr[i] + 1 == |c.family| then allow else Half(allow);
      TryNextCounts(Ainext(c.(timeouts := c.timeouts[i := t]), i, true), first, i, o);
    }
  }

  lemma SlotCounts(c: Conn, first: bool, i: nat, result: int, e: Input, o: nat -> Attempt)
    requires Shaped(c) && i < 2 && Counted(c, o)
    ensures Counted(Slot(c, first, i, result, e, o).c, o)
  {
    hide TryNextIp, AfterPoll;
    if c.tempsock[i].Some? {
      match e.poll[i]
      case Writable(error) => AfterPollCounts(c, first, i, result, true, e.allow, o);
      case Errored(error) => AfterPollCounts(c, first, i, result, error != 0, e.allow, o);
      case NotYet =>
        TryNextCounts(c.(parallel := true), first, 1, o);
        var c1 := if i == 0 && !c.parallel && e.happy then TryNextIp(c.(parallel := true), first, 1, o).0 else c;
        AfterPollCounts(c1, first, i, result, e.elapsed[i] >= c.timeouts[i], e.allow, o);
    }
  }

  lemma CallCounts(c: Conn, first: bool, e: Input, o: nat -> Attempt)
    requires Shaped(c) && Counted(c, o)
    ensures Counted(IsConnected(c, first, e, o).0, o)
  {
    hide Slot, TryNextIp, Counted;
    SlotCounts(c, first, 0, OK, e, o);
    var s := Slot(c, first, 0, OK, e, o);
    if s.GoOn? {
      SlotCounts(s.c, first, 1, s.result, e, o);
      TryNextCounts(Slot(s.c, first, 1, s.result, e, o).c, first, 1, o);
    }
  }

  lemma {:induction false} RaceCounts(c: Conn, first: bool, events: seq<Input>, o: nat -> Attempt)
    requires Shaped(c) && Counted(c, o)
    ensures Counted(Race(c, first, events, o).0, o)
    decreases |events|
  {
    hide IsConnected, Counted;
    if events != [] {
      CallCounts(c, first, events[0], o);
      RaceCounts(IsConnected(c, first, events[0], o).0, first, events[1..], o);
    }
  }

  /** Over a whole connection as many sockets are opened as there are attempts that open one. */
  lemma AttemptsOpenSockets(c: Conn, first: bool, version: IpVersion, timeout: int, events: seq<Input>, o: nat -> Attempt)
    requires Fresh(c) && timeout >= 0
    ensures var d := Connection(c, first, version, timeout, events, o).0; d.created == Opening(|d.log|, o)
  {
    hide HostLoop, Race, Prepare;
    PrepareHasNoLog(c, version, timeout);
    var c0 := Prepare(c, version, timeout);
    HostLoopCounts(c0, 0, COULDNT_CONNECT, o);
    var (c1, code) := HostLoop(c0, 0, COULDNT_CONNECT, o);
    HostLoopCounts(c1, 1, code, o);
    RaceCounts(ConnectHost(c, version, timeout, o).0, first, events, o);
  }
}
