/** The connection as libcurl updates it in place (curl/lib/connect.c), proved against `Connect`. */
module ConnectData {
  import opened CString
  import opened Connect
  import opened ConnectLog
  import opened ConnectOrder
  import opened ConnectOutcome
  import opened ConnectSafety

  class ConnectData {
    const family: seq<int>               // the resolver's list
    var tempfamily: seq<int>
    var tempaddr: seq<nat>
    var tempsock: seq<Option<nat>>
    var timeouts: seq<int>
    var sock: Option<nat>
    var parallel: bool
    var created: nat
    var closed: seq<nat>
    var log: seq<(nat, nat)>

    constructor (family: seq<int>)
      ensures Shaped(View()) && this.family == family && tempsock == [None, None] && sock.None?
      ensures created == 0 && closed == [] && log == []
    {
      this.family := family;
      tempfamily, tempaddr, tempsock := [AF_UNSPEC, AF_UNSPEC], [0, 0], [None, None];
      timeouts, sock, parallel, created, closed, log := [0, 0], None, false, 0, [], [];
    }

    function View(): Conn
      reads this
    {
      Conn(family, tempfamily, tempaddr, tempsock, timeouts, sock, parallel, created, closed, log)
    }

    method Ainext(i: nat, next: bool)
      requires Shaped(View()) && i < 2
      modifies this`tempaddr
      ensures View() == Connect.Ainext(old(View()), i, next)
    {
      var ai := tempaddr[i];
      if ai < |family| && next {
        ai := ai + 1;
      }
      while ai < |family| && family[ai] != tempfamily[i]
        invariant ai <= |family| && NextOf(family, tempfamily[i], ai) == Connect.Ainext(old(View()), i, next).tempaddr[i]
      {
        ai := ai + 1;
      }
      tempaddr := tempaddr[i := ai];
    }

    method CloseSocket(s: Option<nat>)
      requires Shaped(View())
      modifies this`closed
      ensures View() == CloseIf(old(View()), s)
    {
      if s.Some? {
        closed := closed + [s.value];
      }
    }

    method SingleIpConnect(i: nat, o: nat -> Attempt) returns (result: int)
      requires Shaped(View()) && i < 2 && tempaddr[i] < |family|
      modifies this`tempsock, this`created, this`closed, this`log
      ensures (View(), result) == Single(old(View()), i, o)
    {
      tempsock := tempsock[i := None];
      var attempt := o(|log|);
      log := log + [(i, tempaddr[i])];
      match attempt
      case Pending =>
        tempsock := tempsock[i := Some(created)];
        assert tempsock == old(tempsock)[i := Some(created)];
        created := created + 1;
        result := OK;
      case Failed(opens, code) =>
        if opens {
          closed := closed + [created];
          created := created + 1;
        }
        result := code;
    }

    method TryNextIp(first: bool, i: nat, o: nat -> Attempt) returns (result: int)
      requires Shaped(View()) && i < 2
      modifies this`tempaddr, this`tempsock, this`created, this`closed, this`log
      ensures (View(), result) == Connect.TryNextIp(old(View()), first, i, o)
    {
      hide Single, Connect.Ainext;
      result := COULDNT_CONNECT;
      var toClose := tempsock[i];
      tempsock := tempsock[i := None];
      if first {
        ghost var goal := TryFrom(View(), i, o);
        while tempaddr[i] < |family|
          invariant Shaped(View()) && result == COULDNT_CONNECT && TryFrom(View(), i, o) == goal
          decreases |family| - tempaddr[i]
        {
          ghost var before := View();
          result := SingleIpConnect(i, o);
          assert (View(), result) == Single(before, i, o);
          if result != COULDNT_CONNECT {
            break;
          }
          Advances(before, i, o);
          Ainext(i, true);
        }
        assert (View(), result) == goal;
      }
      CloseSocket(toClose);
    }

    method ConnectHost(version: IpVersion, timeout: int, o: nat -> Attempt) returns (result: int)
      requires Shaped(View()) && family != [] && timeout >= 0
      modifies this
      ensures (View(), result) == Connect.ConnectHost(old(View()), version, timeout, o)
    {
      hide HostLoop, Prepare;
      PrepareSlots(version, timeout);
      result := HostSlot(0, COULDNT_CONNECT, o);
      if result != OK {
        result := HostSlot(1, result, o);
      }
    }

    method PrepareSlots(version: IpVersion, timeout: int)
      requires Shaped(View()) && family != []
      modifies this`tempaddr, this`tempsock, this`timeouts, this`tempfamily
      ensures View() == Prepare(old(View()), version, timeout)
    {
      hide Connect.Ainext;
      tempaddr, tempsock := [0, 0], [None, None];
      var t := if |family| == 1 then timeout else timeout / 2;
      timeouts := [t, t];
      match version {
        case Whatever =>
          tempfamily := [family[0], if family[0] == AF_INET6 then AF_INET else AF_INET6];
        case V4 =>
          tempfamily := [AF_INET, AF_UNSPEC];
          Ainext(0, false);
        case V6 =>
          tempfamily := [AF_INET6, AF_UNSPEC];
          Ainext(0, false);
      }
      Ainext(1, false);
    }

    /** The inner loop of Curl_connecthost. */
    method HostSlot(i: nat, result0: int, o: nat -> Attempt) returns (result: int)
      requires Shaped(View()) && i < 2
      modifies this`tempaddr, this`tempsock, this`created, this`closed, this`log
      ensures (View(), result) == HostLoop(old(View()), i, result0, o)
    {
      hide Single, Connect.Ainext;
      result := result0;
      ghost var goal := HostLoop(View(), i, result, o);
      while tempaddr[i] < |family|
        invariant Shaped(View()) && HostLoop(View(), i, result, o) == goal
        decreases |family| - tempaddr[i]
      {
        ghost var before := View();
        result := SingleIpConnect(i, o);
        assert (View(), result) == Single(before, i, o);
        if result == OK {
          break;
        }
        Advances(before, i, o);
        Ainext(i, true);
      }
    }

    /** The failed address of a slot gives way to the next one. */
    method MoveOn(first: bool, i: nat, result0: int, allow: int, o: nat -> Attempt) returns (result: int)
      requires Shaped(View()) && i < 2 && tempaddr[i] < |family|
      modifies this
      ensures (View(), result) == NextAddress(old(View()), first, i, result0, allow, o)
    {
      hide Connect.Ainext, Connect.TryNextIp;
      result := result0;
      timeouts := timeouts[i := if tempaddr[i] + 1 == |family| then allow else Half(allow)];
      Ainext(i, true);
      var status := TryNextIp(first, i, o);
      if status != COULDNT_CONNECT || tempsock[1 - i].None? {
        if result == OK {
          result := status;
        }
      }
    }

    /** One round of the loop over the slots. */
    method CheckSlot(first: bool, i: nat, result0: int, e: Input, o: nat -> Attempt)
      returns (connected: bool, result: int)
      requires Shaped(View()) && i < 2
      modifies this
      ensures Slot(old(View()), first, i, result0, e, o) == if connected then Connected(View()) else GoOn(View(), result)
    {
      hide Connect.Ainext, Connect.TryNextIp, NextAddress;
      connected, result := false, result0;
      if tempsock[i].None? {
        return;
      }
      var failed := false;
      match e.poll[i] {
        case NotYet =>
          failed := e.elapsed[i] >= timeouts[i];
          if i == 0 && !parallel && e.happy {
            parallel := true;
            var _ := TryNextIp(first, 1, o);
          }
        case Writable(error) =>
          if error == 0 {
            sock := tempsock[i];
            var other := tempsock[1 - i];
            tempsock := tempsock[i := None];
            if other.Some? {
              CloseSocket(other);
              tempsock := tempsock[1 - i := None];
            }
            assert tempsock == [None, None];
            connected := true;
            return;
          }
          failed := true;
        case Errored(error) =>
          failed := error != 0;
      }
      if failed && tempaddr[i] < |family| {
        result := MoveOn(first, i, result, e.allow, o);
      }
    }

    method IsConnected(first: bool, e: Input, o: nat -> Attempt) returns (verdict: Verdict)
      requires Shaped(View())
      modifies this
      ensures (View(), verdict) == Connect.IsConnected(old(View()), first, e, o)
    {
      hide Slot, Connect.TryNextIp;
      var connected, result := CheckSlot(first, 0, OK, e, o);
      if connected {
        return Won;
      }
      connected, result := CheckSlot(first, 1, result, e, o);
      if connected {
        return Won;
      }
      if e.allow < 0 {
        return TimedOut;
      }
      if result != OK && tempsock[0].None? && tempsock[1].None? {
        var status := TryNextIp(first, 1, o);
        return if status == OK then StillTrying else NoMore(result);
      }
      return StillTrying;
    }

    /** One call of `is_connected` for each event until one of them decides. */
    method WaitFor(first: bool, events: seq<Input>, o: nat -> Attempt) returns (verdict: Verdict)
      requires Shaped(View())
      modifies this
      ensures (View(), verdict) == Race(old(View()), first, events, o)
    {
      hide Connect.IsConnected;
      verdict := StillTrying;
      var i := 0;
      while i < |events| && verdict.StillTrying?
        invariant 0 <= i <= |events| && Shaped(View())
        invariant Race(old(View()), first, events, o) ==
                  if verdict.StillTrying? then Race(View(), first, events[i..], o) else (View(), verdict)
      {
        verdict := IsConnected(first, events[i], o);
        assert events[i..][1..] == events[i + 1..];
        i := i + 1;
      }
    }

    /** A whole connection on the first socket: it is won exactly when a pending socket turns out writable without an error,
        and by that socket; every opened socket is in one place at the end, only a winner is
        connected, each attempt was the due one, and what is still going has a socket pending or is stalled by an attempt
        that reported CURLE_OK without one. */
    method RunToEnd(version: IpVersion, timeout: int, events: seq<Input>, o: nat -> Attempt) returns (verdict: Verdict)
      requires Fresh(View()) && timeout >= 0
      modifies this
      ensures (View(), verdict) == Connection(old(View()), true, version, timeout, events, o)
      ensures EndsWell(RunOf(old(View()), version, timeout, o), View(), verdict)
      ensures var (c, code) := Connect.ConnectHost(old(View()), version, timeout, o);
              if code == OK then WonRightly(c, true, events, o, View(), verdict) else verdict == NoMore(code)
    {
      ConnectionWins(View(), true, version, timeout, events, o);
      RunEndsWell(View(), version, timeout, events, o);
      hide Connect.ConnectHost, Race, EndsWell, WonRightly;
      var result := ConnectHost(version, timeout, o);
      if result == OK {
        verdict := WaitFor(true, events, o);
      } else {
        verdict := NoMore(result);
      }
    }
  }

  /** What a caller can rely on when a run has come this far. */
  ghost predicate EndsWell(r: Run, c: Conn, verdict: Verdict)
  {
    && Conserved(c) && (verdict.Won? <==> c.sock.Some?)
    && (verdict.Won? ==> c.tempsock == [None, None])
    && (verdict.Won? ==> forall k: nat :: k < c.created && k != c.sock.value ==> multiset(c.closed)[k] == 1)
    && Walks(r, c.log) && FewRetries(r, c.log)
    && (verdict.StillTrying? && c.tempsock == [None, None] ==> Hollow(r, c.log))
  }

  lemma RunEndsWell(c: Conn, version: IpVersion, timeout: int, events: seq<Input>, o: nat -> Attempt)
    requires Fresh(c) && timeout >= 0
    ensures var (d, v) := Connection(c, true, version, timeout, events, o);
            EndsWell(RunOf(c, version, timeout, o), d, v)
  {
    hide Connection, RunOf, Conserved, Walks, FewRetries, Hollow;
    SocketsAreConserved(c, true, version, timeout, events, o);
    EveryAttemptIsDue(c, version, timeout, events, o);
    StillTryingExactly(c, version, timeout, events, o);
  }

  /** After a failed attempt, moving on reaches a later address. */
  lemma Advances(c: Conn, i: nat, o: nat -> Attempt)
    requires Shaped(c) && i < 2 && c.tempaddr[i] < |c.family|
    ensures var c1 := Single(c, i, o).0;
            Connect.Ainext(c1, i, true).tempaddr[i] > c.tempaddr[i] && Connect.Ainext(c1, i, true).family == c.family
  {
  }
}
