/** Happy Eyeballs: two address families race through two slots (curl/lib/connect.c, IPv6 build, plain TCP).
    This module says what each call does to the connection, as a value. */
module Connect {
  import opened CString

  const OK: int := 0
  const COULDNT_CONNECT: int := 7

  const AF_UNSPEC: int := 0
  const AF_INET: int := 2
  const AF_INET6: int := 10

  /** How one connection attempt ends: a socket that is still connecting, or a result code, with a socket
      that was opened and closed again or never opened. */
  datatype Attempt = Pending | Failed(opens: bool, code: int)

  /** The fields of `struct connectdata` that take part, and a log of what happened to sockets and addresses.
      Addresses are places in the resolver's list; `|family|` stands for the null address. */
  datatype Conn = Conn(
    family: seq<int>,            // address family of each entry of the list
    tempfamily: seq<int>,        // family of each slot
    tempaddr: seq<nat>,          // address each slot stands on
    tempsock: seq<Option<nat>>,  // pending socket of each slot
    timeouts: seq<int>,          // time allowed per address, of each slot
    sock: Option<nat>,           // the connected socket
    parallel: bool,              // the second family has been started by the timer
    created: nat,                 // sockets opened so far, numbered from 0
    closed: seq<nat>,            // sockets closed, in order
    log: seq<(nat, nat)>)        // attempts: slot and address

  predicate Shaped(c: Conn)
  {
    && |c.tempfamily| == |c.tempaddr| == |c.tempsock| == |c.timeouts| == 2
    && c.tempaddr[0] <= |c.family| && c.tempaddr[1] <= |c.family|
    && (forall e :: e in c.log ==> e.0 < 2 && e.1 < |c.family|)
  }

  /** The first place from `k` on whose address has family `f`. */
  function NextOf(family: seq<int>, f: int, k: nat): (r: nat)
    requires k <= |family|
    ensures k <= r <= |family| && (r < |family| ==> family[r] == f)
    ensures forall i :: k <= i < r ==> family[i] != f
    decreases |family| - k
  {
    if k == |family| || family[k] == f then k else NextOf(family, f, k + 1)
  }

  function Ainext(c: Conn, i: nat, next: bool): (r: Conn)
    requires Shaped(c) && i < 2
    ensures Shaped(r)
  {
    var k := if next && c.tempaddr[i] < |c.family| then c.tempaddr[i] + 1 else c.tempaddr[i];
    c.(tempaddr := c.tempaddr[i := NextOf(c.family, c.tempfamily[i], k)])
  }

  /** One attempt on the address the slot stands on; `o` tells how the n-th attempt of all ends. */
  function Single(c: Conn, i: nat, o: nat -> Attempt): (r: (Conn, int))
    requires Shaped(c) && i < 2 && c.tempaddr[i] < |c.family|
    ensures Shaped(r.0)
  {
    var c1 := c.(tempsock := c.tempsock[i := None], log := c.log + [(i, c.tempaddr[i])]);
    match o(|c.log|)
    case Pending => (c1.(created := c.created + 1, tempsock := c.tempsock[i := Some(c.created)]), OK)
    case Failed(opens, code) =>
      (if opens then c1.(created := c.created + 1, closed := c.closed + [c.created]) else c1, code)
  }

  /** The loop of `trynextip`: goes on while attempts give CURLE_COULDNT_CONNECT. */
  function TryFrom(c: Conn, i: nat, o: nat -> Attempt): (r: (Conn, int))
    requires Shaped(c) && i < 2
    ensures Shaped(r.0)
    decreases |c.family| - c.tempaddr[i]
  {
    if c.tempaddr[i] == |c.family| then (c, COULDNT_CONNECT) else
    var (c1, code) := Single(c, i, o);
    if code == COULDNT_CONNECT then TryFrom(Ainext(c1, i, true), i, o) else (c1, code)
  }

  function CloseIf(c: Conn, s: Option<nat>): (r: Conn)
    requires Shaped(c)
    ensures Shaped(r)
  {
    if s.Some? then c.(closed := c.closed + [s.value]) else c
  }

  /** `trynextip`; only the first socket of a connection has addresses to try. */
  function TryNextIp(c: Conn, first: bool, i: nat, o: nat -> Attempt): (r: (Conn, int))
    requires Shaped(c) && i < 2
    ensures Shaped(r.0)
  {
    var c1 := c.(tempsock := c.tempsock[i := None]);
    var (c2, code) := if first then TryFrom(c1, i, o) else (c1, COULDNT_CONNECT);
    (CloseIf(c2, c.tempsock[i]), code)
  }

  // ---------- Curl_connecthost ----------

  datatype IpVersion = Whatever | V4 | V6

  /** Both slots before the first attempt. */
  function Prepare(c: Conn, version: IpVersion, timeout: int): (r: Conn)
    requires Shaped(c) && c.family != []
    ensures Shaped(r)
  {
    var t := if |c.family| == 1 then timeout else timeout / 2;
    var fams := match version
      case Whatever => [c.family[0], if c.family[0] == AF_INET6 then AF_INET else AF_INET6]
      case V4 => [AF_INET, AF_UNSPEC]
      case V6 => [AF_INET6, AF_UNSPEC];
    var c1 := c.(tempaddr := [0, 0], tempsock := [None, None], timeouts := [t, t], tempfamily := fams);
    Ainext(if version.Whatever? then c1 else Ainext(c1, 0, false), 1, false)
  }

  /** The inner loop: goes on after any failure. */
  function HostLoop(c: Conn, i: nat, result: int, o: nat -> Attempt): (r: (Conn, int))
    requires Shaped(c) && i < 2
    ensures Shaped(r.0)
    decreases |c.family| - c.tempaddr[i]
  {
    if c.tempaddr[i] == |c.family| then (c, result) else
    var (c1, code) := Single(c, i, o);
    if code == OK then (c1, code) else HostLoop(Ainext(c1, i, true), i, code, o)
  }

  function ConnectHost(c: Conn, version: IpVersion, timeout: int, o: nat -> Attempt): (r: (Conn, int))
    requires Shaped(c) && c.family != [] && timeout >= 0
    ensures Shaped(r.0)
  {
    var (c1, code) := HostLoop(Prepare(c, version, timeout), 0, COULDNT_CONNECT, o);
    if code == OK then (c1, code) else HostLoop(c1, 1, code, o)
  }

  // ---------- is_connected ----------

  /** What polling a pending socket shows: nothing yet, writable, or an error condition; the number is
      the pending socket error, 0 when there is none. */
  datatype Poll = NotYet | Writable(error: int) | Errored(error: int)

  /** What one call finds: per slot the poll result and the time since the last attempt began, then whether
      the Happy Eyeballs timer is over and the time left in all. */
  datatype Event = Event(poll: seq<Poll>, elapsed: seq<int>, happy: bool, allow: int)

  type Input = e: Event | |e.poll| == 2 && |e.elapsed| == 2 witness Event([NotYet, NotYet], [0, 0], false, 0)

  function Half(x: int): int   // C division
  {
    if x >= 0 then x / 2 else -(-x / 2)
  }

  /** The connected socket moves to its place and the other slot's socket is closed. */
  function Win(c: Conn, i: nat): (r: Conn)
    requires Shaped(c) && i < 2
    ensures Shaped(r)
  {
    CloseIf(c.(sock := c.tempsock[i], tempsock := [None, None]), c.tempsock[1 - i])
  }

  /** The address of slot `i` has failed: on to the next one of the family. */
  function NextAddress(c: Conn, first: bool, i: nat, result: int, allow: int, o: nat -> Attempt): (r: (Conn, int))
    requires Shaped(c) && i < 2 && c.tempaddr[i] < |c.family|
    ensures Shaped(r.0)
  {
    var t := if c.tempaddr[i] + 1 == |c.family| then allow else Half(allow);
    var (c1, status) := TryNextIp(Ainext(c.(timeouts := c.timeouts[i := t]), i, true), first, i, o);
    (c1, if (status != COULDNT_CONNECT || c1.tempsock[1 - i].None?) && result == OK then status else result)
  }

  datatype SlotResult = Connected(c: Conn) | GoOn(c: Conn, result: int)

  /** One round of the loop over the two slots. */
  function Slot(c: Conn, first: bool, i: nat, result: int, e: Input, o: nat -> Attempt): (r: SlotResult)
    requires Shaped(c) && i < 2
    ensures Shaped(r.c)
  {
    if c.tempsock[i].None? then GoOn(c, result) else
    match e.poll[i]
    case Writable(error) =>
      if error == 0 then Connected(Win(c, i)) else AfterPoll(c, first, i, result, true, e.allow, o)
    case Errored(error) => AfterPoll(c, first, i, result, error != 0, e.allow, o)
    case NotYet =>
      var c1 := if i == 0 && !c.parallel && e.happy then TryNextIp(c.(parallel := true), first, 1, o).0 else c;
      AfterPoll(c1, first, i, result, e.elapsed[i] >= c.timeouts[i], e.allow, o)
  }

  function AfterPoll(c: Conn, first: bool, i: nat, result: int, failed: bool, allow: int, o: nat -> Attempt): (r: SlotResult)
    requires Shaped(c) && i < 2
    ensures Shaped(r.c)
  {
    if failed && c.tempaddr[i] < |c.family| then
      var (c1, result1) := NextAddress(c, first, i, result, allow, o);
      GoOn(c1, result1)
    else GoOn(c, result)
  }

  datatype Verdict = Won | StillTrying | TimedOut | NoMore(code: int)

  function Conclude(c: Conn, first: bool, result: int, allow: int, o: nat -> Attempt): (r: (Conn, Verdict))
    requires Shaped(c)
    ensures Shaped(r.0)
  {
    if allow < 0 then (c, TimedOut)
    else if result != OK && c.tempsock[0].None? && c.tempsock[1].None? then
      var (c1, code) := TryNextIp(c, first, 1, o);
      (c1, if code == OK then StillTrying else NoMore(result))
    else (c, StillTrying)
  }

  function IsConnected(c: Conn, first: bool, e: Input, o: nat -> Attempt): (r: (Conn, Verdict))
    requires Shaped(c)
    ensures Shaped(r.0)
  {
    var s0 := Slot(c, first, 0, OK, e, o);
    if s0.Connected? then (s0.c, Won) else
    var s1 := Slot(s0.c, first, 1, s0.result, e, o);
    if s1.Connected? then (s1.c, Won) else Conclude(s1.c, first, s1.result, e.allow, o)
  }

  /** Calls of `is_connected` until one of them decides. */
  function Race(c: Conn, first: bool, events: seq<Input>, o: nat -> Attempt): (r: (Conn, Verdict))
    requires Shaped(c)
    ensures Shaped(r.0)
    decreases |events|
  {
    if events == [] then (c, StillTrying) else
    var (c1, v) := IsConnected(c, first, events[0], o);
    if v.StillTrying? then Race(c1, first, events[1..], o) else (c1, v)
  }
}
