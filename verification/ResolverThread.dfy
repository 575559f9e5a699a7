/** The hand-off between a resolver thread and its parent (curl/lib/asyn-thread.c), step by step in any interleaving. */
module ResolverThread {
  import opened CString

  datatype Who = TheThread | TheParent

  /** Where `getaddrinfo_thread` is. */
  datatype ThreadPc =
    | NotStarted
    | Resolve
    | Acquire
    | Decide
    | LateRelease   // done was set already: clean up here
    | LateDestroy
    | LateFree
    | Wake          // done was not set: signal the parent
    | Mark
    | Release
    | Exited

  /** Inside `init_resolve_thread`, after `init_thread_sync_data` succeeded. */
  datatype InitPc = CopyName | MarkUndone | Create | CreateFailed | StoreHandle

  /** Inside `Curl_resolver_is_resolved`. */
  datatype PollPc = PollAcquire | PollRead | PollRelease(seen: bool)

  /** Inside `thread_wait_resolv`, and `getaddrinfo_complete` of both callers. */
  datatype WaitPc = JoinFirst(wanted: bool) | Complete

  /** Inside `destroy_async_data`. */
  datatype DestroyPc =
    | DestroyAcquire
    | DestroySwap
    | DestroyRelease(seen: bool)
    | Detach
    | JoinLast
    | DestroySync
    | FreeData
    | CloseRead

  /** Where the parent is: between calls, or inside one of them. */
  datatype ParentPc =
    | Idle
    | Initializing(init: InitPc)
    | Polling(poll: PollPc)
    | Waiting(wait: WaitPc)
    | Destroying(destroy: DestroyPc)

  /** The address list: not there, in `tsd->res`, owned by the callback, freed, or referred to by nobody. */
  datatype ListAt = NoList | InSync | Given | Freed | Lost

  /** What an idle parent calls next: a poll, a wait for the result or just for the end, or one of the two ways to stop. */
  datatype Call = IsResolved | WaitResolv(wanted: bool) | Kill(quickExit: bool) | Cancel

  datatype State = State(
    parent: ParentPc, thread: ThreadPc, mutex: Option<Who>,
    done: bool, error: bool, list: ListAt,
    handle: bool,          // td->thread_hnd is not null
    tdata: bool,           // async->tdata is not null
    // history, read by no step
    parentFirst: bool,     // destroy_async_data found `done` clear
    found: bool,           // the name was resolved
    collected: bool,       // getaddrinfo_complete ran
    call: Option<Call>,    // the last call that found a resolve in progress
    read: Option<bool>,    // what it read `done` as, if it is a poll that got that far
    wakeFailed: bool, syncDestroyed: nat, dataFreed: nat, joined: nat, detached: nat, readClosed: nat)

  /** After a successful init_thread_sync_data: done until the thread starts. */
  const Start: State :=
    State(Initializing(CopyName), NotStarted, None, true, false, NoList, false, true, false, false, false, None, None, false, 0, 0, 0, 0, 0)

  /** `destroy_thread_sync_data`: frees the list if it is still there, and closes the write end. */
  function DestroySyncData(s: State): State
  {
    s.(syncDestroyed := s.syncDestroyed + 1, list := if s.list == InSync then Freed else s.list)
  }

  /** `getaddrinfo_complete`: the callback takes the list only with a success status; the field is cleared anyway. */
  function GetaddrinfoComplete(s: State): State
  {
    s.(list := if s.list != InSync then s.list else if s.error then Lost else Given, collected := true)
  }

  /** One step of the thread; `ok` says whether the system call of the step succeeds. */
  function ThreadStep(s: State, ok: bool): Option<State>
  {
    match s.thread
    case NotStarted => None
    case Resolve =>
      Some(if ok then s.(thread := Acquire, list := InSync, found := true) else s.(thread := Acquire, error := true))
    case Acquire => if s.mutex == None then Some(s.(thread := Decide, mutex := Some(TheThread))) else None
    case Decide => Some(s.(thread := if s.done then LateRelease else Wake))
    case LateRelease => Some(s.(thread := LateDestroy, mutex := None))
    case LateDestroy => Some(DestroySyncData(s).(thread := LateFree))
    case LateFree => Some(s.(thread := Exited, dataFreed := s.dataFreed + 1))
    case Wake => Some(if ok then s.(thread := Mark) else s.(thread := Mark, error := true, wakeFailed := true))
    case Mark => Some(s.(thread := Release, done := true))
    case Release => Some(s.(thread := Exited, mutex := None))
    case Exited => None
  }

  function At(s: State, pc: DestroyPc): State
  {
    s.(parent := Destroying(pc))
  }

  function CancelCall(s: State): Option<State>
  {
    Some(if s.tdata then At(s, DestroyAcquire) else s)
  }

  /** The call is noted when there is a resolve in progress. */
  function Noted(s: State, call: Call): State
  {
    if s.tdata then s.(call := Some(call), read := None) else s
  }

  function Enter(s0: State, call: Call): Option<State>
  {
    var s := Noted(s0, call);
    match call
    case IsResolved => Some(if s.tdata then s.(parent := Polling(PollAcquire)) else s)
    case WaitResolv(wanted) => if s.tdata then Some(s.(parent := Waiting(JoinFirst(wanted)))) else None
    case Kill(quickExit) =>
      if s.tdata && s.handle && !quickExit then Some(s.(parent := Waiting(JoinFirst(false)))) else CancelCall(s)
    case Cancel => CancelCall(s)
  }

  function InitStep(s: State, pc: InitPc, ok: bool): State
  {
    match pc
    case CopyName => if ok then s.(parent := Initializing(MarkUndone)) else At(s, DestroyAcquire)
    case MarkUndone => s.(parent := Initializing(Create), done := false)
    case Create =>
      if ok then s.(parent := Initializing(StoreHandle), thread := Resolve) else s.(parent := Initializing(CreateFailed))
    case CreateFailed => At(s, DestroyAcquire).(done := true)
    case StoreHandle => s.(parent := Idle, handle := true)
  }

  function PollStep(s: State, pc: PollPc): Option<State>
  {
    match pc
    case PollAcquire =>
      if s.mutex == None then Some(s.(parent := Polling(PollRead), mutex := Some(TheParent))) else None
    case PollRead => Some(s.(parent := Polling(PollRelease(s.done)), read := Some(s.done)))
    case PollRelease(seen) => Some(s.(parent := if seen then Waiting(Complete) else Idle, mutex := None))
  }

  function Join(s: State): Option<State>
  {
    if s.thread == Exited then Some(s.(handle := false, joined := s.joined + 1)) else None
  }

  function WaitStep(s: State, pc: WaitPc): Option<State>
  {
    match pc
    case JoinFirst(wanted) =>
      var j := Join(s);
      if j.None? then None
      else Some(j.value.(parent := if wanted then Waiting(Complete) else Destroying(DestroyAcquire)))
    case Complete => Some(At(GetaddrinfoComplete(s), DestroyAcquire))
  }

  function DestroyStep(s: State, pc: DestroyPc): Option<State>
  {
    match pc
    case DestroyAcquire => if s.mutex == None then Some(At(s, DestroySwap).(mutex := Some(TheParent))) else None
    case DestroySwap => Some(At(s, DestroyRelease(s.done)).(done := true, parentFirst := !s.done))
    case DestroyRelease(seen) =>
      Some(At(s, if !seen then Detach else if s.handle then JoinLast else DestroySync).(mutex := None))
    case Detach => Some(At(s, CloseRead).(detached := s.detached + 1))
    case JoinLast => var j := Join(s); if j.None? then None else Some(At(j.value, DestroySync))
    case DestroySync => Some(At(DestroySyncData(s), FreeData))
    case FreeData => Some(At(s, CloseRead).(dataFreed := s.dataFreed + 1))
    case CloseRead => Some(s.(parent := Idle, tdata := false, readClosed := s.readClosed + 1))
  }

  /** One step of the parent. */
  function ParentStep(s: State, call: Call, ok: bool): Option<State>
  {
    match s.parent
    case Idle => Enter(s, call)
    case Initializing(pc) => Some(InitStep(s, pc, ok))
    case Polling(pc) => PollStep(s, pc)
    case Waiting(pc) => WaitStep(s, pc)
    case Destroying(pc) => DestroyStep(s, pc)
  }

  datatype Action = OfThread(ok: bool) | OfParent(call: Call, ok: bool)

  function Next(s: State, a: Action): Option<State>
  {
    match a
    case OfThread(ok) => ThreadStep(s, ok)
    case OfParent(call, ok) => ParentStep(s, call, ok)
  }

  /** The state after a schedule; a step that is not enabled waits. */
  function After(schedule: seq<Action>): State
  {
    if schedule == [] then Start else
    var s := After(schedule[..|schedule| - 1]);
    var n := Next(s, schedule[|schedule| - 1]);
    if n.Some? then n.value else s
  }

  // ---------- the invariant ----------

  /** The thread has set `done` and will never look at the data again. */
  predicate ThreadDone(s: State)
  {
    s.thread == Release || (s.thread == Exited && !s.parentFirst)
  }

  /** The parent has given up the data, or freed it. */
  predicate Over(s: State)
  {
    s.parent == Destroying(Detach) || s.parent == Destroying(CloseRead) || (s.parent == Idle && !s.tdata)
  }

  predicate ParentHolds(pc: ParentPc)
  {
    || (pc.Polling? && pc.poll != PollAcquire)
    || (pc.Destroying? && (pc.destroy == DestroySwap || pc.destroy.DestroyRelease?))
  }

  predicate LocksInv(s: State)
  {
    && (s.mutex == Some(TheThread) <==> s.thread in {Decide, LateRelease, Wake, Mark, Release})
    && (s.mutex == Some(TheParent) <==> ParentHolds(s.parent))
  }

  /** Before the thread exists, except between clearing `done` and setting it again. */
  predicate NotYet(s: State)
  {
    s.thread == NotStarted && s.parent != Initializing(Create) && s.parent != Initializing(CreateFailed)
  }

  /** `done` says who came first. */
  predicate DoneInv(s: State)
  {
    && (s.done <==> NotYet(s) || s.parentFirst || ThreadDone(s))
    && (s.parentFirst ==> s.thread != NotStarted && (s.parent == Destroying(DestroyRelease(false)) || Over(s)))
    && (s.thread in {LateRelease, LateDestroy, LateFree} ==> s.parentFirst)
    && (s.thread in {Wake, Mark, Release} ==> !s.parentFirst)
  }

  /** What each point of the parent knows. */
  predicate PointInv(s: State)
  {
    && (!s.tdata ==> s.parent == Idle)
    && match s.parent
       case Idle => s.tdata ==> s.thread != NotStarted && s.handle
       case Initializing(pc) => s.joined == 0 && !s.handle && (s.thread == NotStarted <==> pc != StoreHandle)
       case Polling(pc) => s.handle && (pc.PollRelease? ==> (pc.seen <==> ThreadDone(s)))
       case Waiting(pc) => if pc == Complete then ThreadDone(s) else s.handle
       case Destroying(pc) =>
         match pc
         case DestroyRelease(seen) => seen != s.parentFirst && s.done && (!seen ==> s.thread in {Resolve, Acquire})
         case Detach => s.parentFirst
         case JoinLast => s.handle && s.done
         case DestroySync => !s.handle && s.done
         case FreeData => !s.handle && s.done
         case _ => true
  }

  predicate HandleInv(s: State)
  {
    && s.joined + s.detached <= 1
    && (s.joined == 1 ==> s.thread == Exited && !s.parentFirst)
    && (s.handle <==> s.thread != NotStarted && s.joined == 0 && s.parent != Initializing(StoreHandle))
    && (s.detached == 1 <==> s.parentFirst && Over(s) && s.parent != Destroying(Detach))
    && (Over(s) && !s.parentFirst ==> !s.handle)
  }

  predicate FreedInv(s: State)
  {
    && s.syncDestroyed == (if s.parentFirst then (if s.thread in {LateFree, Exited} then 1 else 0)
                           else if s.parent == Destroying(FreeData) || Over(s) then 1 else 0)
    && s.dataFreed == (if s.parentFirst then (if s.thread == Exited then 1 else 0) else if Over(s) then 1 else 0)
    && s.readClosed == (if s.tdata then 0 else 1)
  }

  /** The parent handed over the thread's result. */
  predicate HandedOver(s: State)
  {
    s.list in {Given, Lost}
  }

  predicate ListInv(s: State)
  {
    && (s.thread in {NotStarted, Resolve} ==> s.list == NoList && !s.error)
    && (s.wakeFailed ==> s.error && s.thread in {Mark, Release, Exited} && !s.parentFirst)
    && (s.list == InSync ==> s.syncDestroyed == 0)
    && (s.list == Freed ==> s.syncDestroyed == 1)
    && (s.list == Lost ==> s.wakeFailed)
    && (s.list == Given ==> !s.error)
    && (s.found <==> s.list != NoList)
    && (HandedOver(s) <==> s.found && s.collected)
    && (s.collected ==> ThreadDone(s))
    && (s.list != NoList && s.error ==> s.wakeFailed)
    && (s.list == NoList && s.thread !in {NotStarted, Resolve} ==> s.error)
  }

  /** The last call asked for the result: a wait that wants it, or a poll that found `done` set. */
  predicate Asked(s: State)
  {
    s.call == Some(WaitResolv(true)) || (s.call == Some(IsResolved) && s.read == Some(true))
  }

  /** The last call waits for the thread: a wait, or a kill that is not for a quick exit. */
  predicate WaitsForThread(s: State)
  {
    s.call.Some? && (s.call.value.WaitResolv? || s.call.value == Kill(false))
  }

  /** On the way out: the result is collected for a call that asked for it, the thread joined for one that waits, and
      there was such a call unless the thread was never started. */
  predicate Leaving(s: State)
  {
    && s.collected == Asked(s) && (WaitsForThread(s) ==> s.joined == 1)
    && (s.call == None <==> s.thread == NotStarted) && (s.call == Some(IsResolved) ==> Asked(s))
  }

  /** What is known of the last call. */
  predicate CallInv(s: State)
  {
    match s.parent
    case Idle => if s.tdata then !s.collected else Leaving(s)
    case Initializing(_) => !s.collected && s.call == None
    case Polling(pc) => !s.collected && s.call == Some(IsResolved) && (pc.PollRelease? ==> s.read == Some(pc.seen))
    case Waiting(pc) =>
      && !s.collected && s.call.Some?
      && (if pc == Complete then Asked(s) && (WaitsForThread(s) ==> s.joined == 1)
          else WaitsForThread(s) && (pc.wanted <==> s.call == Some(WaitResolv(true))))
    case Destroying(_) => Leaving(s)
  }

  predicate Inv(s: State)
  {
    LocksInv(s) && DoneInv(s) && PointInv(s) && HandleInv(s) && FreedInv(s) && ListInv(s) && CallInv(s)
  }

  lemma ThreadArrivesKeepsInv(s: State, ok: bool)
    requires Inv(s) && s.thread in {Resolve, Acquire, Decide} && ThreadStep(s, ok).Some?
    ensures Inv(ThreadStep(s, ok).value)
  {
  }

  lemma ThreadCleansKeepsInv(s: State, ok: bool)
    requires Inv(s) && s.thread in {LateRelease, LateDestroy, LateFree}
    ensures Inv(ThreadStep(s, ok).value)
  {
  }

  lemma ThreadSignalsKeepsInv(s: State, ok: bool)
    requires Inv(s) && s.thread in {Wake, Mark, Release}
    ensures Inv(ThreadStep(s, ok).value)
  {
  }

  lemma ThreadKeepsInv(s: State, ok: bool)
    requires Inv(s) && ThreadStep(s, ok).Some?
    ensures Inv(ThreadStep(s, ok).value)
  {
    hide Inv;
    if s.thread in {Resolve, Acquire, Decide} {
      ThreadArrivesKeepsInv(s, ok);
    } else if s.thread in {LateRelease, LateDestroy, LateFree} {
      ThreadCleansKeepsInv(s, ok);
    } else {
      ThreadSignalsKeepsInv(s, ok);
    }
  }

  lemma LeaveIdle(s: State, call: Call, pc: ParentPc)
    requires Inv(s) && s.parent == Idle && s.tdata
    requires match call
             case IsResolved => pc == Polling(PollAcquire)
             case WaitResolv(wanted) => pc == Waiting(JoinFirst(wanted))
             case Kill(quickExit) => pc == if quickExit then Destroying(DestroyAcquire) else Waiting(JoinFirst(false))
             case Cancel => pc == Destroying(DestroyAcquire)
    ensures Inv(s.(parent := pc, call := Some(call), read := None))
  {
  }

  lemma HandleWhenIdle(s: State)
    requires Inv(s) && s.parent == Idle && s.tdata
    ensures s.handle
  {
  }

  lemma EnterKeepsInv(s: State, call: Call)
    requires Inv(s) && s.parent == Idle && Enter(s, call).Some?
    ensures Inv(Enter(s, call).value)
  {
    hide Inv;
    var next := Enter(s, call).value;
    if s.tdata {
      HandleWhenIdle(s);
      LeaveIdle(s, call, next.parent);
    }
  }

  lemma InitKeepsInv(s: State, pc: InitPc, ok: bool)
    requires Inv(s) && s.parent == Initializing(pc)
    ensures Inv(InitStep(s, pc, ok))
  {
  }

  lemma PollKeepsInv(s: State, pc: PollPc)
    requires Inv(s) && s.parent == Polling(pc) && PollStep(s, pc).Some?
    ensures Inv(PollStep(s, pc).value)
  {
  }

  lemma WaitKeepsInv(s: State, pc: WaitPc)
    requires Inv(s) && s.parent == Waiting(pc) && WaitStep(s, pc).Some?
    ensures Inv(WaitStep(s, pc).value)
  {
  }

  lemma LockedDestroyKeepsInv(s: State, pc: DestroyPc)
    requires Inv(s) && s.parent == Destroying(pc) && DestroyStep(s, pc).Some?
    requires pc == DestroyAcquire || pc == DestroySwap || pc.DestroyRelease?
    ensures Inv(DestroyStep(s, pc).value)
  {
  }

  lemma LetGoKeepsInv(s: State, pc: DestroyPc)
    requires Inv(s) && s.parent == Destroying(pc) && pc in {Detach, JoinLast} && DestroyStep(s, pc).Some?
    ensures Inv(DestroyStep(s, pc).value)
  {
  }

  lemma ReleaseKeepsInv(s: State, pc: DestroyPc)
    requires Inv(s) && s.parent == Destroying(pc) && pc in {DestroySync, FreeData, CloseRead}
    ensures Inv(DestroyStep(s, pc).value)
  {
  }

  lemma DestroyKeepsInv(s: State, pc: DestroyPc)
    requires Inv(s) && s.parent == Destroying(pc) && DestroyStep(s, pc).Some?
    ensures Inv(DestroyStep(s, pc).value)
  {
    hide Inv, DestroyStep;
    if pc == DestroyAcquire || pc == DestroySwap || pc.DestroyRelease? {
      LockedDestroyKeepsInv(s, pc);
    } else if pc in {Detach, JoinLast} {
      LetGoKeepsInv(s, pc);
    } else {
      ReleaseKeepsInv(s, pc);
    }
  }

  lemma NextKeepsInv(s: State, a: Action)
    requires Inv(s) && Next(s, a).Some?
    ensures Inv(Next(s, a).value)
  {
    hide Inv, ThreadStep, Enter, InitStep, PollStep, WaitStep, DestroyStep;
    match a
    case OfThread(ok) => ThreadKeepsInv(s, ok);
    case OfParent(call, ok) =>
      match s.parent
      case Idle => EnterKeepsInv(s, call);
      case Initializing(pc) => InitKeepsInv(s, pc, ok);
      case Polling(pc) => PollKeepsInv(s, pc);
      case Waiting(pc) => WaitKeepsInv(s, pc);
      case Destroying(pc) => DestroyKeepsInv(s, pc);
  }

  lemma {:induction false} InvHolds(schedule: seq<Action>)
    ensures Inv(After(schedule))
  {
    hide Next;
    if schedule == [] {
      StartInv();
    } else {
      hide Inv;
      InvHolds(schedule[..|schedule| - 1]);
      var s := After(schedule[..|schedule| - 1]);
      if Next(s, schedule[|schedule| - 1]).Some? {
        NextKeepsInv(s, schedule[|schedule| - 1]);
      }
    }
  }

  lemma StartInv()
    ensures Inv(Start)
  {
  }

  // ---------- what every interleaving keeps ----------

  /** The thread's next step reads or writes `td` or the synchronization data in it. */
  predicate ThreadTouches(s: State)
  {
    s.thread != NotStarted && s.thread != Exited
  }

  /** The parent's next step does; the read end to close was copied before. */
  predicate ParentTouches(s: State)
  {
    s.parent != Idle && s.parent != Destroying(CloseRead)
  }

  /** The thread never touches released memory. A step of the parent does if and only if it is about to detach a thread
      that has left already: it reads the handle out of the data after it gave up the mutex. */
  lemma OnlyDetachIsTooLate(schedule: seq<Action>)
    ensures var s := After(schedule);
            && (ThreadTouches(s) ==> s.dataFreed == 0)
            && (ParentTouches(s) && s.dataFreed > 0 <==> s.parent == Destroying(Detach) && s.thread == Exited)
  {
    hide After;
    InvHolds(schedule);
  }

  /** With the handle to detach as a value the parent already holds, no step of either side touches released memory, and
      only `free` touches destroyed synchronization data. */
  lemma NothingElseReleasedIsTouched(schedule: seq<Action>)
    ensures var s := After(schedule);
            && (ThreadTouches(s) ==> s.dataFreed == 0 && (s.thread != LateFree ==> s.syncDestroyed == 0))
            && (ParentTouches(s) && s.parent != Destroying(Detach) ==>
                s.dataFreed == 0 && (s.parent != Destroying(FreeData) ==> s.syncDestroyed == 0))
  {
    hide After;
    InvHolds(schedule);
  }

  /** The parent cancels while the name is being resolved; the thread then finds `done` set, frees the data and leaves
      before the parent reads the handle. */
  lemma DetachComesTooLate() returns (schedule: seq<Action>)
    ensures var s := After(schedule); s.parent == Destroying(Detach) && s.thread == Exited && s.dataFreed == 1
  {
    hide After;
    var cancel, thread := OfParent(Cancel, true), OfThread(true);
    var s, x := StartedSchedule();
    schedule := s;
    var entered := x.(parent := Destroying(DestroyAcquire), call := Some(Cancel), read := None);
    OneMore(schedule, x, cancel, entered);
    schedule, x := schedule + [cancel], entered;
    OneMore(schedule, x, cancel, x.(parent := Destroying(DestroySwap), mutex := Some(TheParent)));
    schedule, x := schedule + [cancel], x.(parent := Destroying(DestroySwap), mutex := Some(TheParent));
    var swapped := x.(parent := Destroying(DestroyRelease(false)), done := true, parentFirst := true);
    OneMore(schedule, x, cancel, swapped);
    schedule, x := schedule + [cancel], swapped;
    OneMore(schedule, x, cancel, x.(parent := Destroying(Detach), mutex := None));
    schedule, x := schedule + [cancel], x.(parent := Destroying(Detach), mutex := None);
    schedule := LeaveLate(schedule, x);
  }

  /** From there on: the thread finds `done` set and cleans up. */
  lemma LeaveLate(before: seq<Action>, x0: State) returns (schedule: seq<Action>)
    requires After(before) == x0 && x0.thread == Resolve && x0.done && x0.mutex == None
    requires x0.syncDestroyed == x0.dataFreed == 0
    ensures After(schedule) == x0.(thread := Exited, found := true, list := Freed, syncDestroyed := 1, dataFreed := 1)
  {
    hide After;
    var thread := OfThread(true);
    schedule := before;
    var x := x0;
    OneMore(schedule, x, thread, x.(thread := Acquire, list := InSync, found := true));
    schedule, x := schedule + [thread], x.(thread := Acquire, list := InSync, found := true);
    OneMore(schedule, x, thread, x.(thread := Decide, mutex := Some(TheThread)));
    schedule, x := schedule + [thread], x.(thread := Decide, mutex := Some(TheThread));
    OneMore(schedule, x, thread, x.(thread := LateRelease));
    schedule, x := schedule + [thread], x.(thread := LateRelease);
    OneMore(schedule, x, thread, x.(thread := LateDestroy, mutex := None));
    schedule, x := schedule + [thread], x.(thread := LateDestroy, mutex := None);
    OneMore(schedule, x, thread, x.(thread := LateFree, list := Freed, syncDestroyed := 1));
    schedule, x := schedule + [thread], x.(thread := LateFree, list := Freed, syncDestroyed := 1);
    OneMore(schedule, x, thread, x.(thread := Exited, dataFreed := 1));
    schedule := schedule + [thread];
  }

  /** No call of the parent is pending and the thread, if there was one, is gone. */
  predicate Settled(s: State)
  {
    s.parent == Idle && !s.tdata && s.thread in {NotStarted, Exited}
  }

  /** Everything is released at most once, and exactly once when both sides are through. */
  lemma ReleasedExactlyOnce(schedule: seq<Action>)
    ensures var s := After(schedule);
            && s.syncDestroyed <= 1 && s.dataFreed <= 1 && s.readClosed <= 1 && s.joined + s.detached <= 1
            && (Settled(s) ==> s.syncDestroyed == 1 && s.dataFreed == 1 && s.readClosed == 1 && s.mutex == None)
            && (Settled(s) && s.thread == Exited ==> s.joined + s.detached == 1)
  {
    hide After;
    InvHolds(schedule);
    MutexHolder(After(schedule).mutex);
  }

  lemma MutexHolder(mutex: Option<Who>)
    ensures mutex == None || mutex == Some(TheThread) || mutex == Some(TheParent)
  {
    if mutex.Some? {
      match mutex.value
      case TheThread =>
      case TheParent =>
    }
  }

  /** The thread releases the data exactly when the parent set `done` first; a parent that does has joined it before. */
  lemma WhoeverIsLastReleases(schedule: seq<Action>)
    ensures var s := After(schedule);
            && (s.thread in {LateDestroy, LateFree} ==> s.parentFirst)
            && (s.parent in {Destroying(DestroySync), Destroying(FreeData)} ==>
                !s.parentFirst && (s.thread == NotStarted || (s.thread == Exited && s.joined == 1)))
            && (s.detached == 1 ==> s.parentFirst)
            && (Settled(s) ==> s.parentFirst == (s.detached == 1))
  {
    hide After;
    InvHolds(schedule);
  }

  /** When both sides are through, the result has been collected if and only if the last call was a wait that wanted it,
      or a poll that found `done` set: not after a kill, a cancel, a wait just for the end, or a start that failed. */
  lemma CollectedExactly(schedule: seq<Action>)
    requires Settled(After(schedule))
    ensures var s := After(schedule);
            && (s.collected <==>
                s.call == Some(WaitResolv(true)) || (s.call == Some(IsResolved) && s.read == Some(true)))
            && (s.call == None || s.call == Some(Cancel) || s.call == Some(WaitResolv(false)) || s.call.value.Kill? ==>
                !s.collected)
  {
    hide After;
    InvHolds(schedule);
  }

  /** A poll tells whether the thread has left. */
  lemma PollTells(schedule: seq<Action>)
    ensures var s := After(schedule);
            s.parent.Polling? && s.parent.poll.PollRelease? ==>
              s.read == Some(s.parent.poll.seen) && (s.parent.poll.seen <==> s.thread == Exited)
  {
    hide After;
    InvHolds(schedule);
  }

  /** When both sides are through, the thread has been joined if it was waited for - by a wait, or by a kill that is not
      for a quick exit - or had left when the parent came to release the data. It has been detached otherwise, which only
      a cancel and a kill for a quick exit do. */
  lemma WaitedForIsJoined(schedule: seq<Action>)
    requires Settled(After(schedule)) && After(schedule).thread == Exited
    ensures var s := After(schedule);
            && s.call.Some? && s.joined == 1 - s.detached
            && (s.call.value.WaitResolv? || s.call.value == Kill(false) || s.call.value.IsResolved? ==> s.joined == 1)
            && (s.detached == 1 ==> s.call.value in {Cancel, Kill(true)})
  {
    hide After;
    InvHolds(schedule);
  }

  /** The end of the list is decided by three events: whether the name was resolved, whether the last call asked for the
      result, and whether the byte that wakes the parent could be written. A list that was asked for after a failed write
      is lost: neither owned by the callback nor freed. */
  lemma ListHasOneEnd(schedule: seq<Action>)
    requires Settled(After(schedule))
    ensures var s := After(schedule);
            var asked := s.call == Some(WaitResolv(true)) || (s.call == Some(IsResolved) && s.read == Some(true));
            && (s.list == NoList <==> !s.found)
            && (s.list == Freed <==> s.found && !asked)
            && (s.list == Given <==> s.found && asked && !s.wakeFailed)
            && (s.list == Lost <==> s.found && asked && s.wakeFailed)
            && (asked ==> !s.parentFirst)
  {
    hide After;
    InvHolds(schedule);
  }

  lemma OneMore(schedule: seq<Action>, s: State, a: Action, next: State)
    requires After(schedule) == s && Next(s, a) == Some(next)
    ensures After(schedule + [a]) == next
  {
    hide Next;
    assert (schedule + [a])[..|schedule|] == schedule;
  }

  /** The name is resolved but the wake-up write fails; the parent then collects the result, and the list is lost. */
  lemma FailedWakeLosesTheList() returns (schedule: seq<Action>)
    ensures After(schedule).list == Lost
  {
    hide After;
    var go, thread := OfParent(IsResolved, true), OfThread(true);
    var s, x := StartedSchedule();
    schedule := s;
    OneMore(schedule, x, thread, x.(thread := Acquire, list := InSync, found := true));
    schedule, x := schedule + [thread], x.(thread := Acquire, list := InSync, found := true);
    OneMore(schedule, x, thread, x.(thread := Decide, mutex := Some(TheThread)));
    schedule, x := schedule + [thread], x.(thread := Decide, mutex := Some(TheThread));
    OneMore(schedule, x, thread, x.(thread := Wake));
    schedule, x := schedule + [thread], x.(thread := Wake);
    var failed := x.(thread := Mark, error := true, wakeFailed := true);
    OneMore(schedule, x, OfThread(false), failed);
    schedule, x := schedule + [OfThread(false)], failed;
    schedule := CollectAfterMark(schedule, x);
  }

  lemma StartedSchedule() returns (schedule: seq<Action>, s: State)
    ensures After(schedule) == s
    ensures s == Start.(parent := Idle, thread := Resolve, done := false, handle := true)
  {
    hide After;
    var go := OfParent(Cancel, true);
    schedule, s := [], Start;
    AfterNothing();
    OneMore(schedule, s, go, s.(parent := Initializing(MarkUndone)));
    schedule, s := schedule + [go], s.(parent := Initializing(MarkUndone));
    OneMore(schedule, s, go, s.(parent := Initializing(Create), done := false));
    schedule, s := schedule + [go], s.(parent := Initializing(Create), done := false);
    OneMore(schedule, s, go, s.(parent := Initializing(StoreHandle), thread := Resolve));
    schedule, s := schedule + [go], s.(parent := Initializing(StoreHandle), thread := Resolve);
    OneMore(schedule, s, go, s.(parent := Idle, handle := true));
    schedule, s := schedule + [go], s.(parent := Idle, handle := true);
  }

  lemma AfterNothing()
    ensures After([]) == Start
  {
  }

  /** From the failed write on: the thread marks the end and leaves, and the parent polls. */
  lemma CollectAfterMark(before: seq<Action>, x0: State) returns (schedule: seq<Action>)
    requires After(before) == x0 && x0.thread == Mark && x0.parent == Idle && x0.tdata && x0.error && x0.list == InSync
    requires x0.mutex == Some(TheThread)
    ensures After(schedule).list == Lost
  {
    hide After;
    var poll, thread := OfParent(IsResolved, true), OfThread(true);
    schedule := before;
    var x := x0;
    OneMore(schedule, x, thread, x.(thread := Release, done := true));
    schedule, x := schedule + [thread], x.(thread := Release, done := true);
    OneMore(schedule, x, thread, x.(thread := Exited, mutex := None));
    schedule, x := schedule + [thread], x.(thread := Exited, mutex := None);
    var entered := x.(parent := Polling(PollAcquire), call := Some(IsResolved), read := None);
    OneMore(schedule, x, poll, entered);
    schedule, x := schedule + [poll], entered;
    OneMore(schedule, x, poll, x.(parent := Polling(PollRead), mutex := Some(TheParent)));
    schedule, x := schedule + [poll], x.(parent := Polling(PollRead), mutex := Some(TheParent));
    OneMore(schedule, x, poll, x.(parent := Polling(PollRelease(true)), read := Some(true)));
    schedule, x := schedule + [poll], x.(parent := Polling(PollRelease(true)), read := Some(true));
    OneMore(schedule, x, poll, x.(parent := Waiting(Complete), mutex := None));
    schedule, x := schedule + [poll], x.(parent := Waiting(Complete), mutex := None);
    OneMore(schedule, x, poll, x.(parent := Destroying(DestroyAcquire), list := Lost, collected := true));
    schedule := schedule + [poll];
  }

  /** The ordinary run: the name is resolved, the parent waits for it, and the callback gets the list. */
  lemma WaitedForListIsGiven() returns (schedule: seq<Action>)
    ensures Settled(After(schedule)) && After(schedule).list == Given
  {
    hide After;
    var thread := OfThread(true);
    var s, x := StartedSchedule();
    schedule := s;
    OneMore(schedule, x, thread, x.(thread := Acquire, list := InSync, found := true));
    schedule, x := schedule + [thread], x.(thread := Acquire, list := InSync, found := true);
    OneMore(schedule, x, thread, x.(thread := Decide, mutex := Some(TheThread)));
    schedule, x := schedule + [thread], x.(thread := Decide, mutex := Some(TheThread));
    OneMore(schedule, x, thread, x.(thread := Wake));
    schedule, x := schedule + [thread], x.(thread := Wake);
    OneMore(schedule, x, thread, x.(thread := Mark));
    schedule, x := schedule + [thread], x.(thread := Mark);
    OneMore(schedule, x, thread, x.(thread := Release, done := true));
    schedule, x := schedule + [thread], x.(thread := Release, done := true);
    OneMore(schedule, x, thread, x.(thread := Exited, mutex := None));
    schedule, x := schedule + [thread], x.(thread := Exited, mutex := None);
    schedule := WaitAndLeave(schedule, x);
  }

  lemma WaitAndLeave(before: seq<Action>, x0: State) returns (schedule: seq<Action>)
    requires After(before) == x0 && x0.thread == Exited && x0.parent == Idle && x0.tdata && x0.handle
    requires x0.done && !x0.error && x0.list == InSync && x0.mutex == None
    ensures Settled(After(schedule)) && After(schedule).list == Given
  {
    hide After;
    var wait := OfParent(WaitResolv(true), true);
    schedule := before;
    var x := x0;
    var entered := x.(parent := Waiting(JoinFirst(true)), call := Some(WaitResolv(true)), read := None);
    OneMore(schedule, x, wait, entered);
    schedule, x := schedule + [wait], entered;
    var joined := x.(parent := Waiting(Complete), handle := false, joined := x.joined + 1);
    OneMore(schedule, x, wait, joined);
    schedule, x := schedule + [wait], joined;
    OneMore(schedule, x, wait, x.(parent := Destroying(DestroyAcquire), list := Given, collected := true));
    schedule, x := schedule + [wait], x.(parent := Destroying(DestroyAcquire), list := Given, collected := true);
    OneMore(schedule, x, wait, x.(parent := Destroying(DestroySwap), mutex := Some(TheParent)));
    schedule, x := schedule + [wait], x.(parent := Destroying(DestroySwap), mutex := Some(TheParent));
    OneMore(schedule, x, wait, x.(parent := Destroying(DestroyRelease(true)), parentFirst := false));
    schedule, x := schedule + [wait], x.(parent := Destroying(DestroyRelease(true)), parentFirst := false);
    schedule := LeaveJoined(schedule, x);
  }

  lemma LeaveJoined(before: seq<Action>, x0: State) returns (schedule: seq<Action>)
    requires After(before) == x0 && x0.thread == Exited && x0.parent == Destroying(DestroyRelease(true)) && !x0.handle
    requires x0.list == Given
    ensures Settled(After(schedule)) && After(schedule).list == Given
  {
    hide After, Settled;
    var wait := OfParent(WaitResolv(true), true);
    schedule := before;
    var x := x0;
    OneMore(schedule, x, wait, x.(parent := Destroying(DestroySync), mutex := None));
    schedule, x := schedule + [wait], x.(parent := Destroying(DestroySync), mutex := None);
    OneMore(schedule, x, wait, x.(parent := Destroying(FreeData), syncDestroyed := x.syncDestroyed + 1));
    schedule, x := schedule + [wait], x.(parent := Destroying(FreeData), syncDestroyed := x.syncDestroyed + 1);
    schedule := LeaveFreed(schedule, x);
  }

  lemma LeaveFreed(before: seq<Action>, x: State) returns (schedule: seq<Action>)
    requires After(before) == x && x.thread == Exited && x.parent == Destroying(FreeData) && x.list == Given
    ensures Settled(After(schedule)) && After(schedule).list == Given
  {
    hide After;
    var wait := OfParent(WaitResolv(true), true);
    var y := x.(parent := Destroying(CloseRead), dataFreed := x.dataFreed + 1);
    var z := y.(parent := Idle, tdata := false, readClosed := y.readClosed + 1);
    OneMore(before, x, wait, y);
    OneMore(before + [wait], y, wait, z);
    schedule := before + [wait] + [wait];
  }

  // ---------- every call returns ----------

  function ThreadRank(pc: ThreadPc): nat
  {
    match pc
    case NotStarted => 0
    case Resolve => 8
    case Acquire => 7
    case Decide => 6
    case Wake => 5
    case Mark => 4
    case LateRelease => 3
    case LateDestroy => 2
    case LateFree => 1
    case Release => 3
    case Exited => 0
  }

  function ParentRank(pc: ParentPc): nat
  {
    match pc
    case Idle => 0
    case Initializing(i) => (
      match i
      case CopyName => 22
      case MarkUndone => 21
      case Create => 20
      case CreateFailed => 8
      case StoreHandle => 1)
    case Polling(p) => if p == PollAcquire then 11 else if p == PollRead then 10 else 9
    case Waiting(w) => if w == Complete then 8 else 9
    case Destroying(d) =>
      match d
      case DestroyAcquire => 7
      case DestroySwap => 6
      case DestroyRelease(_) => 5
      case JoinLast => 4
      case DestroySync => 3
      case FreeData => 2
      case Detach => 2
      case CloseRead => 1
  }

  function Rank(s: State): nat
  {
    ThreadRank(s.thread) + ParentRank(s.parent)
  }

  lemma ArrivingDecreasesRank(s: State, ok: bool)
    requires s.thread in {Resolve, Acquire, Decide} && ThreadStep(s, ok).Some?
    ensures ThreadRank(ThreadStep(s, ok).value.thread) < ThreadRank(s.thread)
    ensures ThreadStep(s, ok).value.parent == s.parent
  {
  }

  lemma CleaningDecreasesRank(s: State, ok: bool)
    requires s.thread in {LateRelease, LateDestroy, LateFree}
    ensures ThreadRank(ThreadStep(s, ok).value.thread) < ThreadRank(s.thread)
    ensures ThreadStep(s, ok).value.parent == s.parent
  {
  }

  lemma SignallingDecreasesRank(s: State, ok: bool)
    requires s.thread in {Wake, Mark, Release}
    ensures ThreadRank(ThreadStep(s, ok).value.thread) < ThreadRank(s.thread)
    ensures ThreadStep(s, ok).value.parent == s.parent
  {
  }

  lemma ThreadDecreasesRank(s: State, ok: bool)
    requires ThreadStep(s, ok).Some?
    ensures ThreadRank(ThreadStep(s, ok).value.thread) < ThreadRank(s.thread)
    ensures ThreadStep(s, ok).value.parent == s.parent
  {
    hide ThreadRank;
    if s.thread in {Resolve, Acquire, Decide} {
      ArrivingDecreasesRank(s, ok);
    } else if s.thread in {LateRelease, LateDestroy, LateFree} {
      CleaningDecreasesRank(s, ok);
    } else {
      SignallingDecreasesRank(s, ok);
    }
  }

  lemma InitDecreasesRank(s: State, pc: InitPc, ok: bool)
    requires s.parent == Initializing(pc) && (s.thread == NotStarted || pc == StoreHandle)
    ensures Rank(InitStep(s, pc, ok)) < Rank(s)
  {
  }

  lemma PollDecreasesRank(s: State, pc: PollPc)
    requires s.parent == Polling(pc) && PollStep(s, pc).Some?
    ensures Rank(PollStep(s, pc).value) < Rank(s)
  {
    hide ThreadRank;
  }

  lemma WaitDecreasesRank(s: State, pc: WaitPc)
    requires s.parent == Waiting(pc) && WaitStep(s, pc).Some?
    ensures Rank(WaitStep(s, pc).value) < Rank(s)
  {
    hide ThreadRank;
  }

  lemma DestroyDecreasesRank(s: State, pc: DestroyPc)
    requires s.parent == Destroying(pc) && DestroyStep(s, pc).Some?
    ensures Rank(DestroyStep(s, pc).value) < Rank(s)
  {
    hide ThreadRank;
  }

  lemma ParentDecreasesRank(s: State, call: Call, ok: bool)
    requires s.parent != Idle && ParentStep(s, call, ok).Some?
    requires s.parent.Initializing? ==> s.thread == NotStarted || s.parent.init == StoreHandle
    ensures Rank(ParentStep(s, call, ok).value) < Rank(s)
  {
    hide Rank, Enter, InitStep, PollStep, WaitStep, DestroyStep;
    match s.parent
    case Initializing(pc) => InitDecreasesRank(s, pc, ok);
    case Polling(pc) => PollDecreasesRank(s, pc);
    case Waiting(pc) => WaitDecreasesRank(s, pc);
    case Destroying(pc) => DestroyDecreasesRank(s, pc);
  }

  /** Neither side is ever stuck: one that waits waits for the other, which can go on. Every step inside a call or of the
      thread brings the rank down, so a call in progress is over after at most 22 steps. */
  lemma CallsReturn(schedule: seq<Action>, a: Action)
    ensures var s := After(schedule);
            && Rank(s) <= 22
            && (s.parent != Idle && ParentStep(s, Cancel, true).None? ==> ThreadStep(s, true).Some?)
            && (ThreadTouches(s) && ThreadStep(s, true).None? ==> s.parent != Idle && ParentStep(s, Cancel, true).Some?)
            && (Next(s, a).Some? && (a.OfThread? || s.parent != Idle) ==> Rank(Next(s, a).value) < Rank(s))
  {
    hide After, ThreadRank, ParentRank, ThreadStep, ParentStep;
    var s := After(schedule);
    InvHolds(schedule);
    NobodyIsStuck(s);
    RankIsBounded(s);
    if Next(s, a).Some? {
      match a
      case OfThread(ok) => ThreadDecreasesRank(s, ok);
      case OfParent(call, ok) =>
        if s.parent != Idle {
          ParentDecreasesRank(s, call, ok);
        }
    }
  }

  lemma NobodyIsStuck(s: State)
    requires Inv(s)
    ensures s.parent != Idle && ParentStep(s, Cancel, true).None? ==> ThreadStep(s, true).Some?
    ensures ThreadTouches(s) && ThreadStep(s, true).None? ==> s.parent != Idle && ParentStep(s, Cancel, true).Some?
  {
    MutexHolder(s.mutex);
  }

  lemma RankIsBounded(s: State)
    requires Inv(s)
    ensures Rank(s) <= 22
  {
  }

  /** `thread_wait_resolv` is never entered without a thread to join while a resolve is in progress. */
  lemma WaitHasAThread(schedule: seq<Action>)
    ensures var s := After(schedule); s.parent == Idle && s.tdata ==> s.handle && s.thread != NotStarted
  {
    hide After;
    InvHolds(schedule);
  }
}
