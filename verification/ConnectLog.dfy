/** The log of a race for a connection: which address is due for a slot, and what a log looks like that follows it,
    whatever the outcome of the attempts is (curl/lib/connect.c). */
module ConnectLog {
  import opened CString
  import opened Connect

  /** What is fixed during a run: the resolver's list, the family of each slot, how each attempt ends, and how many of
      them `Curl_connecthost` made. */
  datatype Run = Run(family: seq<int>, fams: seq<int>, o: nat -> Attempt, start: nat)

  type Log = seq<(nat, nat)>

  predicate InList(r: Run, log: Log)
  {
    |r.fams| == 2 && forall e :: e in log ==> e.0 < 2 && e.1 < |r.family|
  }

  /** After attempt `x` its slot leaves the address behind: always when the socket was pending; after a failure, the loop
      of `Curl_connecthost` goes on unless it is CURLE_OK, and `trynextip` only if it is CURLE_COULDNT_CONNECT. */
  predicate Left(r: Run, x: nat)
  {
    match r.o(x)
    case Pending => true
    case Failed(_, code) => if x < r.start then code != OK else code == COULDNT_CONNECT
  }

  /** The last attempt of slot `i`. */
  function Last(log: Log, i: nat): (n: Option<nat>)
    ensures n.Some? ==> n.value < |log| && log[n.value].0 == i
  {
    if log == [] then None
    else if log[|log| - 1].0 == i then Some(|log| - 1)
    else Last(log[..|log| - 1], i)
  }

  /** The address slot `i` has to try next; the length of the list when there is none. */
  function Due(r: Run, log: Log, i: nat): (a: nat)
    requires InList(r, log) && i < 2
    ensures a <= |r.family|
  {
    match Last(log, i)
    case None => NextOf(r.family, r.fams[i], 0)
    case Some(x) => if Left(r, x) then NextOf(r.family, r.fams[i], log[x].1 + 1) else log[x].1
  }

  /** Attempt `n` tries the address of its slot's attempt before once more. */
  predicate Retry(r: Run, log: Log, n: nat)
    requires n < |log|
  {
    var x := Last(log[..n], log[n].0);
    x.Some? && !Left(r, x.value)
  }

  /** The attempt whose address is tried again. */
  function RetriedOf(r: Run, log: Log, n: nat): (x: nat)
    requires n < |log| && Retry(r, log, n)
    ensures x < n
  {
    Last(log[..n], log[n].0).value
  }

  /** Every attempt is on the address due: the first of its family, the next one, or the same one again. */
  predicate Walk(r: Run, log: Log)
    requires InList(r, log)
  {
    forall n :: 0 <= n < |log| ==> log[n].1 == Due(r, log[..n], log[n].0)
  }

  /** Only slot 1 ever tries an address again, and not twice in a row. */
  predicate FewRetries(r: Run, log: Log)
  {
    forall n :: 0 <= n < |log| && Retry(r, log, n) ==>
                  log[n].0 == 1 && !Retry(r, log, RetriedOf(r, log, n))
  }

  predicate LogInv(r: Run, log: Log)
  {
    InList(r, log) && Walk(r, log) && FewRetries(r, log)
  }

  /** The last attempt of slot `i` was one `trynextip` stops at. */
  predicate Stuck(r: Run, log: Log, i: nat)
  {
    var x := Last(log, i);
    x.Some? && !Left(r, x.value)
  }

  predicate StuckAgain(r: Run, log: Log, i: nat)
  {
    Stuck(r, log, i) && Retry(r, log, Last(log, i).value)
  }

  /** The last attempt of all reported CURLE_OK without a socket. */
  predicate Hollow(r: Run, log: Log)
  {
    log != [] && r.o(|log| - 1).Failed? && r.o(|log| - 1).code == OK
  }

  // ---------- one more attempt in the log ----------

  lemma {:induction false} LastIsLast(log: Log, i: nat, x: nat)
    requires x < |log| && log[x].0 == i
    ensures Last(log, i).Some? && x <= Last(log, i).value
  {
    if x < |log| - 1 {
      LastIsLast(log[..|log| - 1], i, x);
    }
  }

  lemma LastAppend(log: Log, e: (nat, nat), i: nat)
    ensures Last(log + [e], i) == if e.0 == i then Some(|log|) else Last(log, i)
  {
    assert (log + [e])[..|log|] == log;
  }

  lemma RetryAppend(r: Run, log: Log, e: (nat, nat), n: nat)
    requires n <= |log|
    ensures Retry(r, log + [e], n) == if n < |log| then Retry(r, log, n) else Stuck(r, log, e.0)
  {
    hide Last;
    assert (log + [e])[..n] == log[..n];
    assert log[..|log|] == log;
  }

  lemma WalkAppend(r: Run, log: Log, e: (nat, nat))
    requires InList(r, log + [e]) && InList(r, log) && Walk(r, log) && e.0 < 2 && e.1 == Due(r, log, e.0)
    ensures Walk(r, log + [e])
  {
    hide Due;
    var all := log + [e];
    forall n | 0 <= n < |all| ensures all[n].1 == Due(r, all[..n], all[n].0) {
      assert all[..n] == log[..n];
      assert log[..|log|] == log;
    }
  }

  lemma FewRetriesAppend(r: Run, log: Log, e: (nat, nat))
    requires FewRetries(r, log) && (Stuck(r, log, e.0) ==> e.0 == 1 && !StuckAgain(r, log, e.0))
    ensures FewRetries(r, log + [e])
  {
    var all := log + [e];
    hide Retry, Stuck;
    forall n | 0 <= n < |all| && Retry(r, all, n)
      ensures all[n].0 == 1 && !Retry(r, all, RetriedOf(r, all, n))
    {
      assert all[..n] == log[..n];
      assert log[..|log|] == log;
      RetryAppend(r, log, e, n);
      var x := RetriedOf(r, all, n);
      RetryAppend(r, log, e, x);
      if n < |log| {
        assert Retry(r, log, n) && RetriedOf(r, log, n) == x;
      } else {
        StuckLast(r, log, e.0);
      }
    }
  }

  lemma StuckLast(r: Run, log: Log, i: nat)
    requires Stuck(r, log, i)
    ensures Last(log, i).Some? && (StuckAgain(r, log, i) <==> Retry(r, log, Last(log, i).value))
  {
    hide Last, Retry;
  }

  // ---------- what a log that walks looks like ----------

  predicate Walks(r: Run, log: Log)
  {
    InList(r, log) && Walk(r, log)
  }

  lemma WalkPrefix(r: Run, log: Log, k: nat)
    requires Walks(r, log) && k <= |log|
    ensures Walks(r, log[..k])
  {
    hide Due;
    forall n | 0 <= n < k ensures log[..k][n].1 == Due(r, log[..k][..n], log[..k][n].0) {
      assert log[..k][..n] == log[..n];
    }
  }

  lemma LastStep(r: Run, log: Log)
    requires Walks(r, log) && log != []
    ensures var e := log[|log| - 1];
            && Walks(r, log[..|log| - 1]) && e.0 < 2
            && e.1 < |r.family| && e.1 == Due(r, log[..|log| - 1], e.0) && Last(log, e.0) == Some(|log| - 1)
  {
    hide Due;
    WalkPrefix(r, log, |log| - 1);
    assert log[|log| - 1] in log;
  }

  lemma RetryPrefix(r: Run, log: Log, k: nat, n: nat)
    requires n < k <= |log|
    ensures Retry(r, log[..k], n) == Retry(r, log, n)
  {
    hide Last;
    assert log[..k][..n] == log[..n];
  }

  lemma {:induction false} WalkFamily(r: Run, log: Log, n: nat)
    requires Walks(r, log) && n < |log|
    ensures log[n].0 < 2 && log[n].1 < |r.family| && r.family[log[n].1] == r.fams[log[n].0]
  {
    assert log[n] in log;
    var x := Last(log[..n], log[n].0);
    if x.Some? {
      WalkFamily(r, log, x.value);
    }
  }

  /** The last entry taken off: nothing changes for the other slot. */
  lemma DueWithoutLast(r: Run, log: Log, i: nat)
    requires Walks(r, log) && i < 2 && log != [] && log[|log| - 1].0 != i && Walks(r, log[..|log| - 1])
    ensures Due(r, log[..|log| - 1], i) == Due(r, log, i)
  {
  }

  /** Addresses of the family before the one due have been tried. */
  lemma {:induction false} BeforeDueIsTried(r: Run, log: Log, i: nat, a: nat)
    requires Walks(r, log) && i < 2 && a < Due(r, log, i) && r.family[a] == r.fams[i]
    ensures (i, a) in log
    decreases |log|
  {
    if log != [] {
      var n := |log| - 1;
      LastStep(r, log);
      if log[n].0 == i && a == log[n].1 {
        assert log[n] == (i, a);
      } else {
        if log[n].0 != i {
          DueWithoutLast(r, log, i);
        }
        assert a < Due(r, log[..n], i);
        hide Walks, Due;
        BeforeDueIsTried(r, log[..n], i, a);
      }
    }
  }

  /** The address due lies after the slot's last one, or is the same again. */
  lemma DueAfterLast(r: Run, log: Log, i: nat)
    requires Walks(r, log) && i < 2 && Last(log, i).Some?
    ensures var a := log[Last(log, i).value].1;
            if Left(r, Last(log, i).value) then a < Due(r, log, i) else a == Due(r, log, i) < |r.family|
  {
    assert log[Last(log, i).value] in log;
  }

  /** A slot never goes back. */
  lemma {:induction false} Ascends(r: Run, log: Log, n: nat)
    requires Walks(r, log) && n < |log|
    ensures var x := Last(log, log[n].0); x.Some? && log[n].1 <= log[x.value].1
    decreases |log|
  {
    hide Walks, Due, Last;
    var m := |log| - 1;
    LastUnfolds(log, log[n].0);
    if n < m {
      LastStep(r, log);
      Ascends(r, log[..m], n);
      if log[m].0 == log[n].0 {
        DueAfterLast(r, log[..m], log[n].0);
      }
    }
  }

  lemma LastUnfolds(log: Log, i: nat)
    requires log != []
    ensures Last(log, i) == if log[|log| - 1].0 == i then Some(|log| - 1) else Last(log[..|log| - 1], i)
  {
  }

  predicate NoRepeat(log: Log)
  {
    forall x, y :: 0 <= x < y < |log| ==> log[x].1 != log[y].1
  }

  lemma WalkStep(r: Run, log: Log, n: nat)
    requires Walks(r, log) && n < |log|
    ensures Walks(r, log[..n]) && InList(r, log[..n]) && log[n].0 < 2 && log[n].1 == Due(r, log[..n], log[n].0)
  {
    hide Due;
    WalkPrefix(r, log, n);
    assert log[n] in log;
  }

  lemma NotTheSame(r: Run, log: Log, x: nat, y: nat)
    requires Walks(r, log) && x < y < |log| && r.fams[0] != r.fams[1] && !Retry(r, log, y)
    ensures log[x].1 != log[y].1
  {
    hide Walks, Due, Last;
    WalkFamily(r, log, x);
    WalkFamily(r, log, y);
    if log[x].0 == log[y].0 {
      WalkStep(r, log, y);
      Ascends(r, log[..y], x);
      DueAfterLast(r, log[..y], log[y].0);
    }
  }

  /** An address is tried a second time exactly by the retries. */
  lemma RepeatsAreRetries(r: Run, log: Log)
    requires Walks(r, log) && r.fams[0] != r.fams[1]
    ensures NoRepeat(log) <==> forall n :: 0 <= n < |log| ==> !Retry(r, log, n)
  {
    hide Retry, Walks;
    if n :| 0 <= n < |log| && Retry(r, log, n) {
      RetryRepeats(r, log, n);
    } else {
      forall x, y | 0 <= x < y < |log| ensures log[x].1 != log[y].1 {
        NotTheSame(r, log, x, y);
      }
    }
  }

  lemma RetryRepeats(r: Run, log: Log, n: nat)
    requires Walks(r, log) && n < |log| && Retry(r, log, n)
    ensures log[RetriedOf(r, log, n)] == log[n]
  {
    WalkFamily(r, log, n);
    assert log[..n][RetriedOf(r, log, n)] == log[RetriedOf(r, log, n)];
  }

  // ---------- list order without a gap ----------

  /** The addresses slot `i` has tried, in order. */
  function LogOf(log: Log, i: nat): seq<nat>
  {
    if log == [] then [] else
    var (slot, a) := log[|log| - 1];
    LogOf(log[..|log| - 1], i) + if slot == i then [a] else []
  }

  /** The addresses of family `f` among the first `k`, in list order. */
  function Upto(family: seq<int>, f: int, k: nat): (r: seq<nat>)
    requires k <= |family|
  {
    if k == 0 then [] else Upto(family, f, k - 1) + if family[k - 1] == f then [k - 1] else []
  }

  lemma {:induction false} UptoSkips(family: seq<int>, f: int, j: nat, k: nat)
    requires j <= k <= |family| && forall i :: j <= i < k ==> family[i] != f
    ensures Upto(family, f, k) == Upto(family, f, j)
  {
    if j < k {
      UptoSkips(family, f, j, k - 1);
    }
  }

  /** How far slot `i` has come: just past its last address. */
  function Reach(r: Run, log: Log, i: nat): (k: nat)
    requires InList(r, log)
    ensures k <= |r.family|
  {
    var x := Last(log, i);
    if x.None? then 0
    else
      assert log[x.value] in log;
      log[x.value].1 + 1
  }

  /** No attempt of slot `i` is a retry. */
  predicate NoRetry(r: Run, log: Log, i: nat)
  {
    forall n :: 0 <= n < |log| && log[n].0 == i ==> !Retry(r, log, n)
  }

  lemma NoRetryPrefix(r: Run, log: Log, i: nat, k: nat)
    requires NoRetry(r, log, i) && k <= |log|
    ensures NoRetry(r, log[..k], i)
  {
    hide Retry;
    forall n | 0 <= n < k && log[..k][n].0 == i ensures !Retry(r, log[..k], n) {
      RetryPrefix(r, log, k, n);
    }
  }

  /** An attempt that is no retry is on the first address of its family past the slot's last one. */
  lemma FreshDue(r: Run, log: Log, i: nat)
    requires InList(r, log) && i < 2 && !Stuck(r, log, i)
    ensures Due(r, log, i) == NextOf(r.family, r.fams[i], Reach(r, log, i))
  {
    hide Last;
  }

  lemma UptoDue(r: Run, log: Log, i: nat)
    requires InList(r, log) && i < 2 && !Stuck(r, log, i) && Due(r, log, i) < |r.family|
    ensures var a := Due(r, log, i);
            && Reach(r, log, i) <= a
            && Upto(r.family, r.fams[i], a + 1) == Upto(r.family, r.fams[i], Reach(r, log, i)) + [a]
  {
    hide Stuck, Due, Reach;
    FreshDue(r, log, i);
    UptoSkips(r.family, r.fams[i], Reach(r, log, i), Due(r, log, i));
  }

  lemma ReachUnfolds(r: Run, log: Log, i: nat)
    requires log != [] && InList(r, log) && InList(r, log[..|log| - 1])
    ensures Reach(r, log, i) ==
            if log[|log| - 1].0 == i then log[|log| - 1].1 + 1 else Reach(r, log[..|log| - 1], i)
  {
    LastUnfolds(log, i);
    hide Last;
  }

  lemma RetryIsStuck(r: Run, log: Log)
    requires log != []
    ensures Retry(r, log, |log| - 1) == Stuck(r, log[..|log| - 1], log[|log| - 1].0)
  {
  }

  /** A slot that never retries tries the addresses of its family in list order without a gap. */
  lemma {:induction false} OrderWithoutRetries(r: Run, log: Log, i: nat)
    requires Walks(r, log) && i < 2 && NoRetry(r, log, i)
    ensures LogOf(log, i) == Upto(r.family, r.fams[i], Reach(r, log, i))
    decreases |log|
  {
    hide Walk, Due, Upto, Stuck, Retry;
    if log != [] {
      var m := |log| - 1;
      LastStep(r, log);
      ReachUnfolds(r, log, i);
      NoRetryPrefix(r, log, i, m);
      RetryIsStuck(r, log);
      hide Reach;
      OrderWithoutRetries(r, log[..m], i);
      if log[m].0 == i {
        UptoDue(r, log[..m], i);
      }
    } else {
      assert Upto(r.family, r.fams[i], 0) == [] by { UptoNothing(r.family, r.fams[i]); }
    }
  }

  lemma UptoNothing(family: seq<int>, f: int)
    ensures Upto(family, f, 0) == []
  {
  }

  // ---------- how many attempts ----------

  /** The attempts of slot `i` that are no retries. */
  function Firsts(r: Run, log: Log, i: nat): nat
  {
    if log == [] then 0
    else Firsts(r, log[..|log| - 1], i) + if log[|log| - 1].0 == i && !Retry(r, log, |log| - 1) then 1 else 0
  }

  lemma {:induction false} FirstsBounded(r: Run, log: Log, i: nat)
    requires Walks(r, log) && i < 2
    ensures Firsts(r, log, i) <= |Upto(r.family, r.fams[i], Reach(r, log, i))|
    decreases |log|
  {
    hide Walk, Due, Upto, Stuck, Retry;
    if log != [] {
      var m := |log| - 1;
      LastStep(r, log);
      ReachUnfolds(r, log, i);
      RetryIsStuck(r, log);
      FirstsBounded(r, log[..m], i);
      if log[m].0 == i {
        if Stuck(r, log[..m], i) {
          StuckStays(r, log, i);
        } else {
          hide Reach;
          UptoDue(r, log[..m], i);
        }
      }
    }
  }

  lemma StuckStays(r: Run, log: Log, i: nat)
    requires Walks(r, log) && i < 2 && log != [] && log[|log| - 1].0 == i && Stuck(r, log[..|log| - 1], i)
    requires Walks(r, log[..|log| - 1])
    ensures Reach(r, log, i) == Reach(r, log[..|log| - 1], i)
  {
    LastStep(r, log);
    DueAfterLast(r, log[..|log| - 1], i);
  }

  /** Each retry of slot 1 follows an attempt that is none. */
  lemma {:induction false} RetriesBounded(r: Run, log: Log)
    requires LogInv(r, log)
    ensures var x := Last(log, 1);
            |log| + (if x.Some? && !Retry(r, log, x.value) then 1 else 0) <= Firsts(r, log, 0) + 2 * Firsts(r, log, 1)
    decreases |log|
  {
    if log != [] {
      var m := |log| - 1;
      LastStep(r, log);
      FewRetriesPrefix(r, log, m);
      hide Walk, Retry;
      RetriesBounded(r, log[..m]);
      LastUnfolds(log, 1);
      if log[m].0 == 1 && Retry(r, log, m) {
        RetriedIsLast(r, log);
        RetryPrefix(r, log, m, RetriedOf(r, log, m));
      } else if Last(log[..m], 1).Some? {
        RetryPrefix(r, log, m, Last(log[..m], 1).value);
      }
    }
  }

  lemma RetriedIsLast(r: Run, log: Log)
    requires log != [] && Retry(r, log, |log| - 1)
    ensures Last(log[..|log| - 1], log[|log| - 1].0) == Some(RetriedOf(r, log, |log| - 1))
  {
  }

  lemma FewRetriesPrefix(r: Run, log: Log, k: nat)
    requires FewRetries(r, log) && k <= |log|
    ensures FewRetries(r, log[..k])
  {
    hide Retry;
    forall n | 0 <= n < k && Retry(r, log[..k], n)
      ensures log[..k][n].0 == 1 && !Retry(r, log[..k], RetriedOf(r, log[..k], n))
    {
      assert log[..k][..n] == log[..n];
      RetryPrefix(r, log, k, n);
      RetryPrefix(r, log, k, RetriedOf(r, log, n));
    }
  }

  lemma {:induction false} UptoGrows(family: seq<int>, f: int, j: nat, k: nat)
    requires j <= k <= |family|
    ensures |Upto(family, f, j)| <= |Upto(family, f, k)|
  {
    if j < k {
      UptoGrows(family, f, j, k - 1);
    }
  }

  lemma {:induction false} UptoTogether(family: seq<int>, f: int, g: int, k: nat)
    requires f != g && k <= |family|
    ensures |Upto(family, f, k)| + |Upto(family, g, k)| <= k
  {
    if k > 0 {
      UptoTogether(family, f, g, k - 1);
    }
  }

  /** At most one attempt for each address of slot 0, and two for each of slot 1. */
  lemma AttemptsOfLog(r: Run, log: Log)
    requires LogInv(r, log)
    ensures |log| <= |Upto(r.family, r.fams[0], |r.family|)| + 2 * |Upto(r.family, r.fams[1], |r.family|)|
  {
    hide Upto, FewRetries, Walk, Firsts;
    RetriesBounded(r, log);
    FirstsBounded(r, log, 0);
    FirstsBounded(r, log, 1);
    UptoGrows(r.family, r.fams[0], Reach(r, log, 0), |r.family|);
    UptoGrows(r.family, r.fams[1], Reach(r, log, 1), |r.family|);
  }
}
