/** Freedom from deadlock: whatever state the threads have reached, they can
    all finish. */
module ProtocolProgress {
  import opened Memory
  import opened Protocol
  import opened ProtocolSafety

  /** An upper bound on the steps a thread has before it is idle again. */
  function Remaining(pc: Pc): nat {
    match pc
    case Idle => 0
    case ValidateReturn(_) => 1
    case ValidateHold(_) => 2
    case ValidateWait(_) => 3
    case ValidateCall(_) => 4
    case Unlock(_, _) => 5
    case Publish(_, _) => 6
    case CopyTypes(_) => 7
    case CompileReturn(_, _) => 8
    case CompileHold(_) => 9
    case CompileWait(_) => 10
    case CompileCall(_) => 11
    case AskTypeHold(_) => 12
    case AskTypeWait(_) => 13
    case SendFiles(_, files) => 14 + 3 * |files|
    case AddFileHold(_, _, files) => 15 + 3 * |files|
    case AddFileWait(_, _, files) => 16 + 3 * |files|
    case Recheck(call) => 15 + 3 * |call.klass.files|
    case WaitMutex(call) => 16 + 3 * |call.klass.files|
    case Lookup(call) => 17 + 3 * |call.klass.files|
  }

  function Total(threads: seq<Pc>): nat {
    if threads == [] then 0 else Remaining(threads[0]) + Total(threads[1..])
  }

  predicate AllIdle(threads: seq<Pc>) {
    forall t :: 0 <= t < |threads| ==> threads[t].Idle?
  }

  lemma {:induction false} TotalUpdate(threads: seq<Pc>, t: nat, pc: Pc)
    requires t < |threads|
    ensures Total(threads[t := pc]) == Total(threads) - Remaining(threads[t]) + Remaining(pc)
  {
    if t == 0 {
      assert threads[t := pc][1..] == threads[1..];
    } else {
      assert threads[t := pc][1..] == threads[1..][t - 1 := pc];
      TotalUpdate(threads[1..], t - 1, pc);
    }
  }

  lemma NextIsNearer(d: Data, pc: Pc, outcome: bool)
    requires !pc.Idle?
    ensures Remaining(NextPc(d, pc, outcome)) < Remaining(pc)
  {
  }

  /** Whatever its outcome, a step brings the threads nearer to the end. */
  lemma WorkLowersTotal(s: State, s': State, t: Tid)
    requires Work(s, s', t)
    ensures Total(s'.threads) < Total(s.threads)
  {
    var outcome :| s' == Next(s, t, outcome);
    NextIsNearer(s.data, s.threads[t], outcome);
    TotalUpdate(s.threads, t, NextPc(s.data, s.threads[t], outcome));
  }

  /** A thread that can go on once it has the GVL. No holder of the read/write
      lock waits for anything, so such a thread never waits for the GVL in vain. */
  lemma ReadyThread(s: State) returns (t: Tid)
    requires Inv(s) && !AllIdle(s.threads)
    ensures t < |s.threads|
    ensures Enabled(s, t) || (RunsRuby(s.threads[t]) && Enabled(s.(locks := s.locks.(gvl := Some(t))), t)
                              && forall u :: 0 <= u < |s.threads| ==> RunsRuby(s.threads[u]))
  {
    if s.locks.writer.Some? {
      t := s.locks.writer.value;
      assert OwnLocks(s.locks, t, s.threads[t]);
    } else if s.locks.readers != {} {
      t :| t in s.locks.readers;
      assert OwnLocks(s.locks, t, s.threads[t]);
    } else if u :| 0 <= u < |s.threads| && WaitsToWrite(s.threads[u]) {
      t := u;
    } else if u :| 0 <= u < |s.threads| && WaitsToRead(s.threads[u]) {
      t := u;
    } else {
      forall u | 0 <= u < |s.threads| ensures RunsRuby(s.threads[u]) {
        assert OwnLocks(s.locks, u, s.threads[u]);
      }
      if s.locks.mutex.Some? {
        t := s.locks.mutex.value;
        assert OwnLocks(s.locks, t, s.threads[t]);
      } else {
        t :| 0 <= t < |s.threads| && !s.threads[t].Idle?;
      }
    }
  }

  lemma HandGvl(s: State, t: Tid) returns (run: seq<State>)
    requires LocksOk(s) && t < |s.threads| && s.locks.gvl != Some(t)
    requires forall u :: 0 <= u < |s.threads| ==> RunsRuby(s.threads[u])
    ensures Run(run) && run[0] == s && |run| <= 3
    ensures run[|run| - 1] == s.(locks := s.locks.(gvl := Some(t)))
    ensures forall i :: 0 <= i < |run| ==> run[i].threads == s.threads
  {
    var given := s.(locks := s.locks.(gvl := Some(t)));
    if s.locks.gvl.Some? {
      var freed := s.(locks := s.locks.(gvl := None));
      assert ThreadStep(s, freed, s.locks.gvl.value);
      assert ThreadStep(freed, given, t);
      run := [s, freed, given];
    } else {
      assert ThreadStep(s, given, t);
      run := [s, given];
    }
  }

  /** From any state with an unfinished call, at most two moves of the GVL lead
      to a state where some thread takes a step of its call. */
  lemma Advance(s: State) returns (run: seq<State>, t: Tid)
    requires Inv(s) && !AllIdle(s.threads)
    ensures Run(run) && run[0] == s && 2 <= |run| <= 4
    ensures Work(run[|run| - 2], run[|run| - 1], t)
    ensures forall i :: 0 <= i < |run| - 1 ==> run[i].threads == s.threads
    ensures Total(run[|run| - 1].threads) < Total(s.threads)
  {
    t := ReadyThread(s);
    var before := [s];
    if !Enabled(s, t) {
      before := HandGvl(s, t);
    }
    var last := before[|before| - 1];
    var worked := Next(last, t, true);
    assert Work(last, worked, t);
    WorkLowersTotal(last, worked, t);
    WorkEnds(before, worked, t);
    run := before + [worked];
    assert run[|run| - 2] == last;
  }

  lemma WorkEnds(before: seq<State>, worked: State, t: Tid)
    requires Run(before) && Work(before[|before| - 1], worked, t)
    ensures Run(before + [worked])
  {
    assert ThreadStep(before[|before| - 1], worked, t);
    RunsJoin(before, [before[|before| - 1], worked]);
    assert [before[|before| - 1], worked][1..] == [worked];
  }

  lemma RunsJoin(a: seq<State>, b: seq<State>)
    requires Run(a) && Run(b) && a[|a| - 1] == b[0]
    ensures Run(a + b[1..])
  {
    var c := a + b[1..];
    forall i | 0 <= i < |c| - 1 ensures Step(c[i], c[i + 1]) {
      if i < |a| - 1 {
        assert Step(a[i], a[i + 1]);
      } else {
        var j := i - (|a| - 1);
        assert c[i] == b[j] && c[i + 1] == b[j + 1];
        assert Step(b[j], b[j + 1]);
      }
    }
  }

  lemma {:induction false} Finish(s: State) returns (run: seq<State>)
    requires Inv(s)
    ensures Run(run) && run[0] == s && AllIdle(run[|run| - 1].threads)
    decreases Total(s.threads)
  {
    if AllIdle(s.threads) {
      run := [s];
    } else {
      var first, t := Advance(s);
      RunKeepsInv(first, |first| - 1);
      var rest := Finish(first[|first| - 1]);
      RunsJoin(first, rest);
      run := first + rest[1..];
    }
  }

  /** No reachable state is deadlocked: all unfinished calls can complete. */
  lemma NoDeadlock(s: State)
    requires Reached(s)
    ensures exists run: seq<State> :: Run(run) && run[0] == s && AllIdle(run[|run| - 1].threads)
  {
    ReachedInv(s);
    var run := Finish(s);
  }

  // ---- how long a run can work

  /** A step of a call, or a move of the GVL: no new call. */
  ghost predicate Continues(s: State, s': State) {
    (exists t: Tid :: Work(s, s', t)) || (exists t: Tid :: Schedule(s, s', t))
  }

  /** How many of a run's steps are steps of a call. */
  ghost function WorkSteps(run: seq<State>): nat {
    if |run| <= 1 then 0
    else (if exists t: Tid :: Work(run[0], run[1], t) then 1 else 0) + WorkSteps(run[1..])
  }

  /** Without new calls, a run takes no more steps of calls than the threads
      had before them: only moves of the GVL can go on. */
  lemma {:induction false} WorkIsBounded(run: seq<State>)
    requires |run| > 0 && forall i :: 0 <= i < |run| - 1 ==> Continues(run[i], run[i + 1])
    ensures WorkSteps(run) + Total(run[|run| - 1].threads) <= Total(run[0].threads)
  {
    if |run| > 1 {
      assert Continues(run[0], run[0 + 1]);
      if t: Tid :| Work(run[0], run[1], t) {
        WorkLowersTotal(run[0], run[1], t);
      }
      forall i | 0 <= i < |run[1..]| - 1 ensures Continues(run[1..][i], run[1..][i + 1]) {
        assert Continues(run[i + 1], run[i + 1 + 1]);
      }
      WorkIsBounded(run[1..]);
    }
  }
}
