/** What every reachable state of the protocol satisfies. */
module ProtocolSafety {
  import opened Descriptors
  import opened Memory
  import opened Protocol

  // ---- the invariant

  /** The part of LocksOk that concerns one thread. */
  predicate OwnLocks(l: Locks, t: Tid, pc: Pc) {
    && (KeepsGvl(pc) ==> l.gvl == Some(t))
    && (WithoutGvl(pc) ==> l.gvl != Some(t))
    && (HoldsMutex(pc) <==> l.mutex == Some(t))
    && (HoldsWrite(pc) <==> l.writer == Some(t))
    && (HoldsRead(pc) <==> t in l.readers)
  }

  /** Each lock is held by exactly the threads whose place in the code says so. */
  predicate LocksOk(s: State) {
    && (s.locks.gvl.Some? ==> s.locks.gvl.value < |s.threads|)
    && (s.locks.mutex.Some? ==> s.locks.mutex.value < |s.threads|)
    && (s.locks.writer.Some? ==> s.locks.writer.value < |s.threads| && s.locks.readers == {})
    && (forall t :: t in s.locks.readers ==> t < |s.threads|)
    && (forall t :: 0 <= t < |s.threads| ==> OwnLocks(s.locks, t, s.threads[t]))
  }

  /** The engine's cache holds clean types only. */
  ghost predicate EngineOk(d: Data) {
    && ValidPool(d.pool)
    && (forall c :: c in d.compiled ==> c in d.pool.types && Clean(d.pool.types, c))
  }

  /** Every published name was compiled first. */
  predicate TypesOk(d: Data) {
    forall k :: k in d.types ==> d.types[k] == k.typeName && k.typeName in d.compiled
  }

  /** Between compilation and publication a class is known to one thread only. */
  predicate Compiled(pc: Pc) {
    (pc.CompileReturn? && pc.ok) || pc.CopyTypes? || pc.Publish?
  }

  predicate Unregistered(pc: Pc) {
    HoldsMutex(pc) && !pc.Recheck? && !pc.Unlock?
  }

  /** What a thread knows at its place in the code. */
  predicate Knows(d: Data, pc: Pc) {
    && (Unregistered(pc) ==> pc.call.klass !in d.types)
    && (pc.AddFileWait? || pc.AddFileHold? ==> pc.file.name !in d.registered)
    && (Compiled(pc) ==> pc.call.klass.typeName in d.compiled)
    && (pc.Publish? ==> pc.copy == d.types[pc.call.klass := pc.call.klass.typeName])
    && (pc.Unlock? && pc.end.Registered? ==> pc.call.klass in d.types)
    && (pc.ValidateCall? || pc.ValidateWait? || pc.ValidateHold? || pc.ValidateReturn? ==> pc.name in d.compiled)
  }

  predicate InFlight(s: State, k: Klass) {
    exists t :: 0 <= t < |s.threads| && Compiled(s.threads[t]) && s.threads[t].call.klass == k
  }

  ghost predicate CountsOk(s: State) {
    forall k :: Count(s.data.compiles, k) == if k in s.data.types || InFlight(s, k) then 1 else 0
  }

  ghost predicate Inv(s: State) {
    && LocksOk(s) && EngineOk(s.data) && TypesOk(s.data)
    && (forall t :: 0 <= t < |s.threads| ==> Knows(s.data, s.threads[t]))
    && CountsOk(s)
  }

  // ---- every step keeps it

  /** How a step moves the locks, read off the thread's old and new place. */
  predicate MovesLocks(l: Locks, l': Locks, t: Tid, pc: Pc, pc': Pc) {
    && l'.gvl == (if WithoutGvl(pc') && !WithoutGvl(pc) then None else l.gvl)
    && (KeepsGvl(pc') || (WithoutGvl(pc') && !WithoutGvl(pc)) ==> l.gvl == Some(t))
    && l'.mutex == (if HoldsMutex(pc') then Some(t) else if HoldsMutex(pc) then None else l.mutex)
    && (HoldsMutex(pc') ==> HoldsMutex(pc) || l.mutex == None)
    && l'.writer == (if HoldsWrite(pc') then Some(t) else if HoldsWrite(pc) then None else l.writer)
    && (HoldsWrite(pc') ==> l.writer == None && l.readers == {})
    && l'.readers == (if HoldsRead(pc') then l.readers + {t} else l.readers - {t})
    && (HoldsRead(pc') ==> l.writer == None)
  }

  lemma WorkMovesLocks(s: State, t: Tid, outcome: bool)
    requires t < |s.threads| && OwnLocks(s.locks, t, s.threads[t]) && Enabled(s, t)
    ensures MovesLocks(s.locks, Next(s, t, outcome).locks, t, s.threads[t], NextPc(s.data, s.threads[t], outcome))
  {
  }

  lemma MoveKeepsLocks(s: State, s': State, t: Tid)
    requires LocksOk(s) && t < |s.threads| == |s'.threads| && s'.threads == s.threads[t := s'.threads[t]]
    requires MovesLocks(s.locks, s'.locks, t, s.threads[t], s'.threads[t])
    ensures LocksOk(s')
  {
    forall u | 0 <= u < |s'.threads| ensures OwnLocks(s'.locks, u, s'.threads[u]) {
      assert OwnLocks(s.locks, u, s.threads[u]);
      assert OwnLocks(s.locks, t, s.threads[t]);
    }
  }

  /** The engine only grows, and its cache stays clean. */
  lemma DataKeepsEngine(d: Data, pc: Pc, outcome: bool)
    requires EngineOk(d)
    ensures EngineOk(NextData(d, pc, outcome))
    ensures Grown(d.pool, NextData(d, pc, outcome).pool)
    ensures d.compiled <= NextData(d, pc, outcome).compiled
  {
    var later := NextData(d, pc, outcome).pool;
    forall c | c in d.compiled ensures Clean(later.types, c) {
      GrowthKeepsClosure(d.pool, later, c);
    }
  }

  /** No step loses or changes a published name. */
  lemma DataGrowsTypes(d: Data, pc: Pc, outcome: bool)
    requires TypesOk(d) && Knows(d, pc)
    ensures TypesOk(NextData(d, pc, outcome))
    ensures forall k :: k in d.types ==> k in NextData(d, pc, outcome).types && NextData(d, pc, outcome).types[k] == d.types[k]
  {
  }

  lemma NextPlaceKnows(d: Data, pc: Pc, outcome: bool)
    requires TypesOk(d) && Knows(d, pc)
    ensures Knows(NextData(d, pc, outcome), NextPc(d, pc, outcome))
  {
  }

  lemma OthersStillKnow(d: Data, pc: Pc, outcome: bool, other: Pc)
    requires EngineOk(d) && TypesOk(d) && Knows(d, pc) && Knows(d, other)
    requires !(HoldsMutex(pc) && HoldsMutex(other))
    ensures Knows(NextData(d, pc, outcome), other)
  {
    DataKeepsEngine(d, pc, outcome);
    DataGrowsTypes(d, pc, outcome);
  }

  /** A class is counted when it compiles, stays in flight with that one
      thread, and is then published. */
  lemma DataMovesCount(d: Data, pc: Pc, outcome: bool, k: Klass)
    requires Knows(d, pc)
    ensures var d', pc' := NextData(d, pc, outcome), NextPc(d, pc, outcome);
            && (k in d'.types <==> k in d.types || (pc.Publish? && pc.call.klass == k))
            && (Compiled(pc') ==> pc'.call.klass == pc.call.klass && HoldsMutex(pc) && !pc.Publish? && (Compiled(pc) || pc.CompileHold?))
            && (Compiled(pc) ==> Compiled(pc') || pc.Publish?)
            && Count(d'.compiles, k) ==
                 Count(d.compiles, k) + (if pc.CompileHold? && Compiled(pc') && pc.call.klass == k then 1 else 0)
  {
  }

  lemma WorkKeepsCounts(s: State, t: Tid, outcome: bool)
    requires Inv(s) && t < |s.threads| && Enabled(s, t)
    ensures CountsOk(Next(s, t, outcome))
  {
    var s' := Next(s, t, outcome);
    var pc, pc' := s.threads[t], s'.threads[t];
    assert Knows(s.data, pc) && OwnLocks(s.locks, t, pc);
    forall k ensures Count(s'.data.compiles, k) == if k in s'.data.types || InFlight(s', k) then 1 else 0 {
      DataMovesCount(s.data, pc, outcome, k);
      assert Count(s.data.compiles, k) == if k in s.data.types || InFlight(s, k) then 1 else 0;
      assert forall u :: 0 <= u < |s.threads| && u != t ==> s'.threads[u] == s.threads[u];
      assert forall u :: 0 <= u < |s.threads| ==> OwnLocks(s.locks, u, s.threads[u]);
      assert Compiled(pc') && pc'.call.klass == k ==> InFlight(s', k);
      assert Compiled(pc) && pc.call.klass == k ==> InFlight(s, k);
    }
  }

  lemma WorkKeepsInv(s: State, t: Tid, outcome: bool)
    requires Inv(s) && t < |s.threads| && Enabled(s, t)
    ensures Inv(Next(s, t, outcome))
  {
    var s' := Next(s, t, outcome);
    var pc := s.threads[t];
    assert Knows(s.data, pc) && OwnLocks(s.locks, t, pc);
    WorkMovesLocks(s, t, outcome);
    MoveKeepsLocks(s, s', t);
    DataKeepsEngine(s.data, pc, outcome);
    DataGrowsTypes(s.data, pc, outcome);
    NextPlaceKnows(s.data, pc, outcome);
    WorkKeepsCounts(s, t, outcome);
    forall u | 0 <= u < |s'.threads| ensures Knows(s'.data, s'.threads[u]) {
      if u != t {
        assert OwnLocks(s.locks, u, s.threads[u]);
        OthersStillKnow(s.data, pc, outcome, s.threads[u]);
      }
    }
  }

  lemma ScheduleKeepsInv(s: State, s': State, t: Tid)
    requires Inv(s) && Schedule(s, s', t)
    ensures Inv(s')
  {
    forall u | 0 <= u < |s'.threads| ensures OwnLocks(s'.locks, u, s'.threads[u]) {
      assert OwnLocks(s.locks, u, s.threads[u]);
    }
    assert forall k :: InFlight(s', k) <==> InFlight(s, k);
  }

  lemma StartKeepsInv(s: State, s': State, t: Tid, call: Call)
    requires Inv(s) && Starts(s, s', t, call)
    ensures Inv(s')
  {
    forall u | 0 <= u < |s'.threads| ensures OwnLocks(s'.locks, u, s'.threads[u]) {
      assert OwnLocks(s.locks, u, s.threads[u]);
    }
    forall k ensures InFlight(s', k) <==> InFlight(s, k) {
      if u :| 0 <= u < |s.threads| && Compiled(s.threads[u]) && s.threads[u].call.klass == k {
        assert s'.threads[u] == s.threads[u];
      }
    }
  }

  lemma StepKeepsInv(s: State, s': State)
    requires Inv(s) && Step(s, s')
    ensures Inv(s')
  {
    var t: Tid :| ThreadStep(s, s', t);
    if Work(s, s', t) {
      var outcome :| s' == Next(s, t, outcome);
      WorkKeepsInv(s, t, outcome);
    } else if Schedule(s, s', t) {
      ScheduleKeepsInv(s, s', t);
    } else {
      var call :| Starts(s, s', t, call);
      StartKeepsInv(s, s', t, call);
    }
  }

  lemma {:induction false} RunKeepsInv(run: seq<State>, i: nat)
    requires Run(run) && Inv(run[0]) && i < |run|
    ensures Inv(run[i])
  {
    if i > 0 {
      RunKeepsInv(run, i - 1);
      RunStep(run, i);
      StepKeepsInv(run[i - 1], run[i]);
    }
  }

  lemma ReachedInv(s: State)
    requires Reached(s)
    ensures Inv(s)
  {
    var run :| Run(run) && Init(run[0]) && run[|run| - 1] == s;
    RunKeepsInv(run, |run| - 1);
  }

  // ---- what it gives

  /** The rule walk is about to run: a type the pool knows is not cached. */
  predicate Walking(s: State, t: Tid)
    requires t < |s.threads|
  {
    var pc := s.threads[t];
    var walk := (name: string) => name in s.data.pool.types && name !in s.data.compiled;
    (pc.CompileHold? && walk(pc.call.klass.typeName)) || (pc.ValidateHold? && walk(pc.name))
  }

  /** Which locks a thread holds, place by place. */
  lemma LocksByPlace(s: State, t: Tid)
    requires Reached(s) && t < |s.threads|
    ensures match s.threads[t] {
              case Recheck(_) => s.locks.mutex == Some(t)
              case SendFiles(_, _) => s.locks.mutex == Some(t)
              case AddFileWait(_, _, _) => s.locks.mutex == Some(t) && s.locks.gvl == Some(t) && s.locks.writer != Some(t)
              case AddFileHold(_, _, _) => s.locks.mutex == Some(t) && s.locks.gvl == Some(t) && s.locks.writer == Some(t)
              case AskTypeWait(_) => s.locks.mutex == Some(t) && s.locks.gvl == Some(t) && t !in s.locks.readers
              case AskTypeHold(_) => s.locks.mutex == Some(t) && s.locks.gvl == Some(t) && t in s.locks.readers
              case CompileCall(_) => s.locks.mutex == Some(t)
              case CompileWait(_) => s.locks.mutex == Some(t) && s.locks.gvl != Some(t) && s.locks.writer != Some(t)
              case CompileHold(_) => s.locks.mutex == Some(t) && s.locks.gvl != Some(t) && s.locks.writer == Some(t)
              case CompileReturn(_, _) => s.locks.mutex == Some(t)
              case CopyTypes(_) => s.locks.mutex == Some(t)
              case Publish(_, _) => s.locks.mutex == Some(t)
              case Unlock(_, _) => s.locks.mutex == Some(t)
              case ValidateWait(_) => s.locks.mutex != Some(t) && s.locks.gvl != Some(t) && t !in s.locks.readers
              case ValidateHold(_) => s.locks.mutex != Some(t) && s.locks.gvl != Some(t) && t in s.locks.readers
              case _ => s.locks.mutex != Some(t) && s.locks.writer != Some(t) && t !in s.locks.readers
            }
    ensures s.locks.writer.Some? ==> s.locks.readers == {}
  {
    ReachedInv(s);
    assert OwnLocks(s.locks, t, s.threads[t]);
  }

  /** Validations run side by side: readers keep no reader out. */
  lemma ReadersShare(s: State, t: Tid)
    requires t < |s.threads| && (s.threads[t].ValidateWait? || s.threads[t].AskTypeWait?)
    requires s.locks.writer == None
    requires forall u :: 0 <= u < |s.threads| ==> !s.threads[u].AddFileWait? && !s.threads[u].CompileWait?
    ensures Enabled(s, t)
  {
  }

  /** The walk runs under the exclusive lock only: it is a compile call that
      runs it, nobody else is in the engine, and no validation ever starts one. */
  lemma WalkIsExclusive(s: State, t: Tid)
    requires Reached(s) && t < |s.threads| && Walking(s, t)
    ensures s.threads[t].CompileHold? && s.locks.writer == Some(t) && s.locks.readers == {}
    ensures forall u :: 0 <= u < |s.threads| && u != t ==> !HoldsRead(s.threads[u]) && !HoldsWrite(s.threads[u])
  {
    ReachedInv(s);
    assert Knows(s.data, s.threads[t]) && OwnLocks(s.locks, t, s.threads[t]);
    forall u | 0 <= u < |s.threads| && u != t ensures !HoldsRead(s.threads[u]) && !HoldsWrite(s.threads[u]) {
      assert OwnLocks(s.locks, u, s.threads[u]);
    }
  }

  ghost predicate DataGrows(d: Data, later: Data) {
    && (forall k :: k in d.types ==> k in later.types && later.types[k] == d.types[k])
    && (forall f :: f in d.registered ==> f in later.registered && later.registered[f] == d.registered[f])
    && Grown(d.pool, later.pool)
    && d.compiled <= later.compiled
  }

  lemma StepGrowsData(s: State, s': State)
    requires Inv(s) && Step(s, s')
    ensures DataGrows(s.data, s'.data)
  {
    var t: Tid :| ThreadStep(s, s', t);
    if Work(s, s', t) {
      var outcome :| s' == Next(s, t, outcome);
      assert Knows(s.data, s.threads[t]);
      DataKeepsEngine(s.data, s.threads[t], outcome);
      DataGrowsTypes(s.data, s.threads[t], outcome);
    }
  }

  lemma GrowsOn(d: Data, mid: Data, later: Data)
    requires DataGrows(d, mid) && DataGrows(mid, later)
    ensures DataGrows(d, later)
  {
  }

  lemma {:induction false} ChainGrows(chain: seq<Data>, i: nat, j: nat)
    requires forall m :: 0 < m < |chain| ==> DataGrows(chain[m - 1], chain[m])
    requires i <= j < |chain|
    ensures DataGrows(chain[i], chain[j])
    decreases j - i
  {
    if i < j {
      ChainGrows(chain, i, j - 1);
      GrowsOn(chain[i], chain[j - 1], chain[j]);
    }
  }

  lemma RunStep(run: seq<State>, m: nat)
    requires Run(run) && 0 < m < |run|
    ensures Step(run[m - 1], run[m])
  {
    assert Step(run[m - 1], run[m - 1 + 1]);
  }

  /** Along a run, snapshots of @types only grow and never change an entry,
      registered files stay registered, the pool keeps its types and the cache
      its members. */
  lemma SnapshotsGrow(run: seq<State>, i: nat, j: nat)
    requires Run(run) && Init(run[0]) && i <= j < |run|
    ensures DataGrows(run[i].data, run[j].data)
  {
    var chain := seq(|run|, m requires 0 <= m < |run| => run[m].data);
    forall m | 0 < m < |chain| ensures DataGrows(chain[m - 1], chain[m]) {
      RunKeepsInv(run, m - 1);
      RunStep(run, m);
      StepGrowsData(run[m - 1], run[m]);
    }
    ChainGrows(chain, i, j);
  }

  /** A class that a snapshot holds was compiled exactly once, its closure is
      clean, and the snapshot's name for it is the one every later locked or
      lock-free lookup returns. */
  lemma SnapshotHitsAreFinal(run: seq<State>, i: nat, j: nat, k: Klass)
    requires Run(run) && Init(run[0]) && i <= j < |run| && k in run[i].data.types
    ensures run[i].data.types[k] == k.typeName
    ensures k in run[j].data.types && run[j].data.types[k] == run[i].data.types[k]
    ensures Count(run[j].data.compiles, k) == 1
    ensures k.typeName in run[j].data.pool.types && Clean(run[j].data.pool.types, k.typeName)
  {
    SnapshotsGrow(run, i, j);
    RunKeepsInv(run, i);
    RunKeepsInv(run, j);
  }

  /** No class is ever compiled successfully twice. */
  lemma CompiledAtMostOnce(s: State, k: Klass)
    requires Reached(s)
    ensures Count(s.data.compiles, k) <= 1
  {
    ReachedInv(s);
  }

  /** A registration that publishes adds its class to the snapshot it replaces
      and drops nothing another thread has registered. */
  lemma PublishLosesNothing(s: State, t: Tid, outcome: bool)
    requires Reached(s) && t < |s.threads| && s.threads[t].Publish? && Enabled(s, t)
    ensures s.threads[t].call.klass !in s.data.types
    ensures Next(s, t, outcome).data.types == s.data.types[s.threads[t].call.klass := s.threads[t].call.klass.typeName]
  {
    ReachedInv(s);
    assert Knows(s.data, s.threads[t]);
  }
}
