/** What a finished call has done: every way out of the critical section is
    earned, and no call ends without its work. */
module ProtocolOutcomes {
  import opened Descriptors
  import opened Memory
  import opened Protocol
  import opened ProtocolSafety
  import opened ProtocolImports

  /** All files of the class are registered. */
  ghost predicate FilesIn(d: Data, k: Klass) {
    k.found && Names(k.files) <= d.registered.Keys
  }

  ghost predicate RulesCompile(d: Data, name: string) {
    name in d.pool.types && Clean(d.pool.types, name)
  }

  /** A file of the class that neither this call nor the engine has. */
  ghost predicate LacksFile(d: Data, k: Klass) {
    exists f :: f in k.files && f.name !in d.registered && f.name !in d.pool.files
  }

  /** The class is registered; or it is skipped, by register_all and because
      the engine does not know its type; or an error is raised, because of a
      missing import, a refused file, or rules that do not compile. */
  ghost predicate Earned(d: Data, call: Call, end: End) {
    match end
    case Registered => call.klass in d.types
    case Skipped => call.RegisterAll? && FilesIn(d, call.klass) && call.klass.typeName !in d.pool.types
    case Raised =>
      || !call.klass.found || LacksFile(d, call.klass)
      || (FilesIn(d, call.klass) && !RulesCompile(d, call.klass.typeName)
          && (call.RegisterAll? ==> call.klass.typeName in d.pool.types))
  }

  predicate PastFiles(pc: Pc) {
    || pc.AskTypeWait? || pc.AskTypeHold? || pc.CompileCall? || pc.CompileWait? || pc.CompileHold? || pc.CompileReturn?
    || pc.CopyTypes? || pc.Publish?
  }

  predicate Compiling(pc: Pc) {
    pc.CompileCall? || pc.CompileWait? || pc.CompileHold? || pc.CompileReturn?
  }

  ghost predicate OnTheWay(d: Data, pc: Pc) {
    && Sending(d, pc)
    && (PastFiles(pc) ==> FilesIn(d, pc.call.klass))
    && (pc.AskTypeWait? || pc.AskTypeHold? ==> pc.call.RegisterAll?)
    && (Compiling(pc) && pc.call.RegisterAll? ==> pc.call.klass.typeName in d.pool.types)
    && (pc.CompileReturn? ==> (pc.ok <==> RulesCompile(d, pc.call.klass.typeName)))
    && (pc.Unlock? ==> Earned(d, pc.call, pc.end))
  }

  /** The pool is the one the engine began with and the registered files, with
      their own descriptors. */
  ghost predicate PoolOk(generated: Pool, d: Data) {
    && d.pool.files == generated.files + d.registered.Keys
    && Grown(generated, d.pool)
    && (forall f, t :: f in d.registered && f !in generated.files && t in d.registered[f].messages ==>
          t in d.pool.types && d.pool.types[t] == d.registered[f].messages[t])
  }

  ghost predicate OutcomesOk(generated: Pool, s: State) {
    && PoolOk(generated, s.data)
    && (forall k :: k in s.data.types ==> FilesIn(s.data, k))
    && (forall t :: 0 <= t < |s.threads| ==> OnTheWay(s.data, s.threads[t]))
  }

  // ---- every step keeps it

  lemma NextKeepsPool(generated: Pool, d: Data, pc: Pc, outcome: bool)
    requires EngineOk(d) && Knows(d, pc) && PoolOk(generated, d)
    ensures PoolOk(generated, NextData(d, pc, outcome))
    ensures forall f :: f in d.registered ==> f in NextData(d, pc, outcome).registered
  {
    if pc.AddFileHold? && Takes(d, pc.file, outcome) && pc.file.name !in d.pool.files {
      BuiltIsGrown(d.pool, pc.file);
    }
  }

  /** The file being sent is one of the class. */
  lemma SentIsListed(d: Data, call: Call, file: FileProto, files: seq<FileProto>)
    requires Rest(d, call.klass.files, [file] + files)
    ensures file in call.klass.files
  {
    var k := |call.klass.files| - |[file] + files|;
    assert call.klass.files[k] == ([file] + files)[0];
  }

  lemma AllSent(d: Data, k: Klass)
    requires Rest(d, k.files, []) && k.found
    ensures FilesIn(d, k)
  {
    assert k.files[..|k.files|] == k.files;
  }

  lemma NextOnTheWay(d: Data, pc: Pc, outcome: bool)
    requires TypesOk(d) && Knows(d, pc) && OnTheWay(d, pc)
    ensures OnTheWay(NextData(d, pc, outcome), NextPc(d, pc, outcome))
  {
    NextSends(d, pc, outcome);
    match pc {
      case SendFiles(call, files) =>
        if files == [] && call.klass.found {
          AllSent(d, call.klass);
        }
      case AddFileHold(call, file, files) =>
        if !Takes(d, file, outcome) {
          SentIsListed(d, call, file, files);
        }
      case _ =>
    }
  }

  /** Classes get their names only once their files are in. */
  lemma NextKeepsTypes(d: Data, pc: Pc, outcome: bool)
    requires Knows(d, pc) && OnTheWay(d, pc) && forall k :: k in d.types ==> FilesIn(d, k)
    ensures forall k :: k in NextData(d, pc, outcome).types ==> FilesIn(NextData(d, pc, outcome), k)
  {
  }

  lemma OthersOnTheWay(d: Data, pc: Pc, outcome: bool, other: Pc)
    requires OnTheWay(d, other) && !(HoldsMutex(pc) && HoldsMutex(other))
    ensures OnTheWay(NextData(d, pc, outcome), other)
  {
  }

  lemma StepKeepsOutcomes(generated: Pool, s: State, s': State)
    requires Inv(s) && OutcomesOk(generated, s) && Step(s, s')
    ensures OutcomesOk(generated, s')
  {
    var t: Tid :| ThreadStep(s, s', t);
    if Work(s, s', t) {
      var outcome :| s' == Next(s, t, outcome);
      var pc := s.threads[t];
      assert Knows(s.data, pc) && OnTheWay(s.data, pc) && OwnLocks(s.locks, t, pc);
      NextKeepsPool(generated, s.data, pc, outcome);
      NextOnTheWay(s.data, pc, outcome);
      NextKeepsTypes(s.data, pc, outcome);
      forall u | 0 <= u < |s'.threads| ensures OnTheWay(s'.data, s'.threads[u]) {
        if u != t {
          assert OwnLocks(s.locks, u, s.threads[u]);
          OthersOnTheWay(s.data, pc, outcome, s.threads[u]);
        }
      }
    }
  }

  lemma {:induction false} RunKeepsOutcomes(run: seq<State>, i: nat)
    requires Run(run) && Init(run[0]) && i < |run|
    ensures OutcomesOk(run[0].data.pool, run[i])
  {
    if i > 0 {
      RunKeepsOutcomes(run, i - 1);
      RunKeepsInv(run, i - 1);
      RunStep(run, i);
      StepKeepsOutcomes(run[0].data.pool, run[i - 1], run[i]);
    }
  }

  // ---- what it gives

  /** No call leaves the critical section without a reason. */
  lemma EndsAreEarned(run: seq<State>, i: nat, t: Tid)
    requires Run(run) && Init(run[0]) && i < |run|
    requires t < |run[i].threads| && run[i].threads[t].Unlock?
    ensures Earned(run[i].data, run[i].threads[t].call, run[i].threads[t].end)
  {
    RunKeepsOutcomes(run, i);
    assert OnTheWay(run[i].data, run[i].threads[t]);
  }

  /** A registered class has all its files registered, with their descriptors
      in the engine's pool. */
  lemma RegisteredClassHasFiles(run: seq<State>, i: nat, k: Klass)
    requires Run(run) && Init(run[0]) && i < |run| && k in run[i].data.types
    ensures FilesIn(run[i].data, k) && PoolOk(run[0].data.pool, run[i].data)
  {
    RunKeepsOutcomes(run, i);
  }

  /** An add_file step registers its file exactly when the engine knows the
      name, or protobuf accepts a file that the pool can resolve. */
  lemma AddFileStepDecides(d: Data, call: Call, file: FileProto, files: seq<FileProto>, accepted: bool)
    ensures var pc := AddFileHold(call, file, files);
            (NextPc(d, pc, accepted) == SendFiles(call, files)) <==>
            file.name in d.pool.files || (accepted && !Unresolvable(d.pool, file))
    ensures var pc := AddFileHold(call, file, files);
            NextPc(d, pc, accepted) == SendFiles(call, files) ==>
              && file.name in NextData(d, pc, accepted).registered
              && (file.name !in d.pool.files ==> Adds(d.pool, NextData(d, pc, accepted).pool, file))
  {
    BuildsExactly(d.pool, file);
  }

  // ---- whole calls

  /** A call that still has its work before it. */
  predicate Owes(pc: Pc, call: Call) {
    || (HasCall(pc) && pc.call == call && (pc.Unlock? ==> pc.end.Registered?)
        && (pc.AskTypeWait? || pc.AskTypeHold? ==> call.RegisterAll?))
    || (call.Validate? && (pc == ValidateCall(call.klass.typeName) || pc == ValidateWait(call.klass.typeName)))
  }

  /** The call is skipped, raises, or is in the engine's validate. */
  predicate Settles(pc: Pc, call: Call) {
    || pc == Unlock(call, Skipped) || pc == Unlock(call, Raised)
    || (call.Validate? && pc == ValidateHold(call.klass.typeName))
  }

  lemma NextOwes(d: Data, pc: Pc, outcome: bool, call: Call)
    requires Owes(pc, call) && Knows(d, pc)
    ensures var pc' := NextPc(d, pc, outcome);
            || Owes(pc', call) || Settles(pc', call)
            || (pc'.Idle? && !call.Validate? && call.klass in d.types)
  {
  }

  lemma StepOwes(s: State, s': State, t: Tid, call: Call)
    requires Inv(s) && Step(s, s') && t < |s.threads| && Owes(s.threads[t], call)
    ensures t < |s'.threads|
    ensures || Owes(s'.threads[t], call) || Settles(s'.threads[t], call)
            || (s'.threads[t].Idle? && !call.Validate? && call.klass in s.data.types)
  {
    var u: Tid :| ThreadStep(s, s', u);
    assert Knows(s.data, s.threads[t]);
    if u == t && Work(s, s', u) {
      var outcome :| s' == Next(s, u, outcome);
      NextOwes(s.data, s.threads[t], outcome, call);
    }
  }

  /** Where a thread is along a run. */
  function At(run: seq<State>, m: nat, t: Tid): Pc
    requires m < |run|
  {
    if t < |run[m].threads| then run[m].threads[t] else Idle
  }

  lemma RunOwes(run: seq<State>, j: nat, t: Tid, call: Call)
    requires Run(run) && Init(run[0]) && 0 < j < |run| && Owes(At(run, j - 1, t), call)
    ensures || Owes(At(run, j, t), call) || Settles(At(run, j, t), call)
            || (At(run, j, t).Idle? && !call.Validate? && call.klass in run[j].data.types)
  {
    RunKeepsInv(run, j - 1);
    RunStep(run, j);
    StepOwes(run[j - 1], run[j], t, call);
    StepGrowsData(run[j - 1], run[j]);
  }

  lemma {:induction false} CallGoesOn(run: seq<State>, i: nat, j: nat, t: Tid, call: Call)
    requires Run(run) && Init(run[0]) && i <= j < |run|
    requires At(run, i, t) == Entry(call)
    requires forall m :: i < m <= j ==> !Settles(At(run, m, t), call) && !At(run, m, t).Idle?
    ensures Owes(At(run, j, t), call)
    decreases j
  {
    if i < j {
      CallGoesOn(run, i, j - 1, t, call);
      RunOwes(run, j, t, call);
    }
  }

  /** A call that has started is over only after its work: its class is
      registered, or it was skipped or has raised; and a validation has been
      in the engine, unless it has raised. */
  lemma CallDoesItsWork(run: seq<State>, i: nat, j: nat, t: Tid, call: Call)
    requires Run(run) && Init(run[0]) && i < j < |run|
    requires At(run, i, t) == Entry(call) && At(run, j, t).Idle?
    requires forall m :: i < m < j ==> !At(run, m, t).Idle?
    ensures || (exists m :: i < m < j && Settles(At(run, m, t), call))
            || (!call.Validate? && call.klass in run[j].data.types)
  {
    if forall m :: i < m < j ==> !Settles(At(run, m, t), call) {
      CallGoesOn(run, i, j - 1, t, call);
      RunOwes(run, j, t, call);
    }
  }
}
