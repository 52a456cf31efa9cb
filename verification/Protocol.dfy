/** The locking protocol across the Ruby validator, the binding and the engine,
    as a state machine over the steps of any number of Ruby threads.

    Three locks are in play: the GVL, the validator's registration mutex and
    the engine's read/write lock. A thread that runs Ruby code holds the GVL
    and may be preempted. `add_file` and `message_type?` keep the GVL while they
    wait for the read/write lock; `compile` and `validate` give it up first and
    take it back after the read/write lock is released. */
module Protocol {
  import opened Descriptors
  import opened Memory

  type Tid = nat

  /** A message class with the files that register_file gets to send for it, in
      its order. `found` is false when it then meets an import that is not in
      the descriptor pool. */
  datatype Klass = Klass(id: nat, typeName: string, files: seq<FileProto>, found: bool)

  /** One class of a validate, register or register_all call. */
  datatype Call = Validate(klass: Klass) | Register(klass: Klass) | RegisterAll(klass: Klass)

  /** How the critical section of register_class ends. */
  datatype End = Registered | Skipped | Raised

  /** Where a thread is. From Recheck to Unlock it holds the mutex. */
  datatype Pc =
    | Idle
    | Lookup(call: Call)
    | WaitMutex(call: Call)
    | Recheck(call: Call)
    | SendFiles(call: Call, files: seq<FileProto>)
    | AddFileWait(call: Call, file: FileProto, files: seq<FileProto>)
    | AddFileHold(call: Call, file: FileProto, files: seq<FileProto>)
    | AskTypeWait(call: Call)
    | AskTypeHold(call: Call)
    | CompileCall(call: Call)
    | CompileWait(call: Call)
    | CompileHold(call: Call)
    | CompileReturn(call: Call, ok: bool)
    | CopyTypes(call: Call)
    | Publish(call: Call, copy: map<Klass, string>)
    | Unlock(call: Call, end: End)
    | ValidateCall(name: string)
    | ValidateWait(name: string)
    | ValidateHold(name: string)
    | ValidateReturn(name: string)

  datatype Locks = Locks(gvl: Option<Tid>, mutex: Option<Tid>, writer: Option<Tid>, readers: set<Tid>)

  /** @types, @registered_files with the files themselves, the engine's pool
      and cache, and how many engine.compile calls have succeeded per class. */
  datatype Data = Data(
    types: map<Klass, string>,
    registered: map<string, FileProto>,
    pool: Pool,
    compiled: set<string>,
    compiles: map<Klass, nat>)

  datatype State = State(threads: seq<Pc>, locks: Locks, data: Data)

  /** Native code that keeps the GVL. */
  predicate KeepsGvl(pc: Pc) {
    pc.AddFileWait? || pc.AddFileHold? || pc.AskTypeWait? || pc.AskTypeHold?
  }

  /** Native code that has given the GVL up. */
  predicate WithoutGvl(pc: Pc) {
    pc.CompileWait? || pc.CompileHold? || pc.ValidateWait? || pc.ValidateHold?
  }

  predicate RunsRuby(pc: Pc) {
    !KeepsGvl(pc) && !WithoutGvl(pc)
  }

  predicate HoldsMutex(pc: Pc) {
    || pc.Recheck? || pc.SendFiles? || pc.AddFileWait? || pc.AddFileHold? || pc.AskTypeWait? || pc.AskTypeHold?
    || pc.CompileCall? || pc.CompileWait? || pc.CompileHold? || pc.CompileReturn? || pc.CopyTypes? || pc.Publish? || pc.Unlock?
  }

  predicate HoldsWrite(pc: Pc) {
    pc.AddFileHold? || pc.CompileHold?
  }

  predicate HoldsRead(pc: Pc) {
    pc.AskTypeHold? || pc.ValidateHold?
  }

  predicate WaitsToWrite(pc: Pc) {
    pc.AddFileWait? || pc.CompileWait?
  }

  predicate WaitsToRead(pc: Pc) {
    pc.AskTypeWait? || pc.ValidateWait?
  }

  predicate NoWriterWaits(threads: seq<Pc>) {
    forall u :: 0 <= u < |threads| ==> !WaitsToWrite(threads[u])
  }

  /** When the next step of a thread can be taken. Readers also queue behind
      waiting writers, the strictest the read/write lock may be. */
  predicate Enabled(s: State, t: Tid)
    requires t < |s.threads|
  {
    var pc := s.threads[t];
    if WaitsToWrite(pc) then s.locks.writer == None && s.locks.readers == {}
    else if WaitsToRead(pc) then s.locks.writer == None && NoWriterWaits(s.threads)
    else if HoldsWrite(pc) || HoldsRead(pc) then true
    else !pc.Idle? && s.locks.gvl == Some(t) && (pc.WaitMutex? ==> s.locks.mutex == None)
  }

  /** Where a call goes once its class is registered. */
  function AfterRegistration(call: Call): Pc {
    if call.Validate? then ValidateCall(call.klass.typeName) else Idle
  }

  ghost predicate Compiles(d: Data, name: string) {
    name in d.pool.types && Clean(d.pool.types, name)
  }

  /** Whether the engine takes a file: a known name is a success without
      effect. `accepted` is protobuf's verdict beyond what it must resolve. */
  predicate Takes(d: Data, file: FileProto, accepted: bool) {
    file.name in d.pool.files || (accepted && Buildable(d.pool, file))
  }

  /** The place after the next step. `outcome` settles what the thread cannot:
      whether the pool accepts a file. */
  ghost function NextPc(d: Data, pc: Pc, outcome: bool): Pc {
    match pc
    case Idle => Idle
    case Lookup(call) => if call.klass in d.types then AfterRegistration(call) else WaitMutex(call)
    case WaitMutex(call) => Recheck(call)
    case Recheck(call) => if call.klass in d.types then Unlock(call, Registered) else SendFiles(call, call.klass.files)
    case SendFiles(call, files) =>
      if files == [] then
        if !call.klass.found then Unlock(call, Raised)
        else if call.RegisterAll? then AskTypeWait(call)
        else CompileCall(call)
      else if files[0].name in d.registered then SendFiles(call, files[1..])
      else AddFileWait(call, files[0], files[1..])
    case AddFileWait(call, file, files) => AddFileHold(call, file, files)
    case AddFileHold(call, file, files) =>
      if Takes(d, file, outcome) then SendFiles(call, files) else Unlock(call, Raised)
    case AskTypeWait(call) => AskTypeHold(call)
    case AskTypeHold(call) => if call.klass.typeName in d.pool.types then CompileCall(call) else Unlock(call, Skipped)
    case CompileCall(call) => CompileWait(call)
    case CompileWait(call) => CompileHold(call)
    case CompileHold(call) => CompileReturn(call, Compiles(d, call.klass.typeName))
    case CompileReturn(call, ok) => if ok then CopyTypes(call) else Unlock(call, Raised)
    case CopyTypes(call) => Publish(call, d.types[call.klass := call.klass.typeName])
    case Publish(call, _) => Unlock(call, Registered)
    case Unlock(call, end) => if end.Registered? then AfterRegistration(call) else Idle
    case ValidateCall(name) => ValidateWait(name)
    case ValidateWait(name) => ValidateHold(name)
    case ValidateHold(name) => ValidateReturn(name)
    case ValidateReturn(_) => Idle
  }

  /** The lock that the step takes or releases. */
  function NextLocks(l: Locks, t: Tid, pc: Pc): Locks {
    match pc
    case WaitMutex(_) => l.(mutex := Some(t))
    case AddFileWait(_, _, _) => l.(writer := Some(t))
    case AddFileHold(_, _, _) => l.(writer := None)
    case AskTypeWait(_) => l.(readers := l.readers + {t})
    case AskTypeHold(_) => l.(readers := l.readers - {t})
    case CompileCall(_) => l.(gvl := None)
    case CompileWait(_) => l.(writer := Some(t))
    case CompileHold(_) => l.(writer := None)
    case Unlock(_, _) => l.(mutex := None)
    case ValidateCall(_) => l.(gvl := None)
    case ValidateWait(_) => l.(readers := l.readers + {t})
    case ValidateHold(_) => l.(readers := l.readers - {t})
    case _ => l
  }

  function Count(compiles: map<Klass, nat>, k: Klass): nat {
    if k in compiles then compiles[k] else 0
  }

  /** What the step does to the shared data. */
  ghost function NextData(d: Data, pc: Pc, outcome: bool): Data {
    match pc
    case AddFileHold(_, file, _) =>
      if !Takes(d, file, outcome) then d
      else d.(registered := d.registered[file.name := file],
              pool := if file.name in d.pool.files then d.pool else Built(d.pool, file))
    case CompileHold(call) =>
      if !Compiles(d, call.klass.typeName) then d
      else d.(compiled := d.compiled + {call.klass.typeName},
              compiles := d.compiles[call.klass := Count(d.compiles, call.klass) + 1])
    case Publish(_, copy) => d.(types := copy)
    case ValidateHold(name) => if Compiles(d, name) then d.(compiled := d.compiled + {name}) else d
    case _ => d
  }

  ghost function Next(s: State, t: Tid, outcome: bool): State
    requires t < |s.threads|
  {
    var pc := s.threads[t];
    State(s.threads[t := NextPc(s.data, pc, outcome)], NextLocks(s.locks, t, pc), NextData(s.data, pc, outcome))
  }

  ghost predicate Work(s: State, s': State, t: Tid) {
    t < |s.threads| && Enabled(s, t) && exists outcome :: s' == Next(s, t, outcome)
  }

  /** A thread takes the GVL, or gives it up between two Ruby instructions. */
  predicate Schedule(s: State, s': State, t: Tid) {
    && t < |s.threads| && RunsRuby(s.threads[t])
    && (s.locks.gvl == None || s.locks.gvl == Some(t))
    && s' == s.(locks := s.locks.(gvl := if s.locks.gvl == None then Some(t) else None))
  }

  /** register_all goes to the mutex at once; the others look up first. */
  function Entry(call: Call): Pc {
    if call.RegisterAll? then WaitMutex(call) else Lookup(call)
  }

  predicate Starts(s: State, s': State, t: Tid, call: Call) {
    && t < |s.threads| && s.threads[t].Idle? && s.locks.gvl == Some(t)
    && s' == s.(threads := s.threads[t := Entry(call)])
  }

  ghost predicate ThreadStep(s: State, s': State, t: Tid) {
    Work(s, s', t) || Schedule(s, s', t) || exists call :: Starts(s, s', t, call)
  }

  ghost predicate Step(s: State, s': State) {
    exists t: Tid :: ThreadStep(s, s', t)
  }

  ghost predicate Init(s: State) {
    && (forall t :: 0 <= t < |s.threads| ==> s.threads[t] == Idle)
    && s.locks == Locks(None, None, None, {})
    && s.data == Data(map[], map[], s.data.pool, {}, map[])
    && ValidPool(s.data.pool)
  }

  ghost predicate Run(run: seq<State>) {
    |run| > 0 && forall i :: 0 <= i < |run| - 1 ==> Step(run[i], run[i + 1])
  }

  ghost predicate Reached(s: State) {
    exists run :: Run(run) && Init(run[0]) && run[|run| - 1] == s
  }
}
