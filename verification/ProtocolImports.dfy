/** Import order across threads: in every reachable state the registered files
    are closed under imports, and a file is sent after its imports and once. */
module ProtocolImports {
  import opened Descriptors
  import opened Memory
  import opened Protocol
  import opened ProtocolSafety

  function Names(files: seq<FileProto>): set<string> {
    set f | f in files :: f.name
  }

  /** Every import of a file comes before it, as in the order of register_file. */
  ghost predicate ImportsFirst(files: seq<FileProto>) {
    forall i, d :: 0 <= i < |files| && d in files[i].dependency ==> d in Names(files[..i])
  }

  predicate HasCall(pc: Pc) {
    !pc.Idle? && !pc.ValidateCall? && !pc.ValidateWait? && !pc.ValidateHold? && !pc.ValidateReturn?
  }

  /** The classes of all unfinished calls list their files imports first. */
  ghost predicate Listed(s: State) {
    forall t :: 0 <= t < |s.threads| && HasCall(s.threads[t]) ==> ImportsFirst(s.threads[t].call.klass.files)
  }

  /** What is left to send is the end of the list, and the rest is registered. */
  ghost predicate Rest(d: Data, all: seq<FileProto>, rest: seq<FileProto>) {
    && |rest| <= |all| && rest == all[|all| - |rest|..]
    && Names(all[..|all| - |rest|]) <= d.registered.Keys
  }

  ghost predicate Sending(d: Data, pc: Pc) {
    match pc
    case SendFiles(call, files) => Rest(d, call.klass.files, files)
    case AddFileWait(call, file, files) => Rest(d, call.klass.files, [file] + files)
    case AddFileHold(call, file, files) => Rest(d, call.klass.files, [file] + files)
    case _ => true
  }

  /** Registered files have their imports registered, and are in the pool. */
  ghost predicate ClosedUnderImports(d: Data) {
    && (forall f, i :: f in d.registered && i in d.registered[f].dependency ==> i in d.registered)
    && d.registered.Keys <= d.pool.files
  }

  ghost predicate ImportsOk(s: State) {
    ClosedUnderImports(s.data) && forall t :: 0 <= t < |s.threads| ==> Sending(s.data, s.threads[t])
  }

  lemma NamesNext(files: seq<FileProto>, k: nat)
    requires k < |files|
    ensures Names(files[..k + 1]) == Names(files[..k]) + {files[k].name}
  {
    assert files[..k + 1] == files[..k] + [files[k]];
  }

  /** The next file to send has its imports registered. */
  lemma NextHasImports(d: Data, all: seq<FileProto>, file: FileProto, rest: seq<FileProto>)
    requires ImportsFirst(all) && Rest(d, all, [file] + rest)
    ensures forall i :: i in file.dependency ==> i in d.registered
  {
    var k := |all| - |[file] + rest|;
    assert all[k] == ([file] + rest)[0];
  }

  /** Once a file is registered the list is one shorter. */
  lemma RestNext(d: Data, later: Data, all: seq<FileProto>, file: FileProto, rest: seq<FileProto>)
    requires Rest(d, all, [file] + rest) && d.registered.Keys + {file.name} <= later.registered.Keys
    ensures Rest(later, all, rest)
  {
    var k := |all| - |[file] + rest|;
    assert all[k] == ([file] + rest)[0] && rest == ([file] + rest)[1..];
    NamesNext(all, k);
  }

  lemma RestStays(d: Data, later: Data, all: seq<FileProto>, rest: seq<FileProto>)
    requires Rest(d, all, rest) && d.registered.Keys <= later.registered.Keys
    ensures Rest(later, all, rest)
  {
  }

  lemma RestStarts(d: Data, all: seq<FileProto>)
    ensures Rest(d, all, all)
  {
    assert all[..0] == [];
  }

  lemma NextStaysClosed(d: Data, pc: Pc, outcome: bool)
    requires ClosedUnderImports(d) && Sending(d, pc) && (HasCall(pc) ==> ImportsFirst(pc.call.klass.files))
    ensures ClosedUnderImports(NextData(d, pc, outcome))
    ensures d.registered.Keys <= NextData(d, pc, outcome).registered.Keys
  {
    if pc.AddFileHold? {
      NextHasImports(d, pc.call.klass.files, pc.file, pc.files);
    }
  }

  lemma NextSends(d: Data, pc: Pc, outcome: bool)
    requires Sending(d, pc)
    ensures Sending(NextData(d, pc, outcome), NextPc(d, pc, outcome))
  {
    var later := NextData(d, pc, outcome);
    match pc {
      case Recheck(call) => RestStarts(later, call.klass.files);
      case SendFiles(call, files) =>
        if files != [] {
          assert files == [files[0]] + files[1..];
          if files[0].name in d.registered {
            RestNext(d, later, call.klass.files, files[0], files[1..]);
          }
        }
      case AddFileHold(call, file, files) =>
        if Takes(d, file, outcome) {
          RestNext(d, later, call.klass.files, file, files);
        }
      case _ =>
    }
  }

  lemma OthersStillSend(d: Data, later: Data, other: Pc)
    requires Sending(d, other) && d.registered.Keys <= later.registered.Keys
    ensures Sending(later, other)
  {
  }

  lemma StepKeepsImports(s: State, s': State)
    requires ImportsOk(s) && Listed(s) && Step(s, s')
    ensures ImportsOk(s')
  {
    var t: Tid :| ThreadStep(s, s', t);
    if Work(s, s', t) {
      var outcome :| s' == Next(s, t, outcome);
      var pc := s.threads[t];
      NextStaysClosed(s.data, pc, outcome);
      NextSends(s.data, pc, outcome);
      forall u | 0 <= u < |s'.threads| ensures Sending(s'.data, s'.threads[u]) {
        if u != t {
          OthersStillSend(s.data, s'.data, s.threads[u]);
        }
      }
    }
  }

  lemma {:induction false} RunKeepsImports(run: seq<State>, i: nat)
    requires Run(run) && Init(run[0]) && i < |run|
    requires forall j :: 0 <= j < |run| ==> Listed(run[j])
    ensures ImportsOk(run[i])
  {
    if i > 0 {
      RunKeepsImports(run, i - 1);
      RunStep(run, i);
      StepKeepsImports(run[i - 1], run[i]);
    }
  }

  /** Whatever the threads do, @registered_files is closed under imports and
      every file in it is in the engine's pool. */
  lemma RegisteredFilesClosed(run: seq<State>, i: nat)
    requires Run(run) && Init(run[0]) && i < |run|
    requires forall j :: 0 <= j < |run| ==> Listed(run[j])
    ensures ClosedUnderImports(run[i].data)
  {
    RunKeepsImports(run, i);
  }

  /** A thread that sends a file to the engine does so after all its imports
      have been registered, and before the file itself has been. */
  lemma SentAfterImports(run: seq<State>, i: nat, t: Tid)
    requires Run(run) && Init(run[0]) && i < |run|
    requires forall j :: 0 <= j < |run| ==> Listed(run[j])
    requires t < |run[i].threads| && (run[i].threads[t].AddFileWait? || run[i].threads[t].AddFileHold?)
    ensures var pc := run[i].threads[t];
            pc.file.name !in run[i].data.registered && forall d :: d in pc.file.dependency ==> d in run[i].data.registered
  {
    RunKeepsImports(run, i);
    RunKeepsInv(run, i);
    var pc := run[i].threads[t];
    assert Knows(run[i].data, pc) && Sending(run[i].data, pc);
    NextHasImports(run[i].data, pc.call.klass.files, pc.file, pc.files);
  }
}
