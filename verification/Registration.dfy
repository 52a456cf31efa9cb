/** The Ruby Validator (lib/protovalidate/validator.rb), one call at a time:
    import registration in dependency order, class registration, validation.
    How calls interleave is the subject of the Protocol module. */
module Registration {
  import opened Graphs
  import opened Descriptors
  import opened Engine
  import opened Memory
  import opened Native

  type FileTable = map<string, FileProto>

  /** What a caller may pass where a message class is expected. */
  datatype MessageClass = NotMessage(id: nat) | Message(id: nat, fileName: string, typeName: string)

  /** One add_file call and whether the engine took the file. */
  datatype Attempt = Attempt(file: string, added: bool)

  function Imports(files: FileTable): Graph {
    map f | f in files :: set d | d in files[f].dependency
  }

  ghost predicate Added(sent: seq<Attempt>, f: string) {
    exists i :: 0 <= i < |sent| && sent[i] == Attempt(f, true)
  }

  /** Every file was sent after all its imports had been added, and no file
      was sent again once it had been added. */
  ghost predicate InImportOrder(files: FileTable, sent: seq<Attempt>) {
    && (forall i :: 0 <= i < |sent| ==> sent[i].file in files)
    && (forall i, d {:trigger Added(sent[..i], d)} :: 0 <= i < |sent| && d in files[sent[i].file].dependency ==> Added(sent[..i], d))
    && (forall i, j :: 0 <= i < j < |sent| && sent[i].added ==> sent[j].file != sent[i].file)
  }

  lemma SentNext(files: FileTable, sent: seq<Attempt>, next: Attempt)
    requires InImportOrder(files, sent) && next.file in files
    requires forall d :: d in files[next.file].dependency ==> Added(sent, d)
    requires !Added(sent, next.file)
    ensures InImportOrder(files, sent + [next])
    ensures forall f :: Added(sent + [next], f) <==> Added(sent, f) || next == Attempt(f, true)
  {
    var all := sent + [next];
    forall f ensures Added(all, f) <==> Added(sent, f) || next == Attempt(f, true) {
      if Added(sent, f) {
        var i :| 0 <= i < |sent| && sent[i] == Attempt(f, true);
        assert all[i] == Attempt(f, true);
      }
      if next == Attempt(f, true) {
        assert all[|sent|] == next;
      }
    }
    forall i, d | 0 <= i < |all| && d in files[all[i].file].dependency ensures Added(all[..i], d) {
      if i < |sent| {
        assert all[..i] == sent[..i];
      } else {
        assert all[..i] == sent;
      }
    }
    forall i, j | 0 <= i < j < |all| && all[i].added ensures all[j].file != all[i].file {
      if j == |sent| {
        assert sent[i] == Attempt(sent[i].file, true);
      }
    }
  }

  // ---- the engine's pool, as far as the registered files determine it

  ghost predicate Holds(pool: Pool, messages: TypeTable) {
    forall t :: t in messages ==> t in pool.types && pool.types[t] == messages[t]
  }

  ghost predicate Originates(files: FileTable, generated: Pool, registered: set<string>, t: string) {
    t in generated.types || exists f :: f in registered - generated.files && f in files && t in files[f].messages
  }

  /** A registered file is one the generated pool has, or one protobuf accepts
      and the pool was extended with; nothing else is in the pool. */
  ghost predicate PoolTracks(files: FileTable, generated: Pool, accepts: set<string>, registered: set<string>, pool: Pool) {
    && registered <= files.Keys
    && pool.files == generated.files + registered
    && Grown(generated, pool)
    && (forall f :: f in registered - generated.files ==> f in accepts && Holds(pool, files[f].messages))
    && (forall t :: t in pool.types ==> Originates(files, generated, registered, t))
  }

  /** The types that the linked-in files and the registered files define. */
  ghost function KnownTypes(files: FileTable, generated: Pool, registered: set<string>): TypeTable
    requires registered <= files.Keys
  {
    map t | t in generated.types.Keys + (set f, u | f in registered - generated.files && u in files[f].messages :: u) ::
      if t in generated.types then generated.types[t]
      else
        var f :| f in registered - generated.files && t in files[f].messages;
        files[f].messages[t]
  }

  /** The pool's descriptors are the files' own, all of them and no others. */
  lemma PoolHasKnownTypes(files: FileTable, generated: Pool, accepts: set<string>, registered: set<string>, pool: Pool)
    requires PoolTracks(files, generated, accepts, registered, pool)
    ensures pool.types == KnownTypes(files, generated, registered)
  {
    var known := KnownTypes(files, generated, registered);
    forall t | t in known ensures t in pool.types && pool.types[t] == known[t] {
      if t !in generated.types {
        var f :| f in registered - generated.files && t in files[f].messages;
        assert Holds(pool, files[f].messages);
      }
    }
    forall t | t in pool.types ensures t in known {
      if t !in generated.types {
        var f :| f in registered - generated.files && t in files[f].messages;
      }
    }
  }

  ghost predicate HasBadRules(known: TypeTable, t: string) {
    exists u :: Reachable(known, t, u) && u in known && !known[u].rulesCompile
  }

  /** From the files alone: a known type fails to compile exactly when it
      reaches a type that a linked-in or registered file gives bad rules. */
  lemma CompilationDecided(files: FileTable, generated: Pool, accepts: set<string>, registered: set<string>, pool: Pool, t: string)
    requires PoolTracks(files, generated, accepts, registered, pool) && ValidPool(pool) && t in pool.types
    ensures var known := KnownTypes(files, generated, registered);
            !Clean(pool.types, t) <==> HasBadRules(known, t)
  {
    PoolHasKnownTypes(files, generated, accepts, registered, pool);
    ClosedHoldsReach(Links(pool.types), pool.types.Keys, t);
  }

  /** The engine refuses a file: its name is new, and protobuf does not accept
      it or its types cannot be resolved. */
  predicate Refused(files: FileTable, accepts: set<string>, pool: Pool, f: string)
    requires f in files
  {
    f !in pool.files && !(f in accepts && Buildable(pool, files[f]))
  }

  /** Registration of a file cannot get past `f`: an import is not in the
      descriptor pool, or all imports are in the engine and it refuses `f`. */
  ghost predicate Stops(files: FileTable, accepts: set<string>, registered: set<string>, pool: Pool, f: string) {
    && f in files
    && (|| (exists d :: d in files[f].dependency && d !in files)
        || ((forall d :: d in files[f].dependency ==> d in registered) && Refused(files, accepts, pool, f)))
  }

  ghost predicate Blocked(files: FileTable, accepts: set<string>, registered: set<string>, pool: Pool, file: string) {
    exists f :: Reaches(Imports(files), file, f) && Stops(files, accepts, registered, pool, f)
  }

  ghost predicate MissesImport(files: FileTable, file: string) {
    exists f, d :: Reaches(Imports(files), file, f) && d in Succ(Imports(files), f) && d !in files
  }

  /** Why a registration has failed: the last file sent was refused, or an
      import is missing. */
  ghost predicate Explained(files: FileTable, before: nat, sent: seq<Attempt>, file: string) {
    (|sent| > before && !sent[|sent| - 1].added) || MissesImport(files, file)
  }

  lemma ImportsBlock(files: FileTable, accepts: set<string>, registered: set<string>, pool: Pool, file: string, d: string)
    requires d in Succ(Imports(files), file) && Blocked(files, accepts, registered, pool, d)
    ensures Blocked(files, accepts, registered, pool, file)
  {
    var f :| Reaches(Imports(files), d, f) && Stops(files, accepts, registered, pool, f);
    ReachesBefore(Imports(files), file, d, f);
  }

  lemma ImportsExplain(files: FileTable, before: nat, mid: nat, sent: seq<Attempt>, file: string, d: string)
    requires d in Succ(Imports(files), file) && Explained(files, mid, sent, d) && before <= mid
    ensures Explained(files, before, sent, file)
  {
    if g, e :| Reaches(Imports(files), d, g) && e in Succ(Imports(files), g) && e !in files {
      ReachesBefore(Imports(files), file, d, g);
    }
  }

  lemma StopsHere(files: FileTable, accepts: set<string>, registered: set<string>, pool: Pool, file: string)
    requires Stops(files, accepts, registered, pool, file)
    ensures Blocked(files, accepts, registered, pool, file)
  {
    ReachesSelf(Imports(files), file);
  }

  lemma MissingStops(files: FileTable, accepts: set<string>, registered: set<string>, pool: Pool, file: string, d: string)
    requires file in files && d in files[file].dependency && d !in files
    ensures Blocked(files, accepts, registered, pool, file) && MissesImport(files, file)
  {
    assert d in Succ(Imports(files), file);
    ReachesSelf(Imports(files), file);
    StopsHere(files, accepts, registered, pool, file);
  }

  ghost predicate NewlyReached(files: FileTable, file: string, before: set<string>, now: set<string>) {
    forall f :: f in now - before ==> Reaches(Imports(files), file, f)
  }

  lemma ReachedThrough(files: FileTable, file: string, d: string, before: set<string>, mid: set<string>, now: set<string>)
    requires d in Succ(Imports(files), file)
    requires NewlyReached(files, file, before, mid) && NewlyReached(files, d, mid, now)
    ensures NewlyReached(files, file, before, now)
  {
    forall f | f in now - before ensures Reaches(Imports(files), file, f) {
      if f in mid {
        assert f in mid - before;
      } else {
        ReachesBefore(Imports(files), file, d, f);
      }
    }
  }

  /** An import of the last file in a chain of importers: it is new to the
      chain, and what it reaches the file reaches. */
  lemma ImportStep(files: FileTable, chain: set<string>, file: string, d: string)
    requires Acyclic(Imports(files)) && d in Succ(Imports(files), file)
    requires forall c :: c in chain ==> Reaches(Imports(files), c, file)
    ensures forall c :: c in chain + {file} ==> Reaches(Imports(files), c, d) && c != d
    ensures !Reaches(Imports(files), d, file)
  {
    var g := Imports(files);
    ReachesSelf(g, file);
    ReachesSelf(g, d);
    forall c | c in chain + {file} ensures Reaches(g, c, d) && c != d {
      ReachesAfter(g, c, file, d);
    }
  }

  /** A registered file has nothing to stop it. */
  lemma RegisteredIsNotBlocked(files: FileTable, accepts: set<string>, registered: set<string>, pool: Pool, file: string)
    requires Closed(Imports(files), registered) && registered <= files.Keys * pool.files && file in registered
    ensures !Blocked(files, accepts, registered, pool, file)
  {
    ClosedHoldsReach(Imports(files), registered, file);
    forall f | f in registered ensures !Stops(files, accepts, registered, pool, f) {
      assert forall d :: d in files[f].dependency ==> d in Succ(Imports(files), f);
    }
  }

  // ---- when registration succeeds, from the files alone

  /** The types a file gives its importers. */
  function Provided(files: FileTable, generated: Pool, f: string): set<string> {
    if f in generated.files then generated.types.Keys else if f in files then files[f].messages.Keys else {}
  }

  function ProvidedBy(files: FileTable, generated: Pool, imports: seq<string>): set<string> {
    set d, u | d in imports && u in Provided(files, generated, d) :: u
  }

  /** A file of the descriptor pool fits the engine's generated pool: its types
      are new and its own, and its fields use its own types or its imports'. */
  ghost predicate Fits(files: FileTable, generated: Pool, f: string)
    requires f in files
  {
    && files[f].messages.Keys !! generated.types.Keys
    && (forall g :: g in files && g !in generated.files && g != f ==> files[f].messages.Keys !! files[g].messages.Keys)
    && (forall t :: t in files[f].messages ==>
          FieldTypes(files[f].messages[t]) <= files[f].messages.Keys + ProvidedBy(files, generated, files[f].dependency))
  }

  ghost predicate Coherent(files: FileTable, generated: Pool) {
    forall f :: f in files && f !in generated.files ==> Fits(files, generated, f)
  }

  /** Every file of the import closure is there, and either linked in or accepted. */
  ghost predicate Registrable(files: FileTable, generated: Pool, accepts: set<string>, file: string) {
    forall f :: Reaches(Imports(files), file, f) ==> f in files && (f in generated.files || f in accepts)
  }

  lemma ImportsProvide(files: FileTable, generated: Pool, accepts: set<string>, registered: set<string>, pool: Pool, imports: seq<string>)
    requires PoolTracks(files, generated, accepts, registered, pool)
    requires forall d :: d in imports ==> d in registered
    ensures ProvidedBy(files, generated, imports) <= pool.types.Keys
  {
    forall d | d in imports ensures Provided(files, generated, d) <= pool.types.Keys {
    }
  }

  /** The pool has none of the types of a fitting file that is not in it. */
  lemma FittingFileIsNew(files: FileTable, generated: Pool, accepts: set<string>, registered: set<string>, pool: Pool, f: string)
    requires PoolTracks(files, generated, accepts, registered, pool)
    requires f in files && f !in pool.files && Fits(files, generated, f)
    ensures files[f].messages.Keys !! pool.types.Keys
  {
    forall t | t in pool.types ensures t !in files[f].messages {
      if t !in generated.types {
        var g :| g in registered - generated.files && t in files[g].messages;
      }
    }
  }

  lemma FittingFileBuilds(files: FileTable, generated: Pool, accepts: set<string>, registered: set<string>, pool: Pool, f: string)
    requires PoolTracks(files, generated, accepts, registered, pool)
    requires f in files && f !in pool.files && Fits(files, generated, f)
    requires forall d :: d in files[f].dependency ==> d in registered
    ensures Buildable(pool, files[f])
  {
    FittingFileIsNew(files, generated, accepts, registered, pool, f);
    ImportsProvide(files, generated, accepts, registered, pool, files[f].dependency);
    BuildsFrom(pool, files[f], ProvidedBy(files, generated, files[f].dependency));
  }

  lemma BuildsFrom(pool: Pool, file: FileProto, provided: set<string>)
    requires provided <= pool.types.Keys && file.messages.Keys !! pool.types.Keys
    requires forall d :: d in file.dependency ==> d in pool.files
    requires forall t :: t in file.messages ==> FieldTypes(file.messages[t]) <= file.messages.Keys + provided
    ensures Buildable(pool, file)
  {
  }

  /** Over a coherent descriptor pool, whether a file registers depends on the
      files alone: not on what was registered before, or in which order. */
  lemma RegistrationDecided(files: FileTable, generated: Pool, accepts: set<string>, registered: set<string>, pool: Pool, file: string)
    requires PoolTracks(files, generated, accepts, registered, pool) && Closed(Imports(files), registered)
    requires Coherent(files, generated) && file in files
    requires file in registered || Blocked(files, accepts, registered, pool, file)
    ensures file in registered <==> Registrable(files, generated, accepts, file)
  {
    if file in registered {
      ClosedHoldsReach(Imports(files), registered, file);
    } else {
      var f :| Reaches(Imports(files), file, f) && Stops(files, accepts, registered, pool, f);
      if d :| d in files[f].dependency && d !in files {
        ReachesAfter(Imports(files), file, f, d);
      } else if f !in generated.files && f in accepts {
        FittingFileBuilds(files, generated, accepts, registered, pool, f);
      }
    }
  }

  lemma OriginsKept(files: FileTable, generated: Pool, accepts: set<string>, registered: set<string>, pool: Pool, f: string, later: Pool)
    requires PoolTracks(files, generated, accepts, registered, pool)
    requires f in files && files[f].name == f
    requires later == if f in pool.files then pool else Built(pool, files[f])
    ensures forall t :: t in later.types ==> Originates(files, generated, registered + {f}, t)
  {
    forall t | t in later.types ensures Originates(files, generated, registered + {f}, t) {
      if t in pool.types && t !in generated.types {
        var g :| g in registered - generated.files && t in files[g].messages;
        assert g in registered + {f} - generated.files;
      } else if t !in pool.types {
        assert f in registered + {f} - generated.files && t in files[f].messages;
      }
    }
  }

  lemma HoldsLater(pool: Pool, later: Pool, messages: TypeTable)
    requires Holds(pool, messages) && Grown(pool, later)
    ensures Holds(later, messages)
  {
  }

  /** Sending a file keeps the pool's account of itself. */
  lemma SendKeepsTrack(files: FileTable, generated: Pool, accepts: set<string>, registered: set<string>, pool: Pool, f: string, later: Pool)
    requires PoolTracks(files, generated, accepts, registered, pool) && ValidPool(pool)
    requires f in files && files[f].name == f && f !in registered && !Refused(files, accepts, pool, f)
    requires later == if f in pool.files then pool else Built(pool, files[f])
    ensures PoolTracks(files, generated, accepts, registered + {f}, later)
  {
    var now := registered + {f};
    OriginsKept(files, generated, accepts, registered, pool, f, later);
    if f !in pool.files {
      BuiltIsGrown(pool, files[f]);
    }
    forall g | g in now - generated.files ensures g in accepts && Holds(later, files[g].messages) {
      if g != f {
        HoldsLater(pool, later, files[g].messages);
      }
    }
  }

  /** A message class's file is in the descriptor pool. */
  predicate FileKnown(files: FileTable, klass: MessageClass) {
    klass.Message? ==> klass.fileName in files
  }

  /** A class of the descriptor pool: its file, and only its file, defines its type. */
  predicate OfPool(files: FileTable, klass: MessageClass) {
    && klass.Message? && klass.fileName in files && klass.typeName in files[klass.fileName].messages
    && forall f :: f in files && klass.typeName in files[f].messages ==> f == klass.fileName
  }

  /** The linked-in copy of the class's file lacks its type. */
  predicate Lacking(generated: Pool, klass: MessageClass) {
    klass.Message? && klass.fileName in generated.files && klass.typeName !in generated.types
  }

  function Members(classes: seq<MessageClass>): set<MessageClass> {
    set k | k in classes
  }

  lemma MembersNext(classes: seq<MessageClass>, i: nat)
    requires i < |classes|
    ensures Members(classes[..i + 1]) == Members(classes[..i]) + {classes[i]} <= Members(classes)
  {
    assert classes[..i + 1] == classes[..i] + [classes[i]];
  }

  class Validator {
    const files: FileTable          // the descriptor pool's files
    const generated: Pool           // what is linked into the extension
    const accepts: set<string>      // the files protobuf accepts, beyond what it must resolve
    const engine: PvEngine
    const heap: CHeap
    var registeredFiles: set<string>
    var types: map<MessageClass, string>
    ghost var sent: seq<Attempt>

    ghost predicate ValidFiles()
      reads this, engine, engine.factory, heap
    {
      && engine.Valid() && heap.Valid()
      && (forall f :: f in files ==> files[f].name == f)
      && Acyclic(Imports(files))
      && PoolTracks(files, generated, accepts, registeredFiles, engine.pool)
      && Closed(Imports(files), registeredFiles)
      && InImportOrder(files, sent)
      && (forall f :: f in registeredFiles <==> Added(sent, f))
    }

    ghost predicate Valid()
      reads this, engine, engine.factory, heap
    {
      && ValidFiles()
      && (forall k :: k in types ==>
            k.Message? && types[k] == k.typeName && k.fileName in registeredFiles && k.typeName in engine.compiled)
    }

    constructor (files: FileTable, generated: Pool, accepts: set<string>)
      requires forall f :: f in files ==> files[f].name == f
      requires Acyclic(Imports(files)) && ValidPool(generated)
      ensures Valid() && this.files == files && this.generated == generated && this.accepts == accepts
      ensures types == map[] && registeredFiles == {}
    {
      this.files, this.generated, this.accepts := files, generated, accepts;
      engine := new PvEngine(generated);
      heap := new CHeap();
      registeredFiles := {};
      types := map[];
      sent := [];
    }

    ghost predicate IsBlocked(file: string)
      reads this`registeredFiles, engine`pool
    {
      Blocked(files, accepts, registeredFiles, engine.pool, file)
    }

    /** The class is usable: its file is registered and its rules compile. */
    ghost predicate Usable(klass: MessageClass)
      reads this`registeredFiles, engine`pool
    {
      && klass.Message? && klass.fileName in registeredFiles
      && klass.typeName in engine.pool.types && Clean(engine.pool.types, klass.typeName)
    }

    /** The error for a class that is not usable. */
    ghost function ErrorFor(klass: MessageClass): RubyClass
      reads this`registeredFiles, engine`pool
    {
      if klass.NotMessage? then TypeError
      else if klass.fileName !in registeredFiles || klass.typeName !in engine.pool.types then ArgumentError
      else CompilationError
    }

    /** Which classes are usable, and which fail to compile, from the files. */
    lemma UsableFromFiles(klass: MessageClass)
      requires ValidFiles() && klass.Message? && klass.fileName in registeredFiles
      ensures var known := KnownTypes(files, generated, registeredFiles);
              && (Usable(klass) <==> klass.typeName in known && !HasBadRules(known, klass.typeName))
              && (ErrorFor(klass) == CompilationError <==> klass.typeName in known)
    {
      PoolHasKnownTypes(files, generated, accepts, registeredFiles, engine.pool);
      if klass.typeName in engine.pool.types {
        CompilationDecided(files, generated, accepts, registeredFiles, engine.pool, klass.typeName);
      }
    }

    /** An attempt to register a file has settled: it is registered, or something stops it. */
    ghost predicate Settled(klass: MessageClass)
      reads this`registeredFiles, engine`pool
    {
      klass.Message? ==> (klass.fileName in registeredFiles <==> !IsBlocked(klass.fileName))
    }

    /** `chain` is the importers whose registration is still under way. */
    method RegisterFile(file: string, ghost chain: set<string>) returns (r: Result<(), RubyError>)
      requires ValidFiles() && file in files
      requires file !in chain && chain <= files.Keys
      requires forall c :: c in chain ==> Reaches(Imports(files), c, file)
      modifies this`registeredFiles, this`sent, engine`pool, heap
      ensures ValidFiles()
      ensures Grown(old(engine.pool), engine.pool) && heap.blocks == old(heap.blocks)
      ensures old(sent) <= sent && old(registeredFiles) <= registeredFiles
      ensures NewlyReached(files, file, old(registeredFiles), registeredFiles)
      ensures r.Ok? <==> file in registeredFiles
      ensures r.Ok? <==> !IsBlocked(file)
      ensures r.Ok? ==> heap.failures == old(heap.failures)
      ensures r.Ok? ==> forall f :: Reaches(Imports(files), file, f) ==> f in registeredFiles
      ensures r.Err? ==> r.error.class_ == ArgumentError
      ensures r.Err? ==> Explained(files, |old(sent)|, sent, file)
      decreases files.Keys - chain, 2
    {
      ReachesSelf(Imports(files), file);
      if file in registeredFiles {
        ClosedHoldsReach(Imports(files), registeredFiles, file);
        RegisteredIsNotBlocked(files, accepts, registeredFiles, engine.pool, file);
        return Ok(());
      }
      var proto := files[file];
      r := RegisterImports(proto, chain);
      if r.Err? {
        return r;
      }
      r := SendFile(proto);
      if r.Err? {
        StopsHere(files, accepts, registeredFiles, engine.pool, file);
        return r;
      }
      ClosedHoldsReach(Imports(files), registeredFiles, file);
      RegisteredIsNotBlocked(files, accepts, registeredFiles, engine.pool, file);
    }

    /** The loop of register_file. */
    method RegisterImports(proto: FileProto, ghost chain: set<string>) returns (r: Result<(), RubyError>)
      requires ValidFiles() && proto.name in files && files[proto.name] == proto && proto.name !in registeredFiles
      requires proto.name !in chain && chain <= files.Keys
      requires forall c :: c in chain ==> Reaches(Imports(files), c, proto.name)
      modifies this`registeredFiles, this`sent, engine`pool, heap
      ensures ValidFiles() && proto.name !in registeredFiles
      ensures Grown(old(engine.pool), engine.pool) && heap.blocks == old(heap.blocks)
      ensures old(sent) <= sent && old(registeredFiles) <= registeredFiles
      ensures NewlyReached(files, proto.name, old(registeredFiles), registeredFiles)
      ensures r.Ok? ==> heap.failures == old(heap.failures)
      ensures r.Ok? ==> forall d :: d in proto.dependency ==> d in registeredFiles
      ensures r.Err? ==> IsBlocked(proto.name) && r.error.class_ == ArgumentError
      ensures r.Err? ==> Explained(files, |old(sent)|, sent, proto.name)
      decreases files.Keys - chain, 1
    {
      var file := proto.name;
      for i := 0 to |proto.dependency|
        invariant ValidFiles() && file !in registeredFiles
        invariant Grown(old(engine.pool), engine.pool) && heap.blocks == old(heap.blocks) && heap.failures == old(heap.failures)
        invariant old(sent) <= sent && old(registeredFiles) <= registeredFiles
        invariant NewlyReached(files, file, old(registeredFiles), registeredFiles)
        invariant forall j :: 0 <= j < i ==> proto.dependency[j] in registeredFiles
      {
        var name := proto.dependency[i];
        r := RegisterImport(file, name, chain);
        if r.Err? {
          return r;
        }
      }
      return Ok(());
    }

    method RegisterImport(file: string, name: string, ghost chain: set<string>) returns (r: Result<(), RubyError>)
      requires ValidFiles() && file in files && file !in registeredFiles && name in Succ(Imports(files), file)
      requires file !in chain && chain <= files.Keys
      requires forall c :: c in chain ==> Reaches(Imports(files), c, file)
      modifies this`registeredFiles, this`sent, engine`pool, heap
      ensures ValidFiles() && file !in registeredFiles
      ensures Grown(old(engine.pool), engine.pool) && heap.blocks == old(heap.blocks)
      ensures old(sent) <= sent && old(registeredFiles) <= registeredFiles
      ensures NewlyReached(files, file, old(registeredFiles), registeredFiles)
      ensures r.Ok? ==> heap.failures == old(heap.failures) && name in registeredFiles
      ensures r.Err? ==> IsBlocked(file) && r.error.class_ == ArgumentError
      ensures r.Err? ==> Explained(files, |old(sent)|, sent, file)
      decreases files.Keys - chain, 0
    {
      if name !in files {
        MissingStops(files, accepts, registeredFiles, engine.pool, file, name);
        return Err(RubyError(ArgumentError, file + " imports " + name + ", which is not in the descriptor pool"));
      }
      ImportStep(files, chain, file, name);
      r := RegisterFile(name, chain + {file});
      ReachedThrough(files, file, name, old(registeredFiles), old(registeredFiles), registeredFiles);
      if r.Err? {
        ImportsBlock(files, accepts, registeredFiles, engine.pool, file, name);
        ImportsExplain(files, |old(sent)|, |old(sent)|, sent, file, name);
      }
    }

    /** The end of register_file: all imports are in the engine. */
    method SendFile(proto: FileProto) returns (r: Result<(), RubyError>)
      requires ValidFiles() && proto.name in files && files[proto.name] == proto
      requires proto.name !in registeredFiles
      requires forall d :: d in proto.dependency ==> d in registeredFiles
      modifies this`registeredFiles, this`sent, engine`pool, heap
      ensures ValidFiles()
      ensures Grown(old(engine.pool), engine.pool) && heap.blocks == old(heap.blocks)
      ensures sent == old(sent) + [Attempt(proto.name, r.Ok?)]
      ensures r.Ok? <==> !Refused(files, accepts, old(engine.pool), proto.name)
      ensures r.Err? ==> engine.pool == old(engine.pool)
      ensures r.Ok? ==> heap.failures == old(heap.failures)
      ensures registeredFiles == old(registeredFiles) + (if r.Ok? then {proto.name} else {})
      ensures r.Err? ==> r.error.class_ == ArgumentError
    {
      ghost var before := engine.pool;
      r := AddFile(engine, heap, Some(proto), proto.name in accepts);
      if r.Ok? {
        SendKeepsTrack(files, generated, accepts, registeredFiles, before, proto.name, engine.pool);
      }
      SentNext(files, sent, Attempt(proto.name, r.Ok?));
      sent := sent + [Attempt(proto.name, r.Ok?)];
      if r.Ok? {
        registeredFiles := registeredFiles + {proto.name};
      }
    }

    /** The critical section of register_class. None stands for a class that
        was skipped because the engine does not know its type. */
    method RegisterClass(klass: MessageClass, skipUnknown: bool) returns (r: Result<Option<string>, RubyError>)
      requires Valid() && FileKnown(files, klass)
      modifies this, engine`pool, engine`compiled, engine.factory, heap
      ensures Valid() && heap.blocks == old(heap.blocks)
      ensures Grown(old(engine.pool), engine.pool) && old(registeredFiles) <= registeredFiles
      ensures klass.NotMessage? <==> r.Err? && r.error.class_ == TypeError
      ensures klass in old(types) ==> r == Ok(Some(old(types)[klass])) && unchanged(this) && unchanged(engine) && unchanged(engine.factory)
      ensures types == if r.Ok? && r.value.Some? then old(types)[klass := r.value.value] else old(types)
      ensures r.Ok? && r.value.Some? ==> klass.Message? && r.value.value == klass.typeName && klass.typeName in engine.compiled
      ensures r.Ok? && r.value.Some? <==> Usable(klass)
      ensures r.Ok? && r.value.None? <==>
                skipUnknown && klass.Message? && klass.fileName in registeredFiles && klass.typeName !in engine.pool.types
      ensures r.Err? ==> r.error.class_ == ErrorFor(klass)
      ensures r.Ok? ==> heap.failures == old(heap.failures)
      ensures Settled(klass)
    {
      if klass.NotMessage? {
        return Err(RubyError(TypeError, "expected a Google::Protobuf message class"));
      }
      if klass in types {
        RegisteredIsNotBlocked(files, accepts, registeredFiles, engine.pool, klass.fileName);
        return Ok(Some(types[klass]));
      }
      var files := RegisterFile(klass.fileName, {});
      if files.Err? {
        return Err(files.error);
      }
      var name := klass.typeName;
      if skipUnknown && !engine.HasMessageType(name) {
        return Ok(None);
      }
      var compiled := Compile(engine, heap, name);
      if compiled.Err? {
        return Err(compiled.error);
      }
      types := types[klass := name];
      return Ok(Some(name));
    }

    method TypeNameOf(klass: MessageClass) returns (r: Result<string, RubyError>)
      requires Valid() && FileKnown(files, klass)
      modifies this, engine`pool, engine`compiled, engine.factory, heap
      ensures Valid() && heap.blocks == old(heap.blocks)
      ensures Grown(old(engine.pool), engine.pool) && old(registeredFiles) <= registeredFiles
      ensures klass in old(types) ==> r == Ok(old(types)[klass]) && unchanged(this) && unchanged(engine) && unchanged(engine.factory)
      ensures types == if r.Ok? then old(types)[klass := r.value] else old(types)
      ensures r.Ok? ==> r.value == klass.typeName && klass.typeName in engine.compiled
      ensures r.Ok? <==> Usable(klass)
      ensures r.Err? ==> r.error.class_ == ErrorFor(klass)
      ensures r.Ok? ==> heap.failures == old(heap.failures)
      ensures Settled(klass)
    {
      if klass in types {
        RegisteredIsNotBlocked(files, accepts, registeredFiles, engine.pool, klass.fileName);
        return Ok(types[klass]);
      }
      var registered := RegisterClass(klass, false);
      if registered.Err? {
        return Err(registered.error);
      }
      return Ok(registered.value.value);
    }

    /** None when the message is valid, or the serialized violations. */
    method CollectViolations(klass: MessageClass, evaluation: Evaluation) returns (r: Result<Option<seq<int>>, RubyError>)
      requires Valid() && FileKnown(files, klass)
      modifies this, engine`pool, engine`compiled, engine.factory, heap
      ensures Valid() && heap.blocks == old(heap.blocks)
      ensures Grown(old(engine.pool), engine.pool) && old(registeredFiles) <= registeredFiles
      ensures klass in old(types) ==> unchanged(this) && unchanged(engine) && engine.factory.statuses == old(engine.factory.statuses)
      ensures types == if Usable(klass) then old(types)[klass := klass.typeName] else old(types)
      ensures r.Ok? <==> Usable(klass) && evaluation.Violations? && evaluation.serializes && heap.failures == old(heap.failures)
      ensures r.Ok? ==> r.value == if evaluation.bytes == [] then None else Some(evaluation.bytes)
      ensures r.Err? && !Usable(klass) ==> r.error.class_ == ErrorFor(klass)
      ensures r.Err? && Usable(klass) ==> r.error.class_ == EvaluationErrorClass(evaluation)
      ensures Settled(klass)
    {
      var name := TypeNameOf(klass);
      if name.Err? {
        return Err(name.error);
      }
      r := ValidateAs(name.value, evaluation);
    }

    /** The engine's part of collect_violations. */
    method ValidateAs(name: string, evaluation: Evaluation) returns (r: Result<Option<seq<int>>, RubyError>)
      requires Valid() && name in engine.compiled
      modifies engine`compiled, engine.factory, heap
      ensures Valid() && heap.blocks == old(heap.blocks)
      ensures engine.compiled == old(engine.compiled) && engine.factory.statuses == old(engine.factory.statuses)
      ensures r.Ok? <==> evaluation.Violations? && evaluation.serializes && heap.failures == old(heap.failures)
      ensures r.Ok? ==> r.value == if evaluation.bytes == [] then None else Some(evaluation.bytes)
      ensures r.Err? ==> r.error.class_ == EvaluationErrorClass(evaluation)
    {
      r := Validate(engine, heap, name, evaluation);
    }

    /** One class of register. */
    method RegisterOne(klass: MessageClass) returns (r: Result<(), RubyError>)
      requires Valid() && FileKnown(files, klass)
      modifies this, engine`pool, engine`compiled, engine.factory, heap
      ensures Valid() && heap.blocks == old(heap.blocks)
      ensures types.Keys == old(types.Keys) + (if r.Ok? then {klass} else {})
      ensures r.Ok? <==> klass in types
      ensures r.Err? ==> !Usable(klass) && Settled(klass) && r.error.class_ == ErrorFor(klass)
    {
      var name := TypeNameOf(klass);
      r := if name.Err? then Err(name.error) else Ok(());
    }

    method Register(classes: seq<MessageClass>) returns (r: Result<(), RubyError>)
      requires Valid() && forall i :: 0 <= i < |classes| ==> FileKnown(files, classes[i])
      modifies this, engine`pool, engine`compiled, engine.factory, heap
      ensures Valid() && heap.blocks == old(heap.blocks)
      ensures old(types.Keys) <= types.Keys <= old(types.Keys) + Members(classes)
      ensures r.Ok? <==> Members(classes) <= types.Keys
      ensures r.Err? ==> exists i :: 0 <= i < |classes| && StopsAt(classes, i) && r.error.class_ == ErrorFor(classes[i])
    {
      for i := 0 to |classes|
        invariant Valid() && heap.blocks == old(heap.blocks)
        invariant old(types.Keys) + Members(classes[..i]) <= types.Keys <= old(types.Keys) + Members(classes)
      {
        r := RegisterOne(classes[i]);
        MembersNext(classes, i);
        if r.Err? {
          assert StopsAt(classes, i);
          return r;
        }
      }
      assert classes[..|classes|] == classes;
      return Ok(());
    }

    /** Register stops at the first class it cannot use; the ones before it are registered. */
    ghost predicate StopsAt(classes: seq<MessageClass>, i: nat)
      requires i < |classes|
      reads this`registeredFiles, this`types, engine`pool
    {
      && Members(classes[..i]) <= types.Keys && classes[i] !in types
      && !Usable(classes[i]) && Settled(classes[i])
    }

    /** The engine knows the type of a registered class of this pool, unless
        the linked-in copy of its file lacks it. */
    lemma UnknownIsLacking(klass: MessageClass)
      requires ValidFiles() && OfPool(files, klass) && klass.fileName in registeredFiles
      ensures klass.typeName !in engine.pool.types <==> Lacking(generated, klass)
    {
      if klass.typeName in engine.pool.types && klass.typeName !in generated.types {
        var f :| f in registeredFiles - generated.files && klass.typeName in files[f].messages;
      }
    }

    /** The class is settled for good: registered, or left out because the
        engine cannot know its type. */
    predicate Handled(klass: MessageClass)
      reads this`registeredFiles, this`types
    {
      klass.Message? && klass.fileName in registeredFiles && (Lacking(generated, klass) || klass in types)
    }

    /** One class of register_all. */
    method RegisterLoaded(klass: MessageClass) returns (r: Result<(), RubyError>)
      requires Valid() && OfPool(files, klass)
      modifies this, engine`pool, engine`compiled, engine.factory, heap
      ensures Valid() && heap.blocks == old(heap.blocks)
      ensures old(registeredFiles) <= registeredFiles
      ensures types.Keys == old(types.Keys) + (if Usable(klass) then {klass} else {})
      ensures r.Ok? <==> Handled(klass)
      ensures r.Ok? ==> (klass in types <==> !Lacking(generated, klass))
      ensures r.Err? ==> !Usable(klass) && Settled(klass) && r.error.class_ == ErrorFor(klass)
    {
      var registered := RegisterClass(klass, true);
      if klass.fileName in registeredFiles {
        UnknownIsLacking(klass);
      }
      r := if registered.Err? then Err(registered.error) else Ok(());
    }

    /** `loaded` is the classes of this pool. A class is left out only when the
        engine does not know its type, and never makes the call fail. */
    method RegisterAll(loaded: seq<MessageClass>) returns (r: Result<(), RubyError>)
      requires Valid() && forall i :: 0 <= i < |loaded| ==> OfPool(files, loaded[i])
      modifies this, engine`pool, engine`compiled, engine.factory, heap
      ensures Valid() && heap.blocks == old(heap.blocks)
      ensures old(types.Keys) <= types.Keys <= old(types.Keys) + Members(loaded)
      ensures r.Ok? <==> forall i :: 0 <= i < |loaded| ==> Handled(loaded[i])
      ensures r.Err? ==> exists i :: 0 <= i < |loaded| && StopsAll(loaded, i) && r.error.class_ == ErrorFor(loaded[i])
    {
      ghost var all := Members(loaded);
      for i := 0 to |loaded|
        invariant Valid() && heap.blocks == old(heap.blocks)
        invariant old(types.Keys) <= types.Keys <= old(types.Keys) + all
        invariant forall j :: 0 <= j < i ==> Handled(loaded[j])
      {
        r := RegisterLoaded(loaded[i]);
        if r.Err? {
          assert StopsAll(loaded, i);
          return r;
        }
      }
      return Ok(());
    }

    ghost predicate StopsAll(loaded: seq<MessageClass>, i: nat)
      requires i < |loaded|
      reads this`registeredFiles, this`types, engine`pool
    {
      !Usable(loaded[i]) && Settled(loaded[i]) && forall j :: 0 <= j < i ==> Handled(loaded[j])
    }
  }
}
