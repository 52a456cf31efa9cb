/** Message descriptors, descriptor files and the pool that grows from them. */
module Descriptors {
  import opened Graphs

  /** A field of a message type: `MessageField` when its C++ type is a message. */
  datatype Field = ScalarField | MessageField(typeName: string)

  /** `rulesCompile` is the verdict of the rule compiler on the type's own rules. */
  datatype Descriptor = Descriptor(fields: seq<Field>, rulesCompile: bool)

  type TypeTable = map<string, Descriptor>

  function FieldTypes(d: Descriptor): set<string> {
    set f | f in d.fields && f.MessageField? :: f.typeName
  }

  /** The graph that links each message type to the types of its message fields. */
  function Links(types: TypeTable): Graph {
    map t | t in types :: FieldTypes(types[t])
  }

  /** Every message field names a type of the table. */
  ghost predicate Linked(types: TypeTable) {
    forall t :: t in types ==> FieldTypes(types[t]) <= types.Keys
  }

  ghost predicate Reachable(types: TypeTable, t: string, u: string) {
    Reaches(Links(types), t, u)
  }

  /** The uncached answer: all rules reachable from `t` compile. */
  ghost predicate Clean(types: TypeTable, t: string) {
    forall u :: Reachable(types, t, u) ==> u in types && types[u].rulesCompile
  }

  /** The files a pool starts from (the ones linked into the extension) and
      the ones it has built, with the message types they define. */
  datatype FileProto = FileProto(name: string, dependency: seq<string>, messages: TypeTable)

  datatype Pool = Pool(files: set<string>, types: TypeTable)

  ghost predicate ValidPool(pool: Pool) {
    Linked(pool.types)
  }

  /** What BuildFile must be able to resolve at once: the imports, new names
      for the file's own messages, and the types of their fields. */
  predicate Buildable(pool: Pool, file: FileProto) {
    && (forall d :: d in file.dependency ==> d in pool.files)
    && file.messages.Keys !! pool.types.Keys
    && (forall t :: t in file.messages ==> FieldTypes(file.messages[t]) <= pool.types.Keys + file.messages.Keys)
  }

  function Built(pool: Pool, file: FileProto): Pool {
    Pool(pool.files + {file.name}, pool.types + file.messages)
  }

  /** `after` is `before` with the file and its own descriptors, and no more. */
  ghost predicate Adds(before: Pool, after: Pool, file: FileProto) {
    && after.files == before.files + {file.name}
    && (forall t :: t in after.types <==> t in before.types || t in file.messages)
    && (forall t :: t in file.messages ==> after.types[t] == file.messages[t])
    && (forall t :: t in before.types && t !in file.messages ==> after.types[t] == before.types[t])
  }

  /** A file that names something the pool cannot give: an import outside it,
      a type that is there already, or a field type that is nowhere. */
  ghost predicate Unresolvable(pool: Pool, file: FileProto) {
    || (exists d :: d in file.dependency && d !in pool.files)
    || (exists t :: t in file.messages && t in pool.types)
    || (exists t, u :: t in file.messages && MessageField(u) in file.messages[t].fields && u !in pool.types && u !in file.messages)
  }

  ghost predicate Grown(pool: Pool, later: Pool) {
    && pool.files <= later.files
    && (forall t :: t in pool.types ==> t in later.types && later.types[t] == pool.types[t])
  }

  lemma BuiltIsGrown(pool: Pool, file: FileProto)
    requires ValidPool(pool) && Buildable(pool, file)
    ensures ValidPool(Built(pool, file)) && Grown(pool, Built(pool, file))
    ensures Adds(pool, Built(pool, file), file)
  {
  }

  lemma BuildsExactly(pool: Pool, file: FileProto)
    ensures Buildable(pool, file) <==> !Unresolvable(pool, file)
  {
    if t, u :| t in file.messages && MessageField(u) in file.messages[t].fields && u !in pool.types && u !in file.messages {
      assert u in FieldTypes(file.messages[t]);
    }
  }

  /** Growth leaves the reachable closure of every known type, and with it the
      answer for that type, as it was. */
  lemma GrowthKeepsClosure(pool: Pool, later: Pool, t: string)
    requires ValidPool(pool) && Grown(pool, later) && t in pool.types
    ensures forall u :: Reachable(pool.types, t, u) <==> Reachable(later.types, t, u)
    ensures forall u :: Reachable(pool.types, t, u) ==> u in pool.types
    ensures Clean(pool.types, t) <==> Clean(later.types, t)
  {
    ExtensionKeepsReach(Links(pool.types), Links(later.types), t);
    ClosedHoldsReach(Links(pool.types), pool.types.Keys, t);
  }
}
