/** The C++ engine of pv_shim.cc: the rule walk, the cache in front of it and
    the entry points of the C interface. */
module Engine {
  import opened Graphs
  import opened Descriptors
  import opened Memory

  const PV_OK := 0
  const PV_ERR_COMPILATION := 1
  const PV_ERR_RUNTIME := 2
  const PV_ERR_ARGUMENT := 3
  const PV_ERR_UNEXPECTED := 4

  class FlatHashSet {
    var contents: set<string>

    constructor ()
      ensures contents == {}
    {
      contents := {};
    }

    method Insert(x: string) returns (inserted: bool)
      modifies this
      ensures contents == old(contents) + {x}
      ensures inserted <==> x !in old(contents)
    {
      inserted := x !in contents;
      contents := contents + {x};
    }
  }

  /** protovalidate-cc's factory, known only by its contract: one status per
      type, the type's own, and fields are not revisited once it is cached. */
  class ValidatorFactory {
    var statuses: map<string, bool>

    ghost predicate Valid(types: TypeTable)
      reads this
    {
      forall t :: t in statuses ==> t in types && statuses[t] == types[t].rulesCompile
    }

    constructor ()
      ensures forall types :: Valid(types)
      ensures statuses == map[]
    {
      statuses := map[];
    }

    /** Other threads may have added any types before this thread gets the
        factory's writer lock. */
    method OthersAdd(types: TypeTable)
      requires Valid(types)
      modifies this
      ensures Valid(types) && old(statuses.Keys) <= statuses.Keys
    {
      var others: set<string> := *;
      statuses := statuses + map t | t in others && t in types :: types[t].rulesCompile;
    }

    /** A first Add stores the type's own status and may go on to its fields,
        as far as it likes, reporting what it finds there or not. */
    method Add(types: TypeTable, t: string) returns (ok: bool)
      requires Linked(types) && Valid(types) && t in types
      modifies this
      ensures Valid(types) && old(statuses.Keys) + {t} <= statuses.Keys
      ensures t in old(statuses) ==> ok == types[t].rulesCompile
      ensures ok ==> types[t].rulesCompile
      ensures !ok ==> exists u :: Reachable(types, t, u) && u in types && !types[u].rulesCompile
      decreases types.Keys - statuses.Keys
    {
      ReachesSelf(Links(types), t);
      OthersAdd(types);
      if t in statuses {
        return statuses[t];
      }
      ok := types[t].rulesCompile;
      statuses := statuses[t := ok];
      var fields := types[t].fields;
      for i := 0 to |fields|
        invariant Valid(types) && old(statuses.Keys) + {t} <= statuses.Keys
        invariant ok ==> types[t].rulesCompile
        invariant !ok ==> exists u :: Reachable(types, t, u) && u in types && !types[u].rulesCompile
      {
        if * {
          if fields[i].MessageField? {
            var nested := fields[i].typeName;
            assert nested in FieldTypes(types[t]);
            var fieldOk := Add(types, nested);
            if * {
              if !fieldOk {
                ghost var u :| Reachable(types, nested, u) && u in types && !types[u].rulesCompile;
                ReachesBefore(Links(types), t, nested, u);
                ok := false;
              }
            }
          }
        }
      }
    }
  }

  /** The types a walk has put in `seen` beyond `before`, the ones it had to
      answer for, have good rules and no message field outside `seen`. */
  ghost predicate WalkDone(types: TypeTable, before: set<string>, seen: set<string>) {
    forall u :: u in seen - before ==> u in types && types[u].rulesCompile && FieldTypes(types[u]) <= seen
  }

  ghost predicate FoundBad(types: TypeTable, t: string) {
    exists u :: Reachable(types, t, u) && u in types && !types[u].rulesCompile
  }

  method CompileRules(types: TypeTable, factory: ValidatorFactory, t: string, seen: FlatHashSet) returns (ok: bool)
    requires Linked(types) && factory.Valid(types) && t in types && seen.contents <= types.Keys
    modifies factory, seen
    ensures factory.Valid(types) && old(factory.statuses.Keys) <= factory.statuses.Keys
    ensures old(seen.contents) + {t} <= seen.contents <= types.Keys
    ensures forall u :: u in seen.contents - old(seen.contents) ==> Reachable(types, t, u)
    ensures ok ==> WalkDone(types, old(seen.contents), seen.contents)
    ensures !ok ==> FoundBad(types, t)
    decreases types.Keys - seen.contents
  {
    ghost var before := seen.contents;
    ReachesSelf(Links(types), t);
    var inserted := seen.Insert(t);
    if !inserted {
      return true;
    }
    ok := factory.Add(types, t);
    if !ok {
      return false;
    }
    var fields := types[t].fields;
    for i := 0 to |fields|
      invariant factory.Valid(types) && old(factory.statuses.Keys) <= factory.statuses.Keys
      invariant before + {t} <= seen.contents <= types.Keys
      invariant forall u :: u in seen.contents - before ==> Reachable(types, t, u)
      invariant WalkDone(types, before + {t}, seen.contents)
      invariant forall j :: 0 <= j < i && fields[j].MessageField? ==> fields[j].typeName in seen.contents
    {
      if !fields[i].MessageField? {
        continue;
      }
      var nested := fields[i].typeName;
      assert nested in FieldTypes(types[t]);
      ghost var mid := seen.contents;
      var fieldOk := CompileRules(types, factory, nested, seen);
      forall u | Reachable(types, nested, u) ensures Reachable(types, t, u) {
        ReachesBefore(Links(types), t, nested, u);
      }
      if !fieldOk {
        return false;
      }
      assert seen.contents - (before + {t}) == (seen.contents - mid) + (mid - (before + {t}));
    }
    return true;
  }

  /** A finished walk from an empty `seen` has covered the whole closure. */
  lemma FinishedWalkIsClean(types: TypeTable, t: string, seen: set<string>)
    requires t in seen && WalkDone(types, {}, seen)
    ensures Clean(types, t)
  {
    assert seen - {} == seen;
    ClosedHoldsReach(Links(types), seen, t);
  }

  /** Where a status of the validation library is reported. */
  datatype StatusCode = InvalidArgument | FailedPrecondition | OtherCode

  function ClassifyStatus(status: StatusCode): int {
    match status
    case InvalidArgument => PV_ERR_RUNTIME
    case FailedPrecondition => PV_ERR_COMPILATION
    case OtherCode => PV_ERR_UNEXPECTED
  }

  /** What the library makes of a payload: unparsable, a failed evaluation, or
      the serialized violations (with `serializes` false when writing them fails). */
  datatype Evaluation = Unparsable | Failed(status: StatusCode) | Violations(bytes: seq<int>, serializes: bool)

  /** The status of a validation of a clean type. */
  function EvaluationCode(evaluation: Evaluation, memory: bool): int {
    match evaluation
    case Unparsable => PV_ERR_ARGUMENT
    case Failed(InvalidArgument) => PV_ERR_RUNTIME
    case Failed(FailedPrecondition) => PV_ERR_COMPILATION
    case Failed(OtherCode) => PV_ERR_UNEXPECTED
    case Violations(_, serializes) => if serializes && memory then PV_OK else PV_ERR_RUNTIME
  }

  /** What a validation leaves in the caller's hands: on success the one block
      with the violations, otherwise at most the error string. */
  ghost predicate Delivered(heap: CHeap, before: map<Ptr, Block>, evaluation: Evaluation, code: int, out: Ptr, outLen: nat, error: Ptr)
    reads heap
  {
    if code == PV_OK then
      && error == NULL && out != NULL && heap.Handed(before, out)
      && evaluation.Violations? && outLen == |evaluation.bytes| && heap.blocks[out] == Bytes(evaluation.bytes)
    else
      out == NULL && outLen == 0 && heap.HandedText(before, error)
  }

  class PvEngine {
    var pool: Pool
    const factory: ValidatorFactory
    var compiled: set<string>

    ghost predicate Valid()
      reads this, factory
    {
      && ValidPool(pool)
      && factory.Valid(pool.types)
      && (forall t :: t in compiled ==> t in pool.types && Clean(pool.types, t))
    }

    constructor (generated: Pool)
      requires ValidPool(generated)
      ensures Valid() && pool == generated && compiled == {} && fresh(factory)
    {
      pool := generated;
      compiled := {};
      factory := new ValidatorFactory();
    }

    /** `meanwhile` is what other threads insert between the two critical
        sections: any types, as long as they are clean, which is what this
        method guarantees of its own insertion. */
    method EnsureCompiled(heap: CHeap, t: string, meanwhile: set<string>) returns (code: int, error: Ptr)
      requires Valid() && heap.Valid() && t in pool.types
      requires forall u :: u in meanwhile ==> u in pool.types && Clean(pool.types, u)
      modifies this`compiled, factory, heap
      ensures Valid()
      ensures code == if Clean(pool.types, t) then PV_OK else PV_ERR_COMPILATION
      ensures t in old(compiled) ==> factory.statuses == old(factory.statuses)
      ensures compiled == if t in old(compiled) then old(compiled)
                          else old(compiled) + meanwhile + (if code == PV_OK then {t} else {})
      ensures code == PV_OK ==> error == NULL && heap.failures == old(heap.failures)
      ensures heap.HandedText(old(heap.blocks), error)
    {
      error := NULL;
      if t in compiled {
        return PV_OK, error;
      }
      var seen := new FlatHashSet();
      var ok := CompileRules(pool.types, factory, t, seen);
      compiled := compiled + meanwhile;
      if !ok {
        var text: string := *;
        error := heap.SetError(text);
        return PV_ERR_COMPILATION, error;
      }
      FinishedWalkIsClean(pool.types, t, seen.contents);
      compiled := compiled + {t};
      return PV_OK, error;
    }

    /** `file` is None when the bytes do not parse. `accepted` is protobuf's
        verdict on everything about a file other than what it must resolve. */
    method AddFile(heap: CHeap, file: Option<FileProto>, accepted: bool) returns (code: int, error: Ptr)
      requires Valid() && heap.Valid()
      modifies this`pool, heap
      ensures Valid() && Grown(old(pool), pool)
      ensures code == PV_OK <==> file.Some? && (file.value.name in old(pool).files || (accepted && Buildable(old(pool), file.value)))
      ensures code == PV_OK || code == PV_ERR_ARGUMENT
      ensures code == PV_OK <==> file.Some? && (file.value.name in old(pool).files || (accepted && !Unresolvable(old(pool), file.value)))
      ensures code == PV_OK && file.value.name !in old(pool).files ==> Adds(old(pool), pool, file.value)
      ensures pool == if code == PV_OK && file.value.name !in old(pool).files
                      then Built(old(pool), file.value) else old(pool)
      ensures forall t :: t in old(pool).types ==>
                (Clean(old(pool).types, t) <==> Clean(pool.types, t))
      ensures code == PV_OK ==> error == NULL && heap.failures == old(heap.failures)
      ensures heap.HandedText(old(heap.blocks), error)
    {
      error := NULL;
      if file.None? {
        error := heap.SetError("could not parse FileDescriptorProto");
        return PV_ERR_ARGUMENT, error;
      }
      if file.value.name in pool.files {
        return PV_OK, error;
      }
      BuildsExactly(pool, file.value);
      var built := BuildFile(file.value, accepted);
      if !built {
        error := heap.SetError("could not add " + file.value.name + " to descriptor pool");
        return PV_ERR_ARGUMENT, error;
      }
      return PV_OK, error;
    }

    method BuildFile(file: FileProto, accepted: bool) returns (built: bool)
      requires Valid()
      modifies this`pool
      ensures Valid()
      ensures built <==> accepted && Buildable(old(pool), file)
      ensures built ==> Adds(old(pool), pool, file)
      ensures pool == if built then Built(old(pool), file) else old(pool)
      ensures Grown(old(pool), pool)
      ensures forall t :: t in old(pool).types ==>
                (Clean(old(pool).types, t) <==> Clean(pool.types, t))
    {
      built := accepted && Buildable(pool, file);
      if built {
        ghost var before := pool;
        BuiltIsGrown(pool, file);
        pool := Built(pool, file);
        forall t | t in before.types ensures Clean(before.types, t) <==> Clean(pool.types, t) {
          GrowthKeepsClosure(before, pool, t);
        }
      }
    }

    function HasMessageType(name: string): (known: bool)
      reads this
    {
      name in pool.types
    }

    method FindMessageType(heap: CHeap, name: string) returns (found: bool, error: Ptr)
      requires heap.Valid()
      modifies heap
      ensures found <==> name in pool.types
      ensures found ==> error == NULL && heap.failures == old(heap.failures)
      ensures heap.HandedText(old(heap.blocks), error)
    {
      error := NULL;
      found := name in pool.types;
      if !found {
        error := heap.SetError("unknown message type: " + name);
      }
    }

    method Compile(heap: CHeap, name: string) returns (code: int, error: Ptr)
      requires Valid() && heap.Valid()
      modifies this`compiled, factory, heap
      ensures Valid()
      ensures code == if name !in pool.types then PV_ERR_ARGUMENT
                      else if Clean(pool.types, name) then PV_OK else PV_ERR_COMPILATION
      ensures compiled == old(compiled) + (if code == PV_OK then {name} else {})
      ensures code == PV_OK ==> error == NULL && heap.failures == old(heap.failures)
      ensures heap.HandedText(old(heap.blocks), error)
    {
      var found;
      found, error := FindMessageType(heap, name);
      if !found {
        return PV_ERR_ARGUMENT, error;
      }
      code, error := EnsureCompiled(heap, name, {});
    }

    /** `evaluation` is what parsing and the library's Validate do with the
        payload once rules are compiled. A result that serializes is returned
        unless a malloc of this call failed. */
    method Validate(heap: CHeap, name: string, evaluation: Evaluation) returns (code: int, out: Ptr, outLen: nat, error: Ptr)
      requires Valid() && heap.Valid()
      modifies this`compiled, factory, heap
      ensures Valid()
      ensures code == if name !in pool.types then PV_ERR_ARGUMENT
                      else if !Clean(pool.types, name) then PV_ERR_COMPILATION
                      else EvaluationCode(evaluation, heap.failures == old(heap.failures))
      ensures name in old(compiled) ==> compiled == old(compiled) && factory.statuses == old(factory.statuses)
      ensures compiled == old(compiled) + (if name in pool.types && Clean(pool.types, name) then {name} else {})
      ensures Delivered(heap, old(heap.blocks), evaluation, code, out, outLen, error)
    {
      out, outLen := NULL, 0;
      var found;
      found, error := FindMessageType(heap, name);
      if !found {
        return PV_ERR_ARGUMENT, out, outLen, error;
      }
      code, error := EnsureCompiled(heap, name, {});
      if code != PV_OK {
        return code, out, outLen, error;
      }
      code, out, outLen, error := Evaluate(heap, name, evaluation);
    }

    /** What pv_engine_validate does once the rules are compiled. */
    static method Evaluate(heap: CHeap, name: string, evaluation: Evaluation) returns (code: int, out: Ptr, outLen: nat, error: Ptr)
      requires heap.Valid()
      modifies heap
      ensures code == EvaluationCode(evaluation, heap.failures == old(heap.failures))
      ensures Delivered(heap, old(heap.blocks), evaluation, code, out, outLen, error)
    {
      out, outLen, error := NULL, 0, NULL;
      match evaluation {
        case Unparsable =>
          error := heap.SetError("could not parse payload as " + name);
          return PV_ERR_ARGUMENT, out, outLen, error;
        case Failed(status) =>
          var text: string := *;
          error := heap.SetError(text);
          return ClassifyStatus(status), out, outLen, error;
        case Violations(bytes, serializes) =>
          var buffer := heap.Malloc(Bytes(bytes));
          if buffer == NULL {
            error := heap.SetError("out of memory");
            return PV_ERR_RUNTIME, out, outLen, error;
          }
          if !serializes {
            heap.Free(buffer);
            error := heap.SetError("could not serialize violations");
            return PV_ERR_RUNTIME, out, outLen, error;
          }
          return PV_OK, buffer, |bytes|, NULL;
      }
    }
  }
}
