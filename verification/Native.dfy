/** The Rust side of the C interface (ext/protovalidate/sys/src/lib.rs) and the
    Ruby binding on top of it: who frees what, and which Ruby error a caller sees. */
module Native {
  import opened Decimals
  import opened Descriptors
  import opened Engine
  import opened Memory

  datatype Result<+T, +E> = Ok(value: T) | Err(error: E)

  datatype PvError =
    | Compilation(message: string)
    | Evaluation(message: string)
    | Argument(message: string)
    | Unexpected(message: string)
    | Unknown(code: int, message: string)

  datatype RubyClass = CompilationError | EvaluationError | ArgumentError | TypeError | BaseError

  datatype RubyError = RubyError(class_: RubyClass, message: string)

  /** A buffer owned by the shim until it is dropped. */
  datatype PvBuffer = PvBuffer(ptr: Ptr, len: nat)

  /** What CStr::from_ptr reads: the bytes before the first NUL. */
  function CString(s: string): string {
    if s == "" || s[0] == '\0' then "" else [s[0]] + CString(s[1..])
  }

  /** It is the text up to the first NUL, or all of it when there is none. */
  lemma {:induction false} CStringEndsAtNul(s: string)
    ensures CString(s) <= s && '\0' !in CString(s)
    ensures CString(s) == s || s[|CString(s)|] == '\0'
  {
    if s != "" && s[0] != '\0' {
      CStringEndsAtNul(s[1..]);
      assert s == [s[0]] + s[1..];
    }
  }

  /** The message that an error pointer stands for. */
  function ErrorText(blocks: map<Ptr, Block>, error: Ptr): string
    requires error != NULL ==> error in blocks && blocks[error].Text?
  {
    if error == NULL then "unknown error" else CString(blocks[error].text)
  }

  method TakeError(heap: CHeap, error: Ptr) returns (message: string)
    requires heap.Valid()
    requires error != NULL ==> error in heap.blocks && heap.blocks[error].Text?
    modifies heap
    ensures heap.Valid() && heap.blocks == old(heap.blocks) - {error} && heap.failures == old(heap.failures)
    ensures message == ErrorText(old(heap.blocks), error)
  {
    if error == NULL {
      assert NULL !in heap.blocks;
      return "unknown error";
    }
    message := CString(heap.blocks[error].text);
    heap.Free(error);
  }

  function Classified(code: int, message: string): PvError {
    if code == PV_ERR_COMPILATION then Compilation(message)
    else if code == PV_ERR_RUNTIME then Evaluation(message)
    else if code == PV_ERR_ARGUMENT then Argument(message)
    else if code == PV_ERR_UNEXPECTED then Unexpected(message)
    else Unknown(code, message)
  }

  method StatusError(heap: CHeap, code: int, error: Ptr) returns (e: PvError)
    requires heap.Valid()
    requires error != NULL ==> error in heap.blocks && heap.blocks[error].Text?
    modifies heap
    ensures heap.Valid() && heap.blocks == old(heap.blocks) - {error} && heap.failures == old(heap.failures)
    ensures e == Classified(code, ErrorText(old(heap.blocks), error))
  {
    var message := TakeError(heap, error);
    e := Classified(code, message);
  }

  method SysAddFile(engine: PvEngine, heap: CHeap, file: Option<FileProto>, accepted: bool) returns (r: Result<(), PvError>)
    requires engine.Valid() && heap.Valid()
    modifies engine`pool, heap
    ensures engine.Valid() && heap.Valid() && heap.blocks == old(heap.blocks)
    ensures Grown(old(engine.pool), engine.pool)
    ensures r.Ok? ==> heap.failures == old(heap.failures)
    ensures r.Ok? <==> file.Some? && (file.value.name in old(engine.pool).files || (accepted && Buildable(old(engine.pool), file.value)))
    ensures r.Err? ==> r.error.Argument?
    ensures r.Ok? <==> file.Some? && (file.value.name in old(engine.pool).files
                                      || (accepted && !Unresolvable(old(engine.pool), file.value)))
    ensures r.Ok? && file.value.name !in old(engine.pool).files ==> Adds(old(engine.pool), engine.pool, file.value)
    ensures engine.pool == if r.Ok? && file.value.name !in old(engine.pool).files
                           then Built(old(engine.pool), file.value) else old(engine.pool)
  {
    var code, error := engine.AddFile(heap, file, accepted);
    if code == PV_OK {
      return Ok(());
    }
    var e := StatusError(heap, code, error);
    return Err(e);
  }

  method SysCompile(engine: PvEngine, heap: CHeap, name: string) returns (r: Result<(), PvError>)
    requires engine.Valid() && heap.Valid()
    modifies engine`compiled, engine.factory, heap
    ensures engine.Valid() && heap.Valid() && heap.blocks == old(heap.blocks)
    ensures r.Ok? ==> heap.failures == old(heap.failures)
    ensures r.Ok? <==> name in engine.pool.types && Clean(engine.pool.types, name)
    ensures r.Err? ==> if name in engine.pool.types then r.error.Compilation? else r.error.Argument?
    ensures engine.compiled == old(engine.compiled) + (if r.Ok? then {name} else {})
  {
    var code, error := engine.Compile(heap, name);
    if code == PV_OK {
      return Ok(());
    }
    var e := StatusError(heap, code, error);
    return Err(e);
  }

  /** The status of a validation that fails. */
  ghost function FailureCode(pool: Pool, name: string, evaluation: Evaluation): int {
    if name !in pool.types then PV_ERR_ARGUMENT
    else if !Clean(pool.types, name) then PV_ERR_COMPILATION
    else EvaluationCode(evaluation, false)
  }

  /** On Ok(Some(buffer)) the caller owns the one block this call has left. */
  method SysValidate(engine: PvEngine, heap: CHeap, name: string, evaluation: Evaluation)
    returns (r: Result<Option<PvBuffer>, PvError>)
    requires engine.Valid() && heap.Valid()
    modifies engine`compiled, engine.factory, heap
    ensures engine.Valid() && heap.Valid()
    ensures name in old(engine.compiled) ==> engine.compiled == old(engine.compiled) && engine.factory.statuses == old(engine.factory.statuses)
    ensures engine.compiled == old(engine.compiled) +
              (if name in engine.pool.types && Clean(engine.pool.types, name) then {name} else {})
    ensures r.Ok? && r.value.Some? ==>
              var b := r.value.value;
              && b.ptr != NULL && heap.Handed(old(heap.blocks), b.ptr) && b.len > 0
              && evaluation.Violations? && b.len == |evaluation.bytes|
              && heap.blocks[b.ptr] == Bytes(evaluation.bytes)
    ensures !(r.Ok? && r.value.Some?) ==> heap.blocks == old(heap.blocks)
    ensures r.Ok? <==> name in engine.pool.types && Clean(engine.pool.types, name)
                       && evaluation.Violations? && evaluation.serializes && heap.failures == old(heap.failures)
    ensures r.Ok? ==> (r.value.None? <==> evaluation.bytes == [])
    ensures r.Err? ==> r.error == Classified(FailureCode(engine.pool, name, evaluation), r.error.message)
  {
    var code, out, outLen, error := engine.Validate(heap, name, evaluation);
    if code != PV_OK {
      var e := StatusError(heap, code, error);
      return Err(e);
    }
    if outLen == 0 {
      heap.Free(out);
      return Ok(None);
    }
    return Ok(Some(PvBuffer(out, outLen)));
  }

  /** The error of a failed validation of a clean type. Out of memory and a
      result that does not serialize count as evaluation. */
  function EvaluationErrorClass(evaluation: Evaluation): RubyClass {
    match evaluation
    case Unparsable => ArgumentError
    case Failed(InvalidArgument) => EvaluationError
    case Failed(FailedPrecondition) => CompilationError
    case Failed(OtherCode) => BaseError
    case Violations(_, _) => EvaluationError
  }

  function ToRubyError(e: PvError): RubyError {
    match e
    case Compilation(message) => RubyError(CompilationError, message)
    case Evaluation(message) => RubyError(EvaluationError, message)
    case Argument(message) => RubyError(ArgumentError, message)
    case Unexpected(message) => RubyError(BaseError, message)
    case Unknown(code, message) => RubyError(BaseError, "unknown status " + Decimal(code) + ": " + message)
  }

  method AddFile(engine: PvEngine, heap: CHeap, file: Option<FileProto>, accepted: bool) returns (r: Result<(), RubyError>)
    requires engine.Valid() && heap.Valid()
    modifies engine`pool, heap
    ensures engine.Valid() && heap.Valid() && heap.blocks == old(heap.blocks)
    ensures Grown(old(engine.pool), engine.pool)
    ensures r.Ok? ==> heap.failures == old(heap.failures)
    ensures r.Ok? <==> file.Some? && (file.value.name in old(engine.pool).files || (accepted && Buildable(old(engine.pool), file.value)))
    ensures r.Err? ==> r.error.class_ == ArgumentError
    ensures r.Ok? <==> file.Some? && (file.value.name in old(engine.pool).files
                                      || (accepted && !Unresolvable(old(engine.pool), file.value)))
    ensures r.Ok? && file.value.name !in old(engine.pool).files ==> Adds(old(engine.pool), engine.pool, file.value)
    ensures engine.pool == if r.Ok? && file.value.name !in old(engine.pool).files
                           then Built(old(engine.pool), file.value) else old(engine.pool)
  {
    var result := SysAddFile(engine, heap, file, accepted);
    r := if result.Ok? then Ok(()) else Err(ToRubyError(result.error));
  }

  method Compile(engine: PvEngine, heap: CHeap, name: string) returns (r: Result<(), RubyError>)
    requires engine.Valid() && heap.Valid()
    modifies engine`compiled, engine.factory, heap
    ensures engine.Valid() && heap.Valid() && heap.blocks == old(heap.blocks)
    ensures r.Ok? ==> heap.failures == old(heap.failures)
    ensures r.Ok? <==> name in engine.pool.types && Clean(engine.pool.types, name)
    ensures r.Err? ==> r.error.class_ == if name in engine.pool.types then CompilationError else ArgumentError
    ensures engine.compiled == old(engine.compiled) + (if r.Ok? then {name} else {})
  {
    var result := SysCompile(engine, heap, name);
    r := if result.Ok? then Ok(()) else Err(ToRubyError(result.error));
  }

  /** The bytes reach Ruby as a copy, and the shim's buffer is dropped. Every
      block a call allocates is free again when it returns. */
  method Validate(engine: PvEngine, heap: CHeap, name: string, evaluation: Evaluation)
    returns (r: Result<Option<seq<int>>, RubyError>)
    requires engine.Valid() && heap.Valid()
    modifies engine`compiled, engine.factory, heap
    ensures engine.Valid() && heap.Valid() && heap.blocks == old(heap.blocks)
    ensures name in old(engine.compiled) ==> engine.compiled == old(engine.compiled) && engine.factory.statuses == old(engine.factory.statuses)
    ensures engine.compiled == old(engine.compiled) +
              (if name in engine.pool.types && Clean(engine.pool.types, name) then {name} else {})
    ensures r.Ok? <==> name in engine.pool.types && Clean(engine.pool.types, name)
                       && evaluation.Violations? && evaluation.serializes && heap.failures == old(heap.failures)
    ensures r.Ok? ==> r.value == if evaluation.bytes == [] then None else Some(evaluation.bytes)
    ensures r.Err? ==> r.error.class_ == if name !in engine.pool.types then ArgumentError
                                         else if !Clean(engine.pool.types, name) then CompilationError
                                         else EvaluationErrorClass(evaluation)
    ensures r.Err? && r.error.class_ == EvaluationError ==> name in engine.pool.types && Clean(engine.pool.types, name)
  {
    var result := SysValidate(engine, heap, name, evaluation);
    if result.Err? {
      return Err(ToRubyError(result.error));
    }
    if result.value.None? {
      return Ok(None);
    }
    var buffer := result.value.value;
    var bytes := heap.blocks[buffer.ptr].bytes;
    heap.Free(buffer.ptr);
    return Ok(Some(bytes));
  }
}
