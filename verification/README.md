# protovalidate: a verified model

A Dafny model of the parts of the protovalidate gem that carry its guarantees, with proofs:

- **The rule engine** (`Graphs`, `Descriptors`, `Memory`, `Engine`, `Native`). `CompileRules` walks a possibly
  cyclic descriptor graph over a rule factory that answers from its cache; `EnsureCompiled` puts a cache of clean
  types in front of it; the pool grows with `pv_engine_add_file`. The walk and its cache are proved to give the
  uncached answer, "every reachable type has good rules", for every earlier content of both caches. The C heap
  records every block, so that each error string and result buffer is freed exactly once.
- **The Ruby validator** (`Registration`). Import registration in dependency order over any acyclic import graph,
  class registration, and the errors a caller sees, one call at a time.
- **The locking protocol** (`Protocol`, `ProtocolSafety`, `ProtocolImports`, `ProtocolOutcomes`, `ProtocolProgress`). The same calls as a state machine over
  any number of Ruby threads, the GVL, the registration mutex and the engine's read/write lock: an inductive
  invariant, exclusive rule walks, growing snapshots, import order across threads,
  what every finished call has done, and freedom from deadlock.
- **The message codec** (`Wire`, `Messages`, `Decoding`, `Utf8`, `RoundTrip`, `Nodes`, `Serialization`). The generated code of
  `cel.expr.Value` and its submessages as heap objects with has-bits, a oneof, cached sizes and owned submessages,
  proved against the messages as values; a decoder written from the Protocol Buffers encoding specification
  ("Base 128 Varints", "Message Structure", "Last One Wins"), which undoes the encoder and turns concatenation
  into merging.
- **The rule tables** (`Cel`, `Regexes`, `Names`, `Intervals`, `Ranges`, `FieldMask`, `Fqn`). The expressions of the numeric
  range rules, the field mask rules and the Protobuf name rules in a fragment of the Common Expression Language
  (language definition, "Logical Operators" and "Macros"), proved to mean what they should.
- **Violation paths** (`Paths`, `Decimals`, `Rendering`, `Reading`). Resolving a field path through a message tree,
  what is printed of it, and what the printed path still tells apart.

Where the sources disagree, the model follows the code. `pv_shim.h:58-59` says that a file may reference imports
that have not been added yet and that the pool resolves them lazily; `pv_shim.cc:138-139` and the code build every file
on an overlay pool that resolves imports at once, and so does the model.

Three properties hold only under a condition. Each condition is proved exactly:

- Merging values is not associative: a value of another kind between two messages of the same kind hides the first
  one. `Messages.MergeIsNotAssociative` gives the instance and `Messages.MergeAssociates` the condition.
- The range rules decide their interval for every value exactly when no bound is NaN
  (`Ranges.RangeDecidedExactly`); what a NaN bound does instead is `Ranges.NaNRangeReports`.
- Among all paths, with any names, a printed path determines its names and subscripts exactly when it is one
  unambiguous name (`Rendering.PrintsAloneExactly`), since a name may be spelled like the rest of a longer path. Among
  paths whose names are not empty and have no dot or opening bracket, as identifiers have not, it always does
  (`Rendering.RenderInjective`).

Some things come in from outside as parameters or nondeterministic choices: whether a file's bytes parse and whether
protobuf accepts a file beyond what it must resolve (`accepted`, and for the validator's files `accepts`), the
verdict on each type's own rules (`rulesCompile`), what parsing a payload and evaluating its rules come to
(`evaluation`), whether `malloc` fails, what other threads insert, and what Ruby's `[]` does on a scalar.

## Model

| member | source | states |
|---|---|---|
| Graphs.ClosedHoldsReach | ext/protovalidate/sys/shim/pv_shim.cc:87-101 | a set of types closed under message fields that holds a type holds everything reachable from it |
| Graphs.ExtensionKeepsReach | ext/protovalidate/sys/shim/pv_shim.cc:125-139 | adding nodes to a graph closed on its own nodes changes no reachability from the old ones |
| Descriptors.BuiltIsGrown | ext/protovalidate/sys/shim/pv_shim.cc:211-230 | building a file adds its name and exactly its own descriptors, keeps every known type, and leaves no dangling field type |
| Descriptors.BuildsExactly | ext/protovalidate/sys/shim/pv_shim.cc:138-139 | a file resolves exactly when it imports nothing outside the pool, defines no type that is there, and names no field type that is nowhere |
| Descriptors.GrowthKeepsClosure | ext/protovalidate/sys/shim/pv_shim.cc:125-139 | growing the pool leaves the reachable closure, and so the cleanness, of every known type unchanged |
| Memory.CHeap.Free | ext/protovalidate/sys/shim/pv_shim.cc:292 | only a live block or null may be freed, and exactly that block is gone afterwards |
| Memory.CHeap.SetError | ext/protovalidate/sys/shim/pv_shim.cc:57-66 | an error string is one new block, or null when memory runs out |
| Engine.ValidatorFactory.Add | ext/protovalidate/sys/shim/pv_shim.cc:98-101 | the factory's contract: a cached type returns its own status; OK implies the type's own rules are good; an error implies some reachable type is bad |
| Engine.CompileRules | ext/protovalidate/sys/shim/pv_shim.cc:102-121 | for every graph, cyclic or not, and every factory cache: OK means every type the walk answers for is good and has no field type outside `seen`; an error means some reachable type is bad; `seen` gains reachable types only |
| Engine.FinishedWalkIsClean | ext/protovalidate/sys/shim/pv_shim.cc:87-121 | a finished walk from an empty `seen` has covered the whole reachable closure and found it good |
| Engine.PvEngine.EnsureCompiled | ext/protovalidate/sys/shim/pv_shim.cc:170-190 | PV_OK if and only if the whole closure is good, a compilation error otherwise, whatever was compiled before and whatever clean types others insert meanwhile; only clean types enter the cache |
| Engine.PvEngine.AddFile | ext/protovalidate/sys/shim/pv_shim.cc:211-230 | a known name is a success without effect, an unparsable or unresolvable file an argument error without effect; a new file adds its name and exactly its own descriptors; no known type's cleanness changes |
| Engine.PvEngine.FindMessageType | ext/protovalidate/sys/shim/pv_shim.cc:159-168 | an unknown name, and only that, produces an error string |
| Engine.PvEngine.Compile | ext/protovalidate/sys/shim/pv_shim.cc:238-244 | argument error for an unknown type, OK exactly for a clean one, compilation error otherwise |
| Engine.PvEngine.Validate | ext/protovalidate/sys/shim/pv_shim.cc:246-290 | the status for every case, OK included: a clean type whose result serializes is answered unless a malloc of the call failed; on success exactly one new block, the result, is left behind, on failure at most the error string; a type already in the cache starts no walk |
| Engine.PvEngine.Evaluate | ext/protovalidate/sys/shim/pv_shim.cc:258-289 | the same for the part after compilation, with the buffer freed again when writing it fails |
| Native.CStringEndsAtNul | ext/protovalidate/sys/src/lib.rs:70-72 | what is read of a C string is the text before its first NUL, or all of it |
| Native.TakeError | ext/protovalidate/sys/src/lib.rs:65-75 | the error string is read up to its first NUL and freed once; a null pointer reads as "unknown error" |
| Native.StatusError | ext/protovalidate/sys/src/lib.rs:77-87 | each status code gives its own class of error, which carries the string's text up to its first NUL, and the string is freed |
| Native.SysAddFile | ext/protovalidate/sys/src/lib.rs:107-117 | succeeds exactly for a known or resolvable file, whose own descriptors are then in the pool; no block is left |
| Native.SysCompile | ext/protovalidate/sys/src/lib.rs:127-144 | succeeds exactly for a known, clean type, and tells unknown from unclean; no block is left |
| Native.SysValidate | ext/protovalidate/sys/src/lib.rs:146-185 | succeeds exactly for a known, clean type whose violations serialize without a failed malloc; violations come back as the one block the caller owns; an empty result buffer and every error string are freed |
| Native.AddFile | ext/protovalidate/src/lib.rs:25-40 | the same; a refused file is an ArgumentError and leaves the pool unchanged |
| Native.Compile | ext/protovalidate/src/lib.rs:51-71 | CompilationError exactly for a known type with an unclean closure, ArgumentError exactly for an unknown type |
| Native.Validate | ext/protovalidate/src/lib.rs:73-121 | exactly when it succeeds, and the one Ruby error class for every other case; EvaluationError implies that every statically reachable type compiles; every block allocated during the call is freed |
| Registration.SentNext | lib/protovalidate/validator.rb:140-155 | sending a file whose imports are all in, and which is not in itself, keeps the import order and resends nothing |
| Registration.Validator.RegisterFile | lib/protovalidate/validator.rb:140-155 | terminates on every acyclic import graph; fails exactly when some file of the closure stops it, by a missing import or a refusal with all its imports in; files go to the engine after all their imports and never again once added; the registered set stays closed under imports, also when a run fails midway; success registers the whole closure |
| Registration.Validator.RegisterImports | lib/protovalidate/validator.rb:145-152 | the loop over a file's imports: all of them are registered, or the file is blocked |
| Registration.RegisteredIsNotBlocked | lib/protovalidate/validator.rb:140-155 | nothing in the closure of a registered file is missing or refused |
| Registration.FittingFileBuilds | ext/protovalidate/sys/shim/pv_shim.cc:125-139 | a file that fits the linked-in pool is built as soon as its imports are registered, whatever else was registered before |
| Registration.RegistrationDecided | lib/protovalidate/validator.rb:140-155 | over a coherent descriptor pool, an attempted file ends up registered if and only if every file of its import closure is there and linked in or accepted, independently of history |
| Registration.PoolHasKnownTypes | ext/protovalidate/sys/shim/pv_shim.cc:125-139 | the engine's descriptors are those of the linked-in files and of the registered files, as the files define them, and no others |
| Registration.CompilationDecided | ext/protovalidate/sys/shim/pv_shim.cc:173-190 | a known type fails to compile exactly when it reaches, through those files' types, a type whose rules are bad |
| Registration.Validator.SendFile | lib/protovalidate/validator.rb:153-154 | one attempt, recorded; the file counts as registered exactly when the engine does not refuse it |
| Registration.Validator.RegisterClass | lib/protovalidate/validator.rb:104-121 | a hit changes nothing; otherwise the class enters the map exactly when it is a message class, its file is registered and its type is known and clean; it is skipped exactly when asked to, for an unknown type of a registered file; every other case is the error of its reason |
| Registration.Validator.UsableFromFiles | lib/protovalidate/validator.rb:106-120 | from the files alone: which classes of registered files are usable, and which end in CompilationError |
| Registration.Validator.TypeNameOf | lib/protovalidate/validator.rb:98-102 | the registered name, exactly for a usable class, without touching the engine on a hit; otherwise the error of its reason |
| Registration.Validator.CollectViolations | lib/protovalidate/validator.rb:88-96 | a result comes back exactly for a usable class whose violations serialize without a failed malloc; the class of every error; a registered class adds nothing to any cache |
| Registration.Validator.Register | lib/protovalidate/validator.rb:43-46 | succeeds exactly when every class ends up registered, and no other class ever enters the map; otherwise it stops at the first class that is not usable, with that class's error |
| Registration.Validator.UnknownIsLacking | lib/protovalidate/validator.rb:52-54 | the engine does not know the type of a registered class if and only if the linked-in copy of its file lacks it |
| Registration.Validator.RegisterAll | lib/protovalidate/validator.rb:58-61 | succeeds exactly when every loaded class has its file registered and is registered itself or has a type the linked-in copy of its file lacks; such a type never makes it fail; otherwise it stops at the first class that is not usable, with that class's error |
| ProtocolSafety.StepKeepsInv | ext/protovalidate/src/lib.rs:9-97 | every step of every interleaving keeps the invariant over locks, engine, snapshots, compile counts and what each thread knows |
| ProtocolSafety.ReachedInv | lib/protovalidate/validator.rb:98-121 | the invariant holds in every reachable state |
| ProtocolSafety.WalkIsExclusive | ext/protovalidate/src/lib.rs:51-97 | the rule walk only ever runs in a compile call under the exclusive lock with nobody else in the engine; no validation starts one |
| ProtocolSafety.LocksByPlace | ext/protovalidate/src/lib.rs:25-97 | place by place, which of the GVL, the mutex and the two sides of the read/write lock a thread holds in every reachable state |
| ProtocolSafety.ReadersShare | ext/protovalidate/src/lib.rs:85-91 | readers keep no reader out |
| ProtocolSafety.SnapshotsGrow | lib/protovalidate/validator.rb:104-121 | along every run the `@types` snapshots, the registered files, the pool and the engine's cache only grow and change no entry |
| ProtocolSafety.SnapshotHitsAreFinal | lib/protovalidate/validator.rb:98-121 | a hit in any snapshot is the class's own type name, agrees with every later lookup, was compiled exactly once, and its closure stays clean |
| ProtocolSafety.CompiledAtMostOnce | lib/protovalidate/validator.rb:106-121 | no class is compiled successfully twice in any interleaving |
| ProtocolSafety.PublishLosesNothing | lib/protovalidate/validator.rb:115-117 | replacing the snapshot adds the class and drops no concurrent registration |
| ProtocolImports.StepKeepsImports | lib/protovalidate/validator.rb:140-155 | every step of every interleaving keeps the registered files closed under imports and each thread's account of what it has left to send |
| ProtocolImports.RegisteredFilesClosed | lib/protovalidate/validator.rb:140-155 | in every state of every run whose classes list their files imports first, the registered files are closed under imports and in the engine's pool |
| ProtocolImports.SentAfterImports | lib/protovalidate/validator.rb:145-154 | in every such state, a thread that sends a file has all its imports registered and the file itself not |
| ProtocolOutcomes.StepKeepsOutcomes | lib/protovalidate/validator.rb:106-121 | every step of every interleaving keeps what threads on their way know and why the finished ones have ended |
| ProtocolOutcomes.EndsAreEarned | lib/protovalidate/validator.rb:108-119 | a call leaves the critical section with its class registered; or skipped, only by register_all, with its files in and its type unknown; or with an error, only for a missing import, a file that neither it nor the engine has, or rules that do not compile |
| ProtocolOutcomes.RegisteredClassHasFiles | lib/protovalidate/validator.rb:110-117 | a registered class has all its files registered, and the pool holds exactly the linked-in and registered files with the files' own descriptors |
| ProtocolOutcomes.AddFileStepDecides | ext/protovalidate/sys/shim/pv_shim.cc:211-230 | an add_file step registers its file exactly when the engine knows the name or accepts a resolvable file, and then adds its own descriptors |
| ProtocolOutcomes.CallDoesItsWork | lib/protovalidate/validator.rb:43-61 | along every run, a call is over only after its class is registered, or it was skipped or has raised; a validation only after it has been in the engine, or has raised |
| ProtocolProgress.WorkLowersTotal | lib/protovalidate/validator.rb:106-121 | every step of a call brings the threads nearer to the end, whatever its outcome |
| ProtocolProgress.ReadyThread | ext/protovalidate/src/lib.rs:25-97 | some thread can always go on, at once or with the GVL, although `add_file` and `message_type?` wait with the GVL held |
| ProtocolProgress.Advance | ext/protovalidate/src/lib.rs:155-179 | from every state with an unfinished call, at most two moves of the GVL lead to a step of some call |
| ProtocolProgress.NoDeadlock | ext/protovalidate/src/lib.rs:25-97 | from every reachable state all unfinished calls can complete |
| ProtocolProgress.WorkIsBounded | ext/protovalidate/src/lib.rs:25-97 | a run without new calls has no more steps of calls than the threads had left at its start, however they interleave |
| Wire.Varint64Reads | ext/protovalidate/sys/gen/cel/expr/value.pb.cc:1239-1341 | a written varint reads back, whatever follows it, within ten bytes |
| Wire.ReadVarintRefuses | ext/protovalidate/sys/gen/cel/expr/value.pb.cc:1239-1341 | a varint is refused exactly when no byte within reach ends it |
| Wire.RecordReads | ext/protovalidate/sys/gen/cel/expr/value.pb.cc:1239-1341 | a written field reads back as the same field, whatever follows it |
| Wire.WrittenReads | ext/protovalidate/sys/gen/cel/expr/value.pb.cc:1239-1341 | written fields read back in order |
| Wire.ReadAllConcat | ext/protovalidate/sys/gen/cel/expr/value.pb.cc:1436-1540 | readable bytes followed by any bytes read as the fields of the first part and then those of the second |
| Messages.ValueLength | ext/protovalidate/sys/gen/cel/expr/value.pb.cc:1343-1434 | the size that is added up is the exact length of the encoding, through all submessages |
| Messages.EntryLength | ext/protovalidate/sys/gen/cel/expr/value.pb.cc:2186-2216 | the same for a map entry |
| Messages.MergeIsNotAssociative | ext/protovalidate/sys/gen/cel/expr/value.pb.cc:1436-1540 | a list, an int and a list merge differently in the two orders |
| Messages.MergeAssociates | ext/protovalidate/sys/gen/cel/expr/value.pb.cc:1436-1540 | merging three values associates if and only if no value of another kind stands between two messages of one kind of which the first sets something that the last does not |
| RoundTrip.ParseConcat | ext/protovalidate/sys/gen/cel/expr/value.pb.cc:1436-1540 | parsing a concatenation parses the second part into the result of the first, for all bytes |
| RoundTrip.ValueParses | ext/protovalidate/sys/gen/cel/expr/value.pb.cc:1239-1341 | parsing an encoding into a message that already holds something merges, through the oneof and all submessages |
| RoundTrip.EnumParses | ext/protovalidate/sys/gen/cel/expr/value.pb.cc:1664-1709 | the same for an enum value |
| RoundTrip.ValuesParse | ext/protovalidate/sys/gen/cel/expr/value.pb.cc:1912-1951 | the same for a list: elements are appended |
| RoundTrip.EntriesParse | ext/protovalidate/sys/gen/cel/expr/value.pb.cc:2388-2427 | the same for a map |
| RoundTrip.EntryParses | ext/protovalidate/sys/gen/cel/expr/value.pb.cc:2144-2184 | the same for a map entry |
| RoundTrip.DecodeUndoesEncode | ext/protovalidate/sys/gen/cel/expr/value.pb.cc:1239-1341 | decoding the encoding of a value gives the value back |
| RoundTrip.DecodeConcatenationMerges | ext/protovalidate/sys/gen/cel/expr/value.pb.cc:1436-1540 | decoding two encodings one after the other gives what MergeFrom gives |
| RoundTrip.EncodeIsInjective | ext/protovalidate/sys/gen/cel/expr/value.pb.cc:1239-1341 | different values have different encodings |
| Utf8.ValidUtf8Exactly | ext/protovalidate/sys/gen/cel/expr/value.pb.cc:1287-1296 | the strings the codec accepts are exactly the UTF-8 encodings of Unicode scalar values |
| Decoding.OtherRecordsAreSkipped | ext/protovalidate/sys/gen/cel/expr/value.pb.cc:1436-1540 | records of unknown fields and of other wire types are passed over, and any number but zero is true |
| Nodes.EnumNode.ByteSizeLong | ext/protovalidate/sys/gen/cel/expr/value.pb.cc:1711-1745 | counts and caches the exact size |
| Nodes.CachedSizeTruncates | ext/protovalidate/sys/gen/cel/expr/value.pb.cc:1433 | a cached size is the size, up to whole turns of 32 bits |
| Nodes.EnumNode.InternalSerialize | ext/protovalidate/sys/gen/cel/expr/value.pb.cc:1664-1709 | appends exactly the encoding |
| Nodes.EnumNode.MergeFrom | ext/protovalidate/sys/gen/cel/expr/value.pb.cc:1747-1779 | set, non-default fields replace, others stay |
| Nodes.EnumNode.CopyFrom | ext/protovalidate/sys/gen/cel/expr/value.pb.cc:1781-1786 | equal to the source; a self-copy changes nothing |
| Nodes.ValueNode.ByteSizeLong | ext/protovalidate/sys/gen/cel/expr/value.pb.cc:1343-1434 | returns the exact size and leaves every nested cached size equal to its submessage's size, changing nothing else |
| Nodes.ValueNode.InternalSerialize | ext/protovalidate/sys/gen/cel/expr/value.pb.cc:1239-1341 | after sizing, appends exactly the encoding, each length prefix framing its submessage |
| Nodes.ValueNode.Delete | ext/protovalidate/sys/gen/cel/expr/value.pb.cc:1113-1124 | deleting a value frees its whole tree of messages, children before parents, every object for the first time and no others |
| Nodes.EntryNode.Delete | ext/protovalidate/sys/gen/cel/expr/value.pb.cc:2083-2092 | the same for a map entry |
| Nodes.ValueNode.ClearKind | ext/protovalidate/sys/gen/cel/expr/value.pb.cc:1126-1199 | the message the oneof held is deleted with its whole tree, and no other object |
| Nodes.ValueNode.Clear | ext/protovalidate/sys/gen/cel/expr/value.pb.cc:1228-1237 | the value is unset and owns nothing but itself |
| Nodes.ValueNode.CopyConstruct | ext/protovalidate/sys/gen/cel/expr/value.pb.cc:1042-1098 | an equal value made of new objects only |
| Nodes.ValueNode.MergeFrom | ext/protovalidate/sys/gen/cel/expr/value.pb.cc:1436-1540 | the merge of the two values; the source is only read and shares nothing; old content is deleted exactly when the case changes and is still owned when it does not |
| Nodes.ValueNode.CopyFrom | ext/protovalidate/sys/gen/cel/expr/value.pb.cc:1542-1547 | a deep copy sharing no object with the unchanged source, the old content deleted once; a self-copy changes nothing |
| Nodes.ListNode.ByteSizeLong | ext/protovalidate/sys/gen/cel/expr/value.pb.cc:1953-1980 | the exact size, with every element's size cached |
| Nodes.ListNode.InternalSerialize | ext/protovalidate/sys/gen/cel/expr/value.pb.cc:1912-1951 | appends exactly the encoding of the elements in order |
| Nodes.ListNode.CopyConstruct | ext/protovalidate/sys/gen/cel/expr/value.pb.cc:1813-1843 | equal, of new objects only |
| Nodes.ListNode.MergeFrom | ext/protovalidate/sys/gen/cel/expr/value.pb.cc:1982-2004 | copies of the source's elements are appended |
| Nodes.ListNode.CopyFrom | ext/protovalidate/sys/gen/cel/expr/value.pb.cc:2006-2011 | equal to the source; a self-copy changes nothing |
| Nodes.MapNode.ByteSizeLong | ext/protovalidate/sys/gen/cel/expr/value.pb.cc:2429-2456 | the exact size, with every entry's size cached |
| Nodes.MapNode.InternalSerialize | ext/protovalidate/sys/gen/cel/expr/value.pb.cc:2388-2427 | appends exactly the encoding of the entries in order |
| Nodes.MapNode.MergeFrom | ext/protovalidate/sys/gen/cel/expr/value.pb.cc:2458-2480 | copies of the source's entries are appended |
| Nodes.MapNode.CopyFrom | ext/protovalidate/sys/gen/cel/expr/value.pb.cc:2482-2487 | equal to the source; a self-copy changes nothing |
| Nodes.EntryNode.ByteSizeLong | ext/protovalidate/sys/gen/cel/expr/value.pb.cc:2186-2216 | the exact size, with the sizes of key and value cached |
| Nodes.EntryNode.InternalSerialize | ext/protovalidate/sys/gen/cel/expr/value.pb.cc:2144-2184 | appends exactly the encoding of the fields that are set |
| Nodes.EntryNode.Clear | ext/protovalidate/sys/gen/cel/expr/value.pb.cc:2122-2142 | both fields unset, the submessages kept but emptied, what they held deleted once |
| Nodes.EntryNode.CopyConstruct | ext/protovalidate/sys/gen/cel/expr/value.pb.cc:2042-2065 | equal, of new objects only |
| Nodes.EntryNode.MergeFrom | ext/protovalidate/sys/gen/cel/expr/value.pb.cc:2218-2253 | each set field of the source is copied in or merged into; exactly what a field's oneof held when it changes its case is deleted, nothing else is lost, and nothing deleted stays owned |
| Nodes.EntryNode.CopyFrom | ext/protovalidate/sys/gen/cel/expr/value.pb.cc:2255-2260 | equal to the source, the old content deleted once; a self-copy changes nothing |
| Serialization.SerializeToBytes | ext/protovalidate/sys/gen/cel/expr/value.pb.cc:1239-1434 | sizing and serializing writes exactly the announced number of bytes, and they decode to the message |
| Cel.ViolationsConcat | lib/buf/validate/validate_pb.rb:13 | a rule table reports rule by rule, and fails when either part fails |
| Cel.ReportedWithoutError | lib/buf/validate/validate_pb.rb:13 | a table reports violations exactly when no set rule evaluates to an error; otherwise the evaluation fails |
| Cel.ErrorFails | lib/buf/validate/validate_pb.rb:13 | a set rule whose expression is an error fails the evaluation of its table |
| Cel.ErrorsAreAbsorbed | lib/buf/validate/validate_pb.rb:13 | a deciding operand of a logical operator decides next to an error on either side, and any other leaves the error |
| Cel.OneBroken | lib/buf/validate/validate_pb.rb:13 | a table in which one rule is broken and the others pass reports exactly that rule |
| Intervals.UpperOnlyFires | lib/buf/validate/validate_pb.rb:13 | the `lt` and `lte` rules break exactly when they are the only bound and the value fails it, and pass otherwise, without an error |
| Intervals.LowerOnlyFires | lib/buf/validate/validate_pb.rb:13 | the `gt` and `gte` rules likewise |
| Intervals.InsideFires | lib/buf/validate/validate_pb.rb:13 | the two-sided rules break exactly for ordered bounds and a value outside, and pass otherwise, without an error |
| Intervals.ExclusiveFires | lib/buf/validate/validate_pb.rb:13 | the exclusive rules break exactly for bounds that leave a gap and a value in it or NaN, and pass otherwise, without an error |
| Intervals.TableReports | lib/buf/validate/validate_pb.rb:13 | for every choice of bounds, NaN included, the table evaluates without an error and reports at most one violation, the chosen rule's |
| Intervals.IntervalReports | lib/buf/validate/validate_pb.rb:13 | without NaN bounds, the table evaluates without an error and reports exactly one violation for NaN, for a value outside the interval or in the gap, and none for any other, for integer and float families |
| Intervals.NaNBoundReports | lib/buf/validate/validate_pb.rb:13 | with a NaN bound, the table still evaluates without an error, and nothing but a NaN value against a single bound is reported |
| Intervals.IntervalDecidedExactly | lib/buf/validate/validate_pb.rb:13 | the table decides the interval for every value, an evaluation error counting as no decision, if and only if no bound is NaN |
| Ranges.RangeReports | lib/buf/validate/validate_pb.rb:13 | on any rules message with `lt` or `lte` and `gt` or `gte` set and none NaN: one violation, with the id of the set fields, unless `v < lt`, `v <= lte`, `v > gt`, `v >= gte` hold, of which one side is enough when the bounds leave a gap |
| Ranges.NaNRangeReports | lib/buf/validate/validate_pb.rb:13 | with a NaN field, only a NaN value against a single field is reported |
| Ranges.RangeDecidedExactly | lib/buf/validate/validate_pb.rb:13 | the rules decide the range for every value if and only if no field is NaN |
| Names.SegmentPrefix | lib/buf/validate/validate_pb.rb:13 | `p == f` or `p.startsWith(f + '.')` if and only if f's segments are a prefix of p's, for all strings |
| FieldMask.ListedMeansCovered | lib/buf/validate/validate_pb.rb:13 | the membership-or-startsWith expression evaluates to coverage by segments |
| FieldMask.InRuleReports | lib/buf/validate/validate_pb.rb:13 | `field_mask.in` evaluates without an error and accepts exactly the masks whose every path is covered by a listed path |
| FieldMask.NotInRuleReports | lib/buf/validate/validate_pb.rb:13 | `field_mask.not_in` evaluates without an error and accepts exactly the masks none of whose paths is covered |
| Fqn.IdentifierLanguage | lib/buf/validate/validate_pb.rb:13 | the identifier part of the regexes matches exactly the identifiers |
| Fqn.FqnLanguage | lib/buf/validate/validate_pb.rb:13 | the `protobuf_fqn` regex matches exactly the strings whose every dot-separated segment is an identifier |
| Fqn.DotFqnLanguage | lib/buf/validate/validate_pb.rb:13 | the `protobuf_dot_fqn` regex matches exactly a dot followed by such a name |
| Fqn.FqnRulesReport | lib/buf/validate/validate_pb.rb:13 | with `protobuf_fqn` set, both rules evaluate without an error; a dotted name passes, the empty string breaks only the `_empty` rule, anything else only the other |
| Fqn.DotFqnRulesReport | lib/buf/validate/validate_pb.rb:13 | the same for `protobuf_dot_fqn` |
| Paths.FieldValue | lib/protovalidate/violation.rb:55-80 | the loop with its early returns computes the resolution of the path |
| Paths.FindNumberFinds | lib/protovalidate/violation.rb:64-66 | the descriptor found is one with the element's number, and none is missed |
| Paths.ResolveConcat | lib/protovalidate/violation.rb:55-80 | a concatenated path resolves its second half from where the first ends |
| Paths.ForKeyGivesKey | lib/protovalidate/violation.rb:74-75 | with `for_key` and a final subscript the result is the Ruby object of that subscript, kind by kind, once the prefix resolves to a message with a field of the element's number or name, nil when it does not, whatever the map holds |
| Paths.ForKeyWithoutSubscript | lib/protovalidate/violation.rb:72-75 | without a final subscript `for_key` changes nothing |
| Paths.UnmatchedIsNil | lib/protovalidate/violation.rb:62-68 | nil for a value that is no message and for an element whose number and name no field has |
| Paths.ListsCountFromTheEnd | lib/protovalidate/violation.rb:77 | a list answers a negative index as its reversal answers it from zero, and nil beyond its end |
| Paths.LocationResolves | lib/protovalidate/violation.rb:51-80 | a path that points at a location, each field by number or by the fallback name, each list element by its index and each map entry by its key in the kind of the map, resolves to exactly the value there |
| Decimals.DigitsMeanNumber | lib/protovalidate/violation.rb:112 | printed digits are a numeral without a needless zero whose value by positions is the number |
| Decimals.DecimalMeansInteger | lib/protovalidate/violation.rb:112 | the same with the sign |
| Reading.PrintedPathReads | lib/protovalidate/violation.rb:43-49 | a reader of the format `a.b[0].c["key"]` reads from a printed path with plain names exactly its names and subscripts: flags and numbers by value, texts as quoted |
| Reading.QuoteReads | lib/protovalidate/violation.rb:108-113 | undoing the backslashes gives a quoted text back |
| Rendering.QuoteIsFaithful | lib/protovalidate/violation.rb:108-113 | escaping quotes and backslashes is enough for the quoting the next rows ask for |
| Rendering.InspectInjective | lib/protovalidate/violation.rb:97-113 | inspected subscripts in brackets end at the same place and are the same |
| Rendering.RenderInjective | lib/protovalidate/violation.rb:43-49 | two paths whose names are not empty and have no dot or opening bracket print alike if and only if they have the same names and the same subscripts up to numeric kind |
| Rendering.IdentifierIsPlain | lib/protovalidate/violation.rb:43-49 | identifiers, which field names are, are such names |
| Rendering.AmbiguousNamePrintsLike | lib/protovalidate/violation.rb:108-113 | a name that is empty, has a dot or ends like a printed subscript prints like another path |
| Rendering.PrintsAloneExactly | lib/protovalidate/violation.rb:43-49 | among all paths with any names, a path is the only one to print as it does if and only if it is one name without a subscript that is not empty, has no dot and does not end like a printed subscript |
| Rendering.EmptyFieldPath | lib/protovalidate/violation.rb:43-49 | the printed path is empty exactly when there is no path, an empty one, or a lone element without a name and a subscript |
| Rendering.DottedNameCollides | lib/protovalidate/violation.rb:43-49 | a name with a dot can print like two elements |

## Left out

- Engine.ValidatorFactory.Add: the library is not part of this model; the method realizes its contract, with arbitrary choices of how far it recurses and what it reports.
- Engine.ClassifyStatus: which library statuses arise from which rules is not modelled; Any-unpacked types that compile lazily inside Validate are outside the static closure.
- Engine.PvEngine.AddFile: everything protobuf checks about a file beyond imports, new type names and field types is one opaque verdict; public imports, visibility and rule extensions that arrive in later files are not modelled.
- pv_engine_new: factory creation and its failure.
- Native.Validate: the payload and message texts are not modelled, nor const_get lookup failures, panics and lock poisoning.
- Registration.Validator.RegisterAll: the choice of loaded classes is an argument, each the class of a type that its file, and no other file of the descriptor pool, defines; classes of another descriptor pool are not modelled.
- Registration.Validator.SendFile: protobuf's verdict on a file beyond what it must resolve depends on the file alone, not on the pool.
- Protocol: a class carries the files that `register_file` gets to send for it, in its order, and whether an import is missing after them, which is the subject of the Registration module; the read/write lock is taken to queue readers behind waiting writers, the strictest case for deadlock.
- ProtocolSafety.CompiledAtMostOnce: asynchronous interrupts (Thread#raise, Timeout), which are delivered when a call without the GVL returns and may end a call between a successful compile and its publication, so that the class is compiled again.
- RoundTrip.DecodeUndoesEncode: unknown fields (kept by the generated code on merge and serialization), groups and the parser's depth limit are not modelled; strings must be UTF-8 and encodings shorter than 2 GiB, as the format requires.
- Nodes.ValueNode.CopyConstruct: arena placement is not modelled, and google.protobuf.Any is a message of two fields.
- Nodes.ValueNode.ClearKind: the destruction of strings and bytes held by the oneof is not modelled, only that of messages.
- Nodes.ListNode.Clear: cleared elements that a repeated field keeps for reuse count as no longer owned.
- Nodes.EnumNode.MergeFrom: swap, reflection, parse tables and the TSan hooks of the generated code.
- checked.pb.cc: the same generated pattern as value.pb.cc.
- Intervals.IntervalReports: `lt_now`, `gt_now`, durations and timestamps are not modelled, nor the rounding of doubles; messages stand for their texts before formatting.
- Fqn.FqnRulesReport: other string rules, formats and custom functions; the regexes are modelled as matching the whole string, which their anchors ask for.
- Paths.FieldValue: what Ruby's `[]` does on a scalar is a parameter; protobuf containers are taken to answer nil for a missing key or an index out of range and to raise for a subscript of another type.
- Rendering.RenderInjective: the quoting of strings is any faithful one, which Ruby's inspect is taken to be.
- ValidationError and Violation's accessors: plain wrappers.
- build.rs, extconf.rb, native.rb, the conformance runner and the ANTLR stubs: build and I/O.
