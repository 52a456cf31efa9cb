/** Walking a violation's field path through the validated message
    (violation.rb). */
module Paths {
  import opened Memory

  /** A Ruby object that has no parts of its own. Other stands for floats,
      symbols and the like. */
  datatype Scalar = Truth(b: bool) | Integer(i: int) | Str(s: string) | Other(tag: int)

  datatype KeyKind = BoolKeys | IntKeys | UintKeys | StringKeys

  /** A field of a message object: its descriptor's number and name, and its value. */
  datatype Field = Field(number: int, name: string, value: Node)

  datatype Node =
    | Nil
    | Leaf(scalar: Scalar)
    | Message(fields: seq<Field>)
    | Repeated(elements: seq<Node>)
    | Map(kind: KeyKind, entries: map<Scalar, Node>)

  datatype Subscript = NoSubscript | Index(n: nat) | BoolKey(b: bool) | IntKey(i: int) | UintKey(n: nat) | StringKey(s: string)

  datatype PathElement = PathElement(number: int, name: string, subscript: Subscript)

  /** The Ruby object that a subscript is: its numeric kind is not kept. */
  function SubscriptOf(subscript: Subscript): Option<Scalar> {
    match subscript
    case NoSubscript => None
    case Index(n) => Some(Integer(n))
    case BoolKey(b) => Some(Truth(b))
    case IntKey(i) => Some(Integer(i))
    case UintKey(n) => Some(Integer(n))
    case StringKey(s) => Some(Str(s))
  }

  datatype Outcome = Returned(value: Node) | Raised

  /** What Ruby's own [] does on a scalar, such as a bit of an integer or a
      character of a string. */
  type ScalarIndex = (Scalar, Scalar) -> Outcome

  predicate KeyFits(kind: KeyKind, key: Scalar) {
    match kind
    case BoolKeys => key.Truth?
    case IntKeys => key.Integer?
    case UintKeys => key.Integer? && key.i >= 0
    case StringKeys => key.Str?
  }

  function FindNumber(fields: seq<Field>, number: int): Option<nat> {
    if fields == [] then None
    else if fields[0].number == number then Some(0)
    else var k := FindNumber(fields[1..], number); if k.None? then None else Some(k.value + 1)
  }

  function FindName(fields: seq<Field>, name: string): Option<nat> {
    if fields == [] then None
    else if fields[0].name == name then Some(0)
    else var k := FindName(fields[1..], name); if k.None? then None else Some(k.value + 1)
  }

  lemma {:induction false} FindNumberFinds(fields: seq<Field>, number: int)
    ensures var k := FindNumber(fields, number);
            if k.Some? then k.value < |fields| && fields[k.value].number == number
            else forall i :: 0 <= i < |fields| ==> fields[i].number != number
  {
    if fields != [] && fields[0].number != number {
      FindNumberFinds(fields[1..], number);
      assert forall i :: 0 < i < |fields| ==> fields[i] == fields[1..][i - 1];
    }
  }

  lemma {:induction false} FindNameFinds(fields: seq<Field>, name: string)
    ensures var k := FindName(fields, name);
            if k.Some? then k.value < |fields| && fields[k.value].name == name
            else forall i :: 0 <= i < |fields| ==> fields[i].name != name
  {
    if fields != [] && fields[0].name != name {
      FindNameFinds(fields[1..], name);
      assert forall i :: 0 < i < |fields| ==> fields[i] == fields[1..][i - 1];
    }
  }

  /** The value of the field with this name, read from the message object. */
  function Read(fields: seq<Field>, name: string): Node {
    FindNameFinds(fields, name);
    var k := FindName(fields, name);
    if k.Some? then fields[k.value].value else Nil
  }

  /** The descriptor's name for a path element: by number first, else by name. */
  function DescriptorName(fields: seq<Field>, element: PathElement): Option<string> {
    FindNumberFinds(fields, element.number);
    var k := FindNumber(fields, element.number);
    if k.Some? then Some(fields[k.value].name)
    else if FindName(fields, element.name).Some? then Some(element.name)
    else None
  }

  /** value[key]. A list counts a negative index from its end. */
  function Subscripted(value: Node, key: Scalar, scalars: ScalarIndex): Outcome {
    match value
    case Nil => Raised
    case Leaf(s) => scalars(s, key)
    case Message(fields) => if key.Str? then Returned(Read(fields, key.s)) else Raised
    case Repeated(elements) =>
      if !key.Integer? then Raised
      else if 0 <= key.i < |elements| then Returned(elements[key.i])
      else if -|elements| <= key.i < 0 then Returned(elements[|elements| + key.i])
      else Returned(Nil)
    case Map(kind, entries) =>
      if !KeyFits(kind, key) then Raised
      else Returned(if key in entries then entries[key] else Nil)
  }

  /** The walk, element by element. */
  function Resolve(path: seq<PathElement>, value: Node, forKey: bool, scalars: ScalarIndex): Outcome {
    if path == [] then Returned(value)
    else if !value.Message? then Returned(Nil)
    else
      var name := DescriptorName(value.fields, path[0]);
      var key := SubscriptOf(path[0].subscript);
      if name.None? then Returned(Nil)
      else
        var field := Read(value.fields, name.value);
        if key.None? then Resolve(path[1..], field, forKey, scalars)
        else if |path| == 1 && forKey then Returned(Leaf(key.value))
        else
          var next := Subscripted(field, key.value, scalars);
          if next.Raised? then Raised else Resolve(path[1..], next.value, forKey, scalars)
  }

  method FieldValue(field: Option<seq<PathElement>>, source: Option<Node>, forKey: bool, scalars: ScalarIndex)
    returns (outcome: Outcome)
    ensures outcome ==
            if source.None? || field.None? then Returned(Nil) else Resolve(field.value, source.value, forKey, scalars)
  {
    if source.None? || field.None? {
      return Returned(Nil);
    }
    var elements := field.value;
    var value := source.value;
    for index := 0 to |elements|
      invariant Resolve(elements, source.value, forKey, scalars) == Resolve(elements[index..], value, forKey, scalars)
    {
      var element := elements[index];
      assert elements[index..][1..] == elements[index + 1..];
      if !value.Message? {
        return Returned(Nil);
      }
      var descriptor := DescriptorName(value.fields, element);
      if descriptor.None? {
        return Returned(Nil);
      }
      value := Read(value.fields, descriptor.value);
      var key := SubscriptOf(element.subscript);
      if key.Some? {
        var last := index == |elements| - 1;
        if last && forKey {
          return Returned(Leaf(key.value));
        }
        var next := Subscripted(value, key.value, scalars);
        if next.Raised? {
          return Raised;
        }
        value := next.value;
      }
    }
    return Returned(value);
  }

  // ---- composition

  /** Resolving a concatenated path resolves its second half from where the
      first half ends. */
  lemma {:induction false} ResolveConcat(p: seq<PathElement>, q: seq<PathElement>, value: Node, forKey: bool, scalars: ScalarIndex)
    requires q != [] || !forKey
    ensures var first := Resolve(p, value, false, scalars);
            Resolve(p + q, value, forKey, scalars) ==
            if first.Raised? then Raised else Resolve(q, first.value, forKey, scalars)
  {
    if p == [] {
      assert p + q == q;
    } else {
      assert (p + q)[1..] == p[1..] + q && (p + q)[0] == p[0];
      if value.Message? && DescriptorName(value.fields, p[0]).Some? {
        var field := Read(value.fields, DescriptorName(value.fields, p[0]).value);
        var key := SubscriptOf(p[0].subscript);
        if key.None? {
          ResolveConcat(p[1..], q, field, forKey, scalars);
        } else {
          assert |p + q| == 1 ==> !forKey;
          var next := Subscripted(field, key.value, scalars);
          if next.Returned? {
            ResolveConcat(p[1..], q, next.value, forKey, scalars);
          }
        }
      }
    }
  }

  /** A field of the message has the element's number or its name. */
  predicate Matches(fields: seq<Field>, element: PathElement) {
    exists i :: 0 <= i < |fields| && (fields[i].number == element.number || fields[i].name == element.name)
  }

  lemma MatchIsFound(fields: seq<Field>, element: PathElement)
    ensures DescriptorName(fields, element).Some? <==> Matches(fields, element)
  {
    FindNumberFinds(fields, element.number);
    FindNameFinds(fields, element.name);
  }

  /** A path that cannot go on resolves to nil: the value is no message, or no
      field has the element's number or name. */
  lemma UnmatchedIsNil(path: seq<PathElement>, value: Node, forKey: bool, scalars: ScalarIndex)
    requires path != [] && (value.Message? ==> !Matches(value.fields, path[0]))
    ensures Resolve(path, value, forKey, scalars) == Returned(Nil)
  {
    if value.Message? {
      MatchIsFound(value.fields, path[0]);
    }
  }

  /** The Ruby object of a subscript, kind by kind. */
  predicate IsSubscript(key: Node, subscript: Subscript) {
    match subscript
    case NoSubscript => false
    case Index(n) => key == Leaf(Integer(n))
    case BoolKey(b) => key == Leaf(Truth(b))
    case IntKey(i) => key == Leaf(Integer(i))
    case UintKey(n) => key == Leaf(Integer(n))
    case StringKey(s) => key == Leaf(Str(s))
  }

  /** A violation about a map key resolves to the last subscript itself once
      the prefix and the last field resolve, whatever the map holds. */
  lemma ForKeyGivesKey(p: seq<PathElement>, last: PathElement, value: Node, scalars: ScalarIndex)
    requires last.subscript != NoSubscript
    ensures var first := Resolve(p, value, false, scalars);
            var whole := Resolve(p + [last], value, true, scalars);
            if first.Raised? then whole.Raised?
            else if first.value.Message? && Matches(first.value.fields, last)
            then whole.Returned? && IsSubscript(whole.value, last.subscript)
            else whole == Returned(Nil)
  {
    ResolveConcat(p, [last], value, true, scalars);
    var first := Resolve(p, value, false, scalars);
    if first.Returned? && first.value.Message? {
      MatchIsFound(first.value.fields, last);
    }
  }

  /** Without a final subscript there is no key: the value is the answer. */
  lemma {:induction false} ForKeyWithoutSubscript(path: seq<PathElement>, value: Node, scalars: ScalarIndex)
    requires path == [] || path[|path| - 1].subscript == NoSubscript
    ensures Resolve(path, value, true, scalars) == Resolve(path, value, false, scalars)
  {
    if path != [] && value.Message? && DescriptorName(value.fields, path[0]).Some? {
      var field := Read(value.fields, DescriptorName(value.fields, path[0]).value);
      var key := SubscriptOf(path[0].subscript);
      if key.None? {
        ForKeyWithoutSubscript(path[1..], field, scalars);
      } else if Subscripted(field, key.value, scalars).Returned? {
        ForKeyWithoutSubscript(path[1..], Subscripted(field, key.value, scalars).value, scalars);
      }
    }
  }

  // ---- subscripts

  /** A list answers a negative index as its reversal answers it from zero. */
  lemma ListsCountFromTheEnd(elements: seq<Node>, reversed: seq<Node>, k: nat, scalars: ScalarIndex)
    requires |reversed| == |elements| && forall i :: 0 <= i < |elements| ==> reversed[i] == elements[|elements| - 1 - i]
    ensures Subscripted(Repeated(elements), Integer(-1 - k), scalars) == Subscripted(Repeated(reversed), Integer(k), scalars)
    ensures k >= |elements| ==> Subscripted(Repeated(elements), Integer(k), scalars) == Returned(Nil)
  {
  }

  /** What raises: a subscript on nil, and one of the wrong type. */
  lemma WrongSubscriptRaises(value: Node, key: Scalar, scalars: ScalarIndex)
    requires || value.Nil? || (value.Message? && !key.Str?) || (value.Repeated? && !key.Integer?)
             || (value.Map? && match value.kind {
                                 case BoolKeys => !key.Truth?
                                 case IntKeys => !key.Integer?
                                 case UintKeys => !key.Integer? || key.i < 0
                                 case StringKeys => !key.Str?
                               })
    ensures Subscripted(value, key, scalars).Raised?
  {
  }

  // ---- locations

  /** A place below a message: a field by its position, and a part of it. */
  datatype Part = Whole | Element(i: nat) | Entry(key: Scalar)
  datatype Step = Step(k: nat, part: Part)

  /** The part of a field's value, if it is there. */
  function PartOf(value: Node, part: Part): Option<Node> {
    match part
    case Whole => Some(value)
    case Element(i) => if value.Repeated? && i < |value.elements| then Some(value.elements[i]) else None
    case Entry(key) => if value.Map? && key in value.entries then Some(value.entries[key]) else None
  }

  function ValueAt(root: Node, location: seq<Step>): Option<Node> {
    if location == [] then Some(root)
    else if !root.Message? || location[0].k >= |root.fields| then None
    else
      var part := PartOf(root.fields[location[0].k].value, location[0].part);
      if part.None? then None else ValueAt(part.value, location[1..])
  }

  predicate UniqueFields(fields: seq<Field>) {
    forall i, j :: 0 <= i < j < |fields| ==> fields[i].number != fields[j].number && fields[i].name != fields[j].name
  }

  /** The path element points at the field, by number or, when no field has
      its number, by name. */
  predicate Describes(element: PathElement, fields: seq<Field>, k: nat)
    requires k < |fields|
  {
    || element.number == fields[k].number
    || (element.name == fields[k].name && forall i :: 0 <= i < |fields| ==> fields[i].number != element.number)
  }

  /** The subscript points at the part: a list's element by its index, a map's
      entry by its key in the kind of the map's keys. */
  predicate Selects(subscript: Subscript, field: Node, part: Part) {
    match part
    case Whole => subscript == NoSubscript
    case Element(i) => subscript == Index(i)
    case Entry(key) =>
      && field.Map?
      && match field.kind
         case BoolKeys => key.Truth? && subscript == BoolKey(key.b)
         case IntKeys => key.Integer? && subscript == IntKey(key.i)
         case UintKeys => key.Integer? && key.i >= 0 && subscript == UintKey(key.i)
         case StringKeys => key.Str? && subscript == StringKey(key.s)
  }

  /** The path points at the location, through messages whose fields have
      unique numbers and names. */
  predicate PointsAt(path: seq<PathElement>, root: Node, location: seq<Step>)
    requires ValueAt(root, location).Some?
  {
    if location == [] then path == []
    else
      var step := location[0];
      var field := root.fields[step.k].value;
      && path != [] && UniqueFields(root.fields)
      && Describes(path[0], root.fields, step.k) && Selects(path[0].subscript, field, step.part)
      && PointsAt(path[1..], PartOf(field, step.part).value, location[1..])
  }

  lemma ReadsField(fields: seq<Field>, k: nat)
    requires k < |fields| && UniqueFields(fields)
    ensures Read(fields, fields[k].name) == fields[k].value
  {
    FindNameFinds(fields, fields[k].name);
  }

  lemma DescribedIsFound(element: PathElement, fields: seq<Field>, k: nat)
    requires k < |fields| && UniqueFields(fields) && Describes(element, fields, k)
    ensures DescriptorName(fields, element) == Some(fields[k].name)
  {
    FindNumberFinds(fields, element.number);
    FindNameFinds(fields, element.name);
  }

  /** A path that points at a location resolves to exactly the value there. */
  lemma {:induction false} LocationResolves(path: seq<PathElement>, root: Node, location: seq<Step>, scalars: ScalarIndex)
    requires ValueAt(root, location).Some? && PointsAt(path, root, location)
    ensures Resolve(path, root, false, scalars) == Returned(ValueAt(root, location).value)
  {
    if location != [] {
      var step := location[0];
      var field := root.fields[step.k].value;
      DescribedIsFound(path[0], root.fields, step.k);
      ReadsField(root.fields, step.k);
      var key := SubscriptOf(path[0].subscript);
      if key.Some? {
        assert Subscripted(field, key.value, scalars) == Returned(PartOf(field, step.part).value);
      }
      LocationResolves(path[1..], PartOf(field, step.part).value, location[1..], scalars);
    }
  }
}
