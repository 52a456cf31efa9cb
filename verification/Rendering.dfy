/** field_path: a path printed as `a.b[0].c["key"]` (violation.rb), and what
    the printed form still tells apart. */
module Rendering {
  import opened Memory
  import opened Decimals
  import opened Names
  import opened Paths

  /** The inside of an inspected string, as a function of the string. */
  type Quoting = string -> string

  function Inspect(s: Scalar, quoting: Quoting): string {
    match s
    case Truth(b) => if b then "true" else "false"
    case Integer(i) => Decimal(i)
    case Str(text) => "\"" + quoting(text) + "\""
    case Other(_) => ""
  }

  function Bracketed(subscript: Option<Scalar>, quoting: Quoting): string {
    if subscript.None? then "" else "[" + Inspect(subscript.value, quoting) + "]"
  }

  function RenderElement(element: PathElement, quoting: Quoting): string {
    element.name + Bracketed(SubscriptOf(element.subscript), quoting)
  }

  function Render(path: seq<PathElement>, quoting: Quoting): string {
    if path == [] then ""
    else if |path| == 1 then RenderElement(path[0], quoting)
    else RenderElement(path[0], quoting) + "." + Render(path[1..], quoting)
  }

  function FieldPath(field: Option<seq<PathElement>>, quoting: Quoting): string {
    if field.None? then "" else Render(field.value, quoting)
  }

  /** What printing keeps of a path: names and printed subscripts. */
  function Printed(path: seq<PathElement>): seq<(string, Option<Scalar>)> {
    seq(|path|, i requires 0 <= i < |path| => (path[i].name, SubscriptOf(path[i].subscript)))
  }

  predicate PlainName(name: string) {
    name != "" && '.' !in name && '[' !in name
  }

  predicate PlainNames(path: seq<PathElement>) {
    forall i :: 0 <= i < |path| ==> PlainName(path[i].name)
  }

  // ---- quoting

  /** No quote ends the text early: every quote follows a backslash of its own,
      and no backslash is left over. */
  predicate Escaped(text: string) {
    if text == "" then true
    else if text[0] == '\\' then |text| > 1 && Escaped(text[2..])
    else text[0] != '\"' && Escaped(text[1..])
  }

  ghost predicate Faithful(quoting: Quoting) {
    && (forall s: string :: Escaped(quoting(s)))
    && (forall s: string, t: string :: quoting(s) == quoting(t) ==> s == t)
  }

  /** A quoting that escapes just quotes and backslashes. */
  function Quote(s: string): string {
    if s == "" then ""
    else (if s[0] == '\"' || s[0] == '\\' then ['\\', s[0]] else [s[0]]) + Quote(s[1..])
  }

  lemma {:induction false} QuoteEscapes(s: string)
    ensures Escaped(Quote(s))
  {
    if s != "" {
      QuoteEscapes(s[1..]);
      if s[0] == '\"' || s[0] == '\\' {
        assert Quote(s)[2..] == Quote(s[1..]);
      } else {
        assert Quote(s)[1..] == Quote(s[1..]);
      }
    }
  }

  lemma {:induction false} QuoteInjective(s: string, t: string)
    requires Quote(s) == Quote(t)
    ensures s == t
  {
    if s != "" && t != "" {
      var a := if s[0] == '\"' || s[0] == '\\' then ['\\', s[0]] else [s[0]];
      var b := if t[0] == '\"' || t[0] == '\\' then ['\\', t[0]] else [t[0]];
      assert Quote(s)[0] == a[0] && Quote(t)[0] == b[0];
      assert |a| == |b|;
      assert Quote(s)[|a| - 1] == a[|a| - 1] && Quote(t)[|b| - 1] == b[|b| - 1];
      assert s[0] == t[0];
      assert Quote(s)[|a|..] == Quote(s[1..]) && Quote(t)[|b|..] == Quote(t[1..]);
      QuoteInjective(s[1..], t[1..]);
      assert s == [s[0]] + s[1..] && t == [t[0]] + t[1..];
    }
  }

  /** Escaping quotes and backslashes is enough to be faithful. */
  lemma QuoteIsFaithful()
    ensures Faithful(Quote)
  {
    forall s: string ensures Escaped(Quote(s)) { QuoteEscapes(s); }
    forall s: string, t: string | Quote(s) == Quote(t) ensures s == t { QuoteInjective(s, t); }
  }

  lemma FirstOf(a: string, x: string)
    ensures if a == "" then a + x == x else (a + x)[0] == a[0]
  {
  }

  /** The length of the first escape or plain character. */
  function First(text: string): nat {
    if text != "" && text[0] == '\\' then 2 else 1
  }

  lemma EscapedSplits(text: string)
    requires Escaped(text) && text != ""
    ensures First(text) <= |text| && Escaped(text[First(text)..]) && text[0] != '\"'
  {
  }

  lemma DropFromConcat(a: string, x: string, k: nat)
    requires k <= |a|
    ensures (a + x)[k..] == a[k..] + x && (a + x)[..k] == a[..k]
  {
  }

  /** Two escaped texts before a closing quote end at the same place. */
  lemma {:induction false} EscapedEndsOnce(a: string, x: string, b: string, y: string)
    requires Escaped(a) && Escaped(b)
    requires x != "" && x[0] == '\"' && y != "" && y[0] == '\"'
    requires a + x == b + y
    ensures a == b && x == y
    decreases |a|
  {
    FirstOf(a, x);
    FirstOf(b, y);
    if a != "" { EscapedSplits(a); }
    if b != "" { EscapedSplits(b); }
    if a != "" && b != "" {
      var k := First(a);
      assert a[0] == b[0] && k == First(b);
      DropFromConcat(a, x, k);
      DropFromConcat(b, y, k);
      EscapedEndsOnce(a[k..], x, b[k..], y);
      assert a == a[..k] + a[k..] && b == b[..k] + b[k..];
    }
  }

  // ---- stops

  /** Two texts without the stop characters, each followed by nothing or by a
      stop character, end at the same place. */
  lemma {:induction false} PlainEndsOnce(stops: set<char>, a: string, x: string, b: string, y: string)
    requires (forall c :: c in a ==> c !in stops) && (forall c :: c in b ==> c !in stops)
    requires (x != "" ==> x[0] in stops) && (y != "" ==> y[0] in stops)
    requires a + x == b + y
    ensures a == b && x == y
  {
    if a == "" || b == "" {
      FirstOf(a, x);
      FirstOf(b, y);
    } else {
      assert a[0] == (a + x)[0] == (b + y)[0] == b[0];
      assert (a + x)[1..] == a[1..] + x && (b + y)[1..] == b[1..] + y;
      PlainEndsOnce(stops, a[1..], x, b[1..], y);
      assert a == [a[0]] + a[1..] && b == [b[0]] + b[1..];
    }
  }

  lemma InspectPlain(s: Scalar, quoting: Quoting)
    requires s.Truth? || s.Integer?
    ensures var t := Inspect(s, quoting);
            t != "" && t[0] != '\"' && ']' !in t && (s.Integer? <==> t[0] == '-' || '0' <= t[0] <= '9')
  {
    if s.Integer? {
      DecimalCharacters(s.i);
    }
  }

  /** Inspected subscripts in brackets end at the same place and are the same. */
  lemma InspectInjective(s: Scalar, x: string, t: Scalar, y: string, quoting: Quoting)
    requires Faithful(quoting) && !s.Other? && !t.Other?
    requires Inspect(s, quoting) + "]" + x == Inspect(t, quoting) + "]" + y
    ensures s == t && x == y
  {
    var a, b := Inspect(s, quoting), Inspect(t, quoting);
    assert a + ("]" + x) == a + "]" + x && b + ("]" + y) == b + "]" + y;
    SameKind(s, "]" + x, t, "]" + y, quoting);
    assert ("]" + x)[1..] == x && ("]" + y)[1..] == y;
    if s.Str? {
      assert (a + ("]" + x))[1..] == quoting(s.s) + ("\"]" + x);
      assert (b + ("]" + y))[1..] == quoting(t.s) + ("\"]" + y);
      EscapedEndsOnce(quoting(s.s), "\"]" + x, quoting(t.s), "\"]" + y);
      assert ("\"]" + x)[2..] == x && ("\"]" + y)[2..] == y;
    } else {
      InspectPlain(s, quoting);
      InspectPlain(t, quoting);
      PlainEndsOnce({']'}, a, "]" + x, b, "]" + y);
      PlainInjective(s, t, quoting);
    }
  }

  /** Only strings are inspected with a leading quote. */
  lemma SameKind(s: Scalar, x: string, t: Scalar, y: string, quoting: Quoting)
    requires !s.Other? && !t.Other?
    requires Inspect(s, quoting) + x == Inspect(t, quoting) + y
    ensures s.Str? <==> t.Str?
  {
    FirstOf(Inspect(s, quoting), x);
    FirstOf(Inspect(t, quoting), y);
    if !s.Str? {
      InspectPlain(s, quoting);
    }
    if !t.Str? {
      InspectPlain(t, quoting);
    }
  }

  lemma PlainInjective(s: Scalar, t: Scalar, quoting: Quoting)
    requires (s.Truth? || s.Integer?) && (t.Truth? || t.Integer?)
    requires Inspect(s, quoting) == Inspect(t, quoting)
    ensures s == t
  {
    InspectPlain(s, quoting);
    InspectPlain(t, quoting);
    if s.Integer? {
      DecimalInjective(s.i, t.i);
    } else {
      assert |"true"| != |"false"|;
    }
  }

  /** Field names are identifiers, which are plain. */
  lemma IdentifierIsPlain(name: string)
    requires Identifier(name)
    ensures PlainName(name)
  {
  }

  /** What follows the first element in a rendered path. */
  function AfterElement(path: seq<PathElement>, quoting: Quoting): string
    requires path != []
  {
    if |path| == 1 then "" else "." + Render(path[1..], quoting)
  }

  lemma Continues(path: seq<PathElement>, quoting: Quoting)
    requires path != []
    ensures AfterElement(path, quoting) != "" ==> AfterElement(path, quoting)[0] == '.'
    ensures AfterElement(path, quoting) == "" <==> |path| == 1
  {
  }

  lemma BracketedStarts(subscript: Option<Scalar>, x: string, quoting: Quoting)
    requires x != "" ==> x[0] == '.'
    ensures var t := Bracketed(subscript, quoting) + x;
            (t != "" ==> t[0] in {'[', '.'}) && (subscript.Some? <==> t != "" && t[0] == '[')
  {
    if subscript.None? {
      assert Bracketed(subscript, quoting) + x == x;
    }
  }

  /** A rendered path is its first name, its subscript, and its continuation. */
  lemma RenderSplits(path: seq<PathElement>, quoting: Quoting)
    requires path != []
    ensures Render(path, quoting) ==
            path[0].name + (Bracketed(SubscriptOf(path[0].subscript), quoting) + AfterElement(path, quoting))
  {
    var name, b, rest := path[0].name, Bracketed(SubscriptOf(path[0].subscript), quoting), AfterElement(path, quoting);
    assert name + b + rest == name + (b + rest);
    if |path| == 1 {
      assert name + b + rest == name + b;
    } else {
      assert name + b + "." + Render(path[1..], quoting) == name + b + ("." + Render(path[1..], quoting));
    }
  }

  /** Equal renderings of paths with plain names have the same names and
      the same subscripts, up to the kind of a numeric subscript. */
  lemma {:induction false} RenderInjective(p: seq<PathElement>, q: seq<PathElement>, quoting: Quoting)
    requires Faithful(quoting) && PlainNames(p) && PlainNames(q)
    ensures Render(p, quoting) == Render(q, quoting) <==> Printed(p) == Printed(q)
  {
    if p == [] || q == [] {
      if p != [] { RenderSplits(p, quoting); }
      if q != [] { RenderSplits(q, quoting); }
    } else {
      RenderInjective(p[1..], q[1..], quoting);
      PrintedSplits(p);
      PrintedSplits(q);
      if Render(p, quoting) == Render(q, quoting) {
        SameRendering(p, q, quoting);
      }
      if Printed(p) == Printed(q) {
        SamePrinted(p, q, quoting);
      }
    }
  }

  lemma PrintedSplits(path: seq<PathElement>)
    requires path != []
    ensures Printed(path) == [(path[0].name, SubscriptOf(path[0].subscript))] + Printed(path[1..])
  {
  }

  lemma SamePrinted(p: seq<PathElement>, q: seq<PathElement>, quoting: Quoting)
    requires p != [] && q != [] && Printed(p) == Printed(q)
    requires Printed(p[1..]) == Printed(q[1..]) ==> Render(p[1..], quoting) == Render(q[1..], quoting)
    ensures Render(p, quoting) == Render(q, quoting)
  {
    PrintedSplits(p);
    PrintedSplits(q);
    assert |p| == |Printed(p)| == |q|;
    assert Printed(p[1..]) == Printed(p)[1..] && Printed(q[1..]) == Printed(q)[1..];
    assert Printed(p)[0] == Printed(q)[0];
    RenderSplits(p, quoting);
    RenderSplits(q, quoting);
  }

  lemma SameRendering(p: seq<PathElement>, q: seq<PathElement>, quoting: Quoting)
    requires p != [] && q != [] && Faithful(quoting) && PlainNames(p) && PlainNames(q)
    requires Render(p, quoting) == Render(q, quoting)
    requires Render(p[1..], quoting) == Render(q[1..], quoting) ==> Printed(p[1..]) == Printed(q[1..])
    ensures Printed(p) == Printed(q)
  {
    PrintedSplits(p);
    PrintedSplits(q);
    RenderSplits(p, quoting);
    RenderSplits(q, quoting);
    assert PlainName(p[0].name) && PlainName(q[0].name);
    Continues(p, quoting);
    Continues(q, quoting);
    var x, y := AfterElement(p, quoting), AfterElement(q, quoting);
    var s, t := SubscriptOf(p[0].subscript), SubscriptOf(q[0].subscript);
    BracketedStarts(s, x, quoting);
    BracketedStarts(t, y, quoting);
    PlainEndsOnce({'[', '.'}, p[0].name, Bracketed(s, quoting) + x, q[0].name, Bracketed(t, quoting) + y);
    SubscriptIsNotOther(p[0].subscript);
    SubscriptIsNotOther(q[0].subscript);
    BracketedInjective(s, x, t, y, quoting);
    SameTail(p, q, quoting);
  }

  lemma SubscriptIsNotOther(subscript: Subscript)
    ensures SubscriptOf(subscript).Some? ==> !SubscriptOf(subscript).value.Other?
  {
  }

  lemma BracketedInjective(s: Option<Scalar>, x: string, t: Option<Scalar>, y: string, quoting: Quoting)
    requires Faithful(quoting) && (s.Some? ==> !s.value.Other?) && (t.Some? ==> !t.value.Other?)
    requires (x != "" ==> x[0] == '.') && (y != "" ==> y[0] == '.')
    requires Bracketed(s, quoting) + x == Bracketed(t, quoting) + y
    ensures s == t && x == y
  {
    BracketedStarts(s, x, quoting);
    BracketedStarts(t, y, quoting);
    if s.Some? {
      Unbracket(Inspect(s.value, quoting), x);
      Unbracket(Inspect(t.value, quoting), y);
      InspectInjective(s.value, x, t.value, y, quoting);
    } else {
      assert Bracketed(s, quoting) + x == x && Bracketed(t, quoting) + y == y;
    }
  }

  lemma Unbracket(a: string, x: string)
    ensures ("[" + a + "]" + x)[1..] == a + "]" + x
  {
  }

  /** Paths that go on equally have the same rest, and both or neither go on. */
  lemma SameTail(p: seq<PathElement>, q: seq<PathElement>, quoting: Quoting)
    requires p != [] && q != [] && AfterElement(p, quoting) == AfterElement(q, quoting)
    ensures Render(p[1..], quoting) == Render(q[1..], quoting)
  {
    var x, y := AfterElement(p, quoting), AfterElement(q, quoting);
    Continues(p, quoting);
    Continues(q, quoting);
    if |p| > 1 && |q| > 1 {
      assert x[1..] == Render(p[1..], quoting) && y[1..] == Render(q[1..], quoting);
    }
  }

  /** What prints nothing: no path, an empty one, or a lone element without a
      name and a subscript. */
  lemma EmptyFieldPath(field: Option<seq<PathElement>>, quoting: Quoting)
    ensures FieldPath(field, quoting) == "" <==>
            || field.None? || field.value == []
            || (|field.value| == 1 && field.value[0].name == "" && field.value[0].subscript == NoSubscript)
  {
    if field.Some? && field.value != [] {
      RenderSplits(field.value, quoting);
      Continues(field.value, quoting);
    }
  }

  // ---- which paths no other path prints like

  ghost predicate PrintsAlone(path: seq<PathElement>, quoting: Quoting) {
    forall q: seq<PathElement> :: Render(q, quoting) == Render(path, quoting) ==> Printed(q) == Printed(path)
  }

  ghost predicate EndsInSubscript(name: string, quoting: Quoting) {
    exists m: string, s: Subscript :: s != NoSubscript && name == m + Bracketed(SubscriptOf(s), quoting)
  }

  /** The name cannot be read as anything else: as no name, as two elements, or
      as a name with a subscript. */
  ghost predicate Unambiguous(name: string, quoting: Quoting) {
    name != "" && '.' !in name && !EndsInSubscript(name, quoting)
  }

  function Named(name: string): seq<PathElement> {
    [PathElement(1, name, NoSubscript)]
  }

  lemma NamedRenders(name: string, quoting: Quoting)
    ensures Render(Named(name), quoting) == name && Printed(Named(name)) == [(name, None)]
  {
    assert name + "" == name;
  }

  lemma LongPathHasDot(q: seq<PathElement>, quoting: Quoting)
    ensures |q| > 1 ==> '.' in Render(q, quoting)
  {
    if |q| > 1 {
      assert Render(q, quoting)[|RenderElement(q[0], quoting)|] == '.';
    }
  }

  lemma TwoNamesRender(a: string, b: string, quoting: Quoting)
    ensures Render(Named(a) + Named(b), quoting) == a + "." + b && |Printed(Named(a) + Named(b))| == 2
  {
    var q := Named(a) + Named(b);
    assert q[1..] == Named(b);
    NamedRenders(b, quoting);
    assert a + "" == a;
  }

  lemma UnambiguousPrintsAlone(name: string, q: seq<PathElement>, quoting: Quoting)
    requires Unambiguous(name, quoting) && Render(q, quoting) == name
    ensures Printed(q) == [(name, None)]
  {
    LongPathHasDot(q, quoting);
    assert q[0].subscript == NoSubscript by {
      assert name == q[0].name + Bracketed(SubscriptOf(q[0].subscript), quoting);
    }
    assert q[0].name + "" == q[0].name;
  }

  /** A name that is not unambiguous prints like another path. */
  lemma AmbiguousNamePrintsLike(name: string, quoting: Quoting) returns (q: seq<PathElement>)
    requires !Unambiguous(name, quoting)
    ensures Render(q, quoting) == name && Printed(q) != [(name, None)]
  {
    if name == "" {
      q := [];
    } else if '.' in name {
      var i :| 0 <= i < |name| && name[i] == '.';
      q := Named(name[..i]) + Named(name[i + 1..]);
      TwoNamesRender(name[..i], name[i + 1..], quoting);
      assert name == name[..i] + "." + name[i + 1..];
    } else {
      var m: string, s: Subscript :| s != NoSubscript && name == m + Bracketed(SubscriptOf(s), quoting);
      q := [PathElement(1, m, s)];
      assert Printed(q)[0].1.Some?;
    }
  }

  /** Among all paths, with any names, a path is determined by how it prints
      exactly when it is one name, without a subscript, that is unambiguous:
      a name may always be spelled like the rest of a longer path. */
  lemma PrintsAloneExactly(path: seq<PathElement>, quoting: Quoting)
    ensures PrintsAlone(path, quoting) <==>
            |path| == 1 && path[0].subscript == NoSubscript && Unambiguous(path[0].name, quoting)
  {
    var text := Render(path, quoting);
    NamedRenders(text, quoting);
    if |path| == 1 && path[0].subscript == NoSubscript {
      var name := path[0].name;
      assert text == name && Printed(path) == [(name, None)] by { assert name + "" == name; }
      if Unambiguous(name, quoting) {
        forall q | Render(q, quoting) == text ensures Printed(q) == Printed(path) {
          UnambiguousPrintsAlone(name, q, quoting);
        }
      } else {
        var q := AmbiguousNamePrintsLike(name, quoting);
        assert Render(q, quoting) == text;
      }
    } else {
      assert Render(Named(text), quoting) == text && Printed(Named(text)) != Printed(path) by {
        assert |path| == 1 ==> Printed(path)[0].1.Some?;
      }
    }
  }

  /** An instance: a name with a dot prints like two elements. */
  lemma DottedNameCollides(quoting: Quoting)
    ensures var p, q := [PathElement(1, "a.b", NoSubscript)], [PathElement(1, "a", NoSubscript), PathElement(2, "b", NoSubscript)];
            Render(p, quoting) == Render(q, quoting) && Printed(p) != Printed(q)
  {
    var p, q := [PathElement(1, "a.b", NoSubscript)], [PathElement(1, "a", NoSubscript), PathElement(2, "b", NoSubscript)];
    assert q[1..] == [PathElement(2, "b", NoSubscript)];
    assert Render(q, quoting) == "a" + "." + "b";
    assert |Printed(p)| == 1 && |Printed(q)| == 2;
  }
}
