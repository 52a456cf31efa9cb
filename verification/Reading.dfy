/** The format a.b[0].c["key"] of printed paths, as a reader of its own sees
    it, and that what field_path prints reads back as the path. */
module Reading {
  import opened Decimals
  import opened Memory
  import opened Paths
  import opened Rendering

  /** A printed subscript: a flag, a number, or the inside of a quoted text. */
  datatype Token = Flag(b: bool) | Number(i: int) | Quoted(body: string)

  type Read = (string, Option<Token>)

  // ---- the reader

  /** Where a name or an unquoted subscript ends: at the first stop, if any. */
  function End(s: string, stops: set<char>): (k: nat)
    ensures k <= |s|
  {
    if s == "" || s[0] in stops then 0 else 1 + End(s[1..], stops)
  }

  /** Where a quoted text ends: at the first quote that no backslash precedes. */
  function EndOfText(s: string): (k: nat)
    ensures k <= |s|
  {
    if s == "" || s[0] == '\"' then 0
    else if s[0] == '\\' && |s| > 1 then 2 + EndOfText(s[2..])
    else 1 + EndOfText(s[1..])
  }

  /** true, false, a numeral, or a minus sign and a numeral but zero. */
  function ReadPlain(s: string): Option<Token> {
    if s == "true" then Some(Flag(true))
    else if s == "false" then Some(Flag(false))
    else if Numeral(s) then Some(Number(NumeralValue(s)))
    else if s != "" && s[0] == '-' && Numeral(s[1..]) && s[1..] != "0" then Some(Number(-NumeralValue(s[1..])))
    else None
  }

  /** The subscript after an opening bracket, and what follows its closing one. */
  function ReadSubscript(s: string): (r: Option<(Token, string)>)
    ensures r.Some? ==> |r.value.1| < |s|
  {
    if s != "" && s[0] == '\"' then
      var k := EndOfText(s[1..]);
      var rest := s[1..][k..];
      if |rest| >= 2 && rest[0] == '\"' && rest[1] == ']' then Some((Quoted(s[1..][..k]), rest[2..])) else None
    else
      var k := End(s, {']'});
      if k == |s| then None
      else
        var token := ReadPlain(s[..k]);
        if token.None? then None else Some((token.value, s[k + 1..]))
  }

  /** One element, and what follows it. */
  function ReadElement(s: string): (r: Option<(Read, string)>)
    ensures r.Some? ==> |r.value.1| <= |s|
  {
    var k := End(s, {'.', '['});
    if k < |s| && s[k] == '[' then
      var subscript := ReadSubscript(s[k + 1..]);
      if subscript.None? then None else Some(((s[..k], Some(subscript.value.0)), subscript.value.1))
    else Some(((s[..k], None), s[k..]))
  }

  /** Elements separated by dots. */
  function ReadElements(s: string): Option<seq<Read>>
    decreases |s|
  {
    var first := ReadElement(s);
    if first.None? then None
    else if first.value.1 == "" then Some([first.value.0])
    else if first.value.1[0] != '.' then None
    else
      var others := ReadElements(first.value.1[1..]);
      if others.None? then None else Some([first.value.0] + others.value)
  }

  function ReadPath(s: string): Option<seq<Read>> {
    if s == "" then Some([]) else ReadElements(s)
  }

  // ---- what should be read

  function TokenOf(subscript: Subscript, quoting: Quoting): Option<Token> {
    match subscript
    case NoSubscript => None
    case Index(n) => Some(Number(n))
    case BoolKey(b) => Some(Flag(b))
    case IntKey(i) => Some(Number(i))
    case UintKey(n) => Some(Number(n))
    case StringKey(s) => Some(Quoted(quoting(s)))
  }

  function Elements(path: seq<PathElement>, quoting: Quoting): seq<Read> {
    if path == [] then []
    else [(path[0].name, TokenOf(path[0].subscript, quoting))] + Elements(path[1..], quoting)
  }

  // ---- reading what is printed

  lemma {:induction false} EndsAtStop(a: string, x: string, stops: set<char>)
    requires (forall c :: c in a ==> c !in stops) && (x != "" ==> x[0] in stops)
    ensures End(a + x, stops) == |a|
  {
    if a == "" {
      assert a + x == x;
    } else {
      assert (a + x)[0] == a[0] && (a + x)[1..] == a[1..] + x;
      EndsAtStop(a[1..], x, stops);
    }
  }

  lemma {:induction false} EndsAtQuote(a: string, x: string)
    requires Escaped(a) && x != "" && x[0] == '\"'
    ensures EndOfText(a + x) == |a|
    decreases |a|
  {
    if a == "" {
      assert a + x == x;
    } else {
      var k := First(a);
      EscapedSplits(a);
      assert (a + x)[0] == a[0];
      DropFromConcat(a, x, k);
      EndsAtQuote(a[k..], x);
    }
  }

  lemma TakeFromConcat(a: string, x: string)
    ensures (a + x)[..|a|] == a && (a + x)[|a|..] == x
  {
  }

  lemma IntegerReads(i: int)
    ensures ReadPlain(Decimal(i)) == Some(Number(i))
  {
    DecimalMeansInteger(i);
    DecimalCharacters(i);
    var s := Decimal(i);
    assert s != "true" && s != "false" by {
      assert "true"[0] == 't' && "false"[0] == 'f';
    }
    if i < 0 {
      assert NumeralValue("0") == 0 by { assert "0"[..0] == ""; }
    }
  }

  lemma FlagReads(b: bool)
    ensures ReadPlain(if b then "true" else "false") == Some(Flag(b))
  {
    assert |"true"| != |"false"|;
  }

  lemma PlainReads(s: Scalar, x: string, quoting: Quoting)
    requires s.Truth? || s.Integer?
    ensures ReadSubscript(Inspect(s, quoting) + "]" + x) ==
            Some((if s.Truth? then Flag(s.b) else Number(s.i), x))
  {
    var t := Inspect(s, quoting);
    InspectPlain(s, quoting);
    assert t + "]" + x == t + ("]" + x);
    EndsAtStop(t, "]" + x, {']'});
    TakeFromConcat(t, "]" + x);
    assert (t + ("]" + x))[|t| + 1..] == x && (t + ("]" + x))[0] == t[0];
    if s.Truth? { FlagReads(s.b); } else { IntegerReads(s.i); }
  }

  lemma TextReads(text: string, x: string, quoting: Quoting)
    requires Escaped(quoting(text))
    ensures ReadSubscript(Inspect(Str(text), quoting) + "]" + x) == Some((Quoted(quoting(text)), x))
  {
    var body := quoting(text);
    var s := Inspect(Str(text), quoting) + "]" + x;
    assert s[1..] == body + ("\"]" + x);
    EndsAtQuote(body, "\"]" + x);
    TakeFromConcat(body, "\"]" + x);
    assert ("\"]" + x)[2..] == x;
  }

  lemma SubscriptReads(subscript: Subscript, x: string, quoting: Quoting)
    requires subscript != NoSubscript && forall s: string :: Escaped(quoting(s))
    ensures SubscriptOf(subscript).Some?
    ensures ReadSubscript(Inspect(SubscriptOf(subscript).value, quoting) + "]" + x) ==
            Some((TokenOf(subscript, quoting).value, x))
  {
    var s := SubscriptOf(subscript).value;
    if s.Str? {
      TextReads(s.s, x, quoting);
    } else {
      PlainReads(s, x, quoting);
    }
  }

  lemma ElementReads(element: PathElement, x: string, quoting: Quoting)
    requires PlainName(element.name) && (forall s: string :: Escaped(quoting(s))) && (x != "" ==> x[0] == '.')
    ensures ReadElement(RenderElement(element, quoting) + x) ==
            Some(((element.name, TokenOf(element.subscript, quoting)), x))
  {
    var name, b := element.name, Bracketed(SubscriptOf(element.subscript), quoting);
    assert name + b + x == name + (b + x);
    BracketedStarts(SubscriptOf(element.subscript), x, quoting);
    EndsAtStop(name, b + x, {'.', '['});
    TakeFromConcat(name, b + x);
    if element.subscript != NoSubscript {
      SubscriptReads(element.subscript, x, quoting);
      assert (name + (b + x))[|name| + 1..] == Inspect(SubscriptOf(element.subscript).value, quoting) + "]" + x;
    } else {
      assert b + x == x;
    }
  }

  lemma RenderContinues(path: seq<PathElement>, quoting: Quoting)
    requires path != []
    ensures Render(path, quoting) == RenderElement(path[0], quoting) + AfterElement(path, quoting)
  {
    var first := RenderElement(path[0], quoting);
    if |path| == 1 {
      assert first + "" == first;
    } else {
      assert first + "." + Render(path[1..], quoting) == first + ("." + Render(path[1..], quoting));
    }
  }

  lemma RestReads(s: string, read: Read, more: bool, rest: string, others: seq<Read>)
    requires ReadElement(s) == Some((read, if more then "." + rest else ""))
    requires if more then ReadElements(rest) == Some(others) else others == []
    ensures ReadElements(s) == Some([read] + others)
  {
    if more {
      assert ("." + rest)[1..] == rest;
    } else {
      assert [read] + others == [read];
    }
  }

  lemma FirstReads(path: seq<PathElement>, quoting: Quoting)
    requires path != [] && PlainNames(path) && forall s: string :: Escaped(quoting(s))
    ensures ReadElement(Render(path, quoting)) ==
            Some(((path[0].name, TokenOf(path[0].subscript, quoting)), AfterElement(path, quoting)))
  {
    RenderContinues(path, quoting);
    Continues(path, quoting);
    assert PlainName(path[0].name);
    ElementReads(path[0], AfterElement(path, quoting), quoting);
  }

  lemma ElementsSplit(path: seq<PathElement>, quoting: Quoting)
    requires path != []
    ensures Elements(path, quoting) == [(path[0].name, TokenOf(path[0].subscript, quoting))] + Elements(path[1..], quoting)
    ensures AfterElement(path, quoting) == if |path| == 1 then "" else "." + Render(path[1..], quoting)
    ensures |path| == 1 ==> Elements(path[1..], quoting) == []
    ensures PlainNames(path) ==> PlainNames(path[1..])
  {
  }

  lemma {:induction false} ElementsRead(path: seq<PathElement>, quoting: Quoting)
    requires path != [] && PlainNames(path) && forall s: string :: Escaped(quoting(s))
    ensures ReadElements(Render(path, quoting)) == Some(Elements(path, quoting))
  {
    var read: Read := (path[0].name, TokenOf(path[0].subscript, quoting));
    FirstReads(path, quoting);
    ElementsSplit(path, quoting);
    if |path| > 1 {
      ElementsRead(path[1..], quoting);
    }
    RestReads(Render(path, quoting), read, |path| > 1, Render(path[1..], quoting), Elements(path[1..], quoting));
  }

  /** For plain names, reading a printed path gives back its names and its
      subscripts: flags and numbers by their values, texts as they are quoted. */
  lemma PrintedPathReads(path: seq<PathElement>, quoting: Quoting)
    requires PlainNames(path) && forall s: string :: Escaped(quoting(s))
    ensures ReadPath(FieldPath(Some(path), quoting)) == Some(Elements(path, quoting))
  {
    if path != [] {
      RenderSplits(path, quoting);
      assert PlainName(path[0].name);
      ElementsRead(path, quoting);
    }
  }

  /** What a backslash hides, shown: the inside of a quoted text as a text. */
  function Unquote(s: string): string {
    if s == "" then ""
    else if s[0] == '\\' && |s| > 1 then [s[1]] + Unquote(s[2..])
    else [s[0]] + Unquote(s[1..])
  }

  lemma {:induction false} QuoteReads(s: string)
    ensures Unquote(Quote(s)) == s
  {
    if s != "" {
      QuoteReads(s[1..]);
      if s[0] == '\"' || s[0] == '\\' {
        assert Quote(s)[2..] == Quote(s[1..]);
      } else {
        assert Quote(s)[1..] == Quote(s[1..]);
      }
      assert s == [s[0]] + s[1..];
    }
  }
}
