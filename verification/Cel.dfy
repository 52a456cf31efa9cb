/** The fragment of the Common Expression Language that the modelled rules are
    written in, with its error-absorbing logical operators and its macros, and
    how a table of rules turns into violations. */
module Cel {
  import opened Regexes

  /** A double, up to rounding. */
  datatype Num = NaN | NegativeInfinity | Finite(r: real) | PositiveInfinity

  predicate NumLess(a: Num, b: Num) {
    && a != NaN && b != NaN && a != PositiveInfinity && b != NegativeInfinity
    && (a == NegativeInfinity || b == PositiveInfinity || a.r < b.r)
  }

  predicate NumEqual(a: Num, b: Num) {
    a != NaN && a == b
  }

  datatype CelValue =
    | Bool(b: bool)
    | Int(i: int)
    | Double(d: Num)
    | Text(s: string)
    | List(elements: seq<CelValue>)
    | Error

  datatype Comparison = Lt | Le | Gt | Ge

  datatype Expr =
    | Literal(v: CelValue)
    | This
    | ThisPaths
    | RulesField(name: string)
    | Has(name: string)
    | Variable(name: string)
    | Not(e: Expr)
    | And(a: Expr, b: Expr)
    | Or(a: Expr, b: Expr)
    | Compare(op: Comparison, a: Expr, b: Expr)
    | Equal(a: Expr, b: Expr)
    | IsNan(e: Expr)
    | In(a: Expr, list: Expr)
    | Concat(a: Expr, b: Expr)
    | StartsWith(a: Expr, b: Expr)
    | MatchesRegex(e: Expr, regex: Regex)
    | All(list: Expr, variable: string, body: Expr)
    | Exists(list: Expr, variable: string, body: Expr)
    | Conditional(c: Expr, t: Expr, e: Expr)

  /** What an expression sees: the field's value, the rules message with its
      set fields and the default of the others, and macro variables. */
  datatype Env = Env(value: CelValue, rules: map<string, CelValue>, unset: CelValue, variables: map<string, CelValue>)

  function NotValue(a: CelValue): CelValue {
    if a.Bool? then Bool(!a.b) else Error
  }

  /** A false operand decides a conjunction even next to an error. */
  function AndValue(a: CelValue, b: CelValue): CelValue {
    if a == Bool(false) || b == Bool(false) then Bool(false)
    else if a == Bool(true) && b == Bool(true) then Bool(true)
    else Error
  }

  function OrValue(a: CelValue, b: CelValue): CelValue {
    if a == Bool(true) || b == Bool(true) then Bool(true)
    else if a == Bool(false) && b == Bool(false) then Bool(false)
    else Error
  }

  function CompareValue(op: Comparison, a: CelValue, b: CelValue): CelValue {
    if a.Int? && b.Int? then
      Bool(match op case Lt => a.i < b.i case Le => a.i <= b.i case Gt => a.i > b.i case Ge => a.i >= b.i)
    else if a.Double? && b.Double? then
      Bool(match op
           case Lt => NumLess(a.d, b.d)
           case Le => NumLess(a.d, b.d) || NumEqual(a.d, b.d)
           case Gt => NumLess(b.d, a.d)
           case Ge => NumLess(b.d, a.d) || NumEqual(a.d, b.d))
    else Error
  }

  ghost function Eval(e: Expr, env: Env): CelValue
    decreases e, 1
  {
    match e
    case Literal(v) => v
    case This => env.value
    case ThisPaths => if env.value.List? then env.value else Error
    case RulesField(name) => if name in env.rules then env.rules[name] else env.unset
    case Has(name) => Bool(name in env.rules)
    case Variable(name) => if name in env.variables then env.variables[name] else Error
    case Not(x) => NotValue(Eval(x, env))
    case And(a, b) => AndValue(Eval(a, env), Eval(b, env))
    case Or(a, b) => OrValue(Eval(a, env), Eval(b, env))
    case Compare(op, a, b) => CompareValue(op, Eval(a, env), Eval(b, env))
    case Equal(a, b) =>
      var x, y := Eval(a, env), Eval(b, env);
      if x.Error? || y.Error? then Error
      else if x.Double? && y.Double? then Bool(NumEqual(x.d, y.d))
      else Bool(x == y)
    case IsNan(x) => var v := Eval(x, env); if v.Double? then Bool(v.d == NaN) else Error
    case In(a, list) =>
      var x, l := Eval(a, env), Eval(list, env);
      if x.Text? && l.List? then Bool(x in l.elements) else Error
    case Concat(a, b) =>
      var x, y := Eval(a, env), Eval(b, env);
      if x.Text? && y.Text? then Text(x.s + y.s) else Error
    case StartsWith(a, b) =>
      var x, y := Eval(a, env), Eval(b, env);
      if x.Text? && y.Text? then Bool(y.s <= x.s) else Error
    case MatchesRegex(x, regex) => var v := Eval(x, env); if v.Text? then Bool(Matches(regex, v.s)) else Error
    case All(list, variable, body) =>
      var l := Eval(list, env); if l.List? then EvalAll(l.elements, variable, body, env) else Error
    case Exists(list, variable, body) =>
      var l := Eval(list, env); if l.List? then EvalExists(l.elements, variable, body, env) else Error
    case Conditional(c, t, x) =>
      var v := Eval(c, env); if v == Bool(true) then Eval(t, env) else if v == Bool(false) then Eval(x, env) else Error
  }

  /** The macros fold the logical operators over the list. */
  ghost function EvalAll(elements: seq<CelValue>, variable: string, body: Expr, env: Env): CelValue
    decreases body, 2, |elements|
  {
    if elements == [] then Bool(true)
    else AndValue(Eval(body, env.(variables := env.variables[variable := elements[0]])), EvalAll(elements[1..], variable, body, env))
  }

  ghost function EvalExists(elements: seq<CelValue>, variable: string, body: Expr, env: Env): CelValue
    decreases body, 2, |elements|
  {
    if elements == [] then Bool(false)
    else OrValue(Eval(body, env.(variables := env.variables[variable := elements[0]])), EvalExists(elements[1..], variable, body, env))
  }

  // ---- one step of evaluation

  lemma NotEvaluates(a: Expr, env: Env, x: bool)
    requires Eval(a, env) == Bool(x)
    ensures Eval(Not(a), env) == Bool(!x)
  {
  }

  lemma OrEvaluates(a: Expr, b: Expr, env: Env, x: bool, y: bool)
    requires Eval(a, env) == Bool(x) && Eval(b, env) == Bool(y)
    ensures Eval(Or(a, b), env) == Bool(x || y)
  {
  }

  lemma AndEvaluates(a: Expr, b: Expr, env: Env, x: bool, y: bool)
    requires Eval(a, env) == Bool(x) && Eval(b, env) == Bool(y)
    ensures Eval(And(a, b), env) == Bool(x && y)
  {
  }

  /** False decides a conjunction whatever the other operand evaluates to. */
  lemma FalseDecides(a: Expr, b: Expr, env: Env)
    requires Eval(a, env) == Bool(false)
    ensures Eval(And(a, b), env) == Bool(false)
  {
  }

  /** An operand that decides does so next to an error, on either side; one
      that does not leaves the error. */
  lemma ErrorsAreAbsorbed(a: Expr, b: Expr, env: Env)
    requires Eval(b, env) == Error
    ensures Eval(a, env) == Bool(false) ==> Eval(And(a, b), env) == Eval(And(b, a), env) == Bool(false)
    ensures Eval(a, env) == Bool(true) ==> Eval(Or(a, b), env) == Eval(Or(b, a), env) == Bool(true)
    ensures Eval(a, env) == Bool(true) ==> Eval(And(a, b), env) == Eval(And(b, a), env) == Error
    ensures Eval(a, env) == Bool(false) ==> Eval(Or(a, b), env) == Eval(Or(b, a), env) == Error
  {
  }

  lemma MessageEvaluates(c: Expr, message: string, env: Env, x: bool)
    requires Eval(c, env) == Bool(x)
    ensures Eval(Conditional(c, Literal(Text(message)), Literal(Text(""))), env) == Text(if x then message else "")
  {
    assert Eval(Literal(Text(message)), env) == Text(message) && Eval(Literal(Text("")), env) == Text("");
  }

  lemma AllEvaluates(list: Expr, variable: string, body: Expr, env: Env, elements: seq<CelValue>)
    requires Eval(list, env) == List(elements)
    ensures Eval(All(list, variable, body), env) == EvalAll(elements, variable, body, env)
  {
  }

  lemma ExistsEvaluates(list: Expr, variable: string, body: Expr, env: Env, elements: seq<CelValue>)
    requires Eval(list, env) == List(elements)
    ensures Eval(Exists(list, variable, body), env) == EvalExists(elements, variable, body, env)
  {
  }

  lemma FieldEvaluates(name: string, env: Env)
    requires name in env.rules
    ensures Eval(RulesField(name), env) == env.rules[name]
  {
  }

  // ---- rules

  /** A rule attached to a field of a rules message: it is evaluated when that
      field is set. */
  datatype Rule = Rule(id: string, field: string, expression: Expr)

  /** A non-empty string or false breaks a rule. Anything but a string or a
      boolean is an error, which is reported as such and not as a violation. */
  datatype Judgment = Passes | Breaks | Errs

  ghost function Judge(rule: Rule, env: Env): Judgment {
    if rule.field !in env.rules then Passes
    else match Eval(rule.expression, env)
      case Text(s) => Verdict(s != "")
      case Bool(b) => Verdict(!b)
      case _ => Errs
  }

  function Verdict(breaks: bool): Judgment {
    if breaks then Breaks else Passes
  }

  /** The ids of the broken rules; when a rule errs, the evaluation fails. */
  datatype Report = Fails | Reports(ids: seq<string>)

  ghost function Violations(table: seq<Rule>, env: Env): Report {
    if table == [] then Reports([])
    else
      var rest := Violations(table[1..], env);
      match Judge(table[0], env)
      case Errs => Fails
      case Passes => rest
      case Breaks => if rest.Fails? then Fails else Reports([table[0].id] + rest.ids)
  }

  lemma {:induction false} NoneBroken(table: seq<Rule>, env: Env)
    requires forall i :: 0 <= i < |table| ==> Judge(table[i], env) == Passes
    ensures Violations(table, env) == Reports([])
  {
    if table != [] {
      NoneBroken(table[1..], env);
    }
  }

  lemma {:induction false} OneBroken(table: seq<Rule>, env: Env, k: nat)
    requires k < |table| && Judge(table[k], env) == Breaks
    requires forall i :: 0 <= i < |table| && i != k ==> Judge(table[i], env) == Passes
    ensures Violations(table, env) == Reports([table[k].id])
  {
    if k == 0 {
      NoneBroken(table[1..], env);
    } else {
      OneBroken(table[1..], env, k - 1);
    }
  }

  /** A report comes back exactly when no rule errs. */
  lemma {:induction false} ReportedWithoutError(table: seq<Rule>, env: Env)
    ensures Violations(table, env).Reports? <==> forall i :: 0 <= i < |table| ==> Judge(table[i], env) != Errs
  {
    if table != [] {
      ReportedWithoutError(table[1..], env);
      assert forall i :: 0 < i < |table| ==> table[i] == table[1..][i - 1];
      assert forall i :: 0 <= i < |table[1..]| ==> table[1..][i] == table[i + 1];
    }
  }

  /** A set rule whose expression is an error fails the evaluation. */
  lemma ErrorFails(table: seq<Rule>, env: Env, k: nat)
    requires k < |table| && table[k].field in env.rules && Eval(table[k].expression, env) == Error
    ensures Violations(table, env) == Fails
  {
    ReportedWithoutError(table, env);
    assert Judge(table[k], env) == Errs;
  }

  lemma OneRule(rule: Rule, env: Env)
    ensures Violations([rule], env) ==
            match Judge(rule, env) { case Errs => Fails case Passes => Reports([]) case Breaks => Reports([rule.id]) }
  {
    assert [rule][1..] == [];
  }

  /** A rule that returns a message under a condition. */
  lemma MessageRuleReports(rule: Rule, c: Expr, message: string, env: Env, x: bool)
    requires rule.expression == Conditional(c, Literal(Text(message)), Literal(Text(""))) && message != ""
    requires rule.field in env.rules && Eval(c, env) == Bool(x)
    ensures Violations([rule], env) == Reports(if x then [rule.id] else [])
  {
    MessageEvaluates(c, message, env, x);
    OneRule(rule, env);
  }

  lemma {:induction false} ViolationsConcat(a: seq<Rule>, b: seq<Rule>, env: Env)
    ensures var x, y := Violations(a, env), Violations(b, env);
            Violations(a + b, env) == if x.Fails? || y.Fails? then Fails else Reports(x.ids + y.ids)
  {
    if a == [] {
      assert a + b == b;
    } else {
      assert (a + b)[1..] == a[1..] + b;
      ViolationsConcat(a[1..], b, env);
    }
  }
}
