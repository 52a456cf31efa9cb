/** The lt, lte, gt and gte rules of the numeric rule messages in
    validate_pb.rb. The float and double tables test for NaN; the tables of the
    integer types do not. */
module Intervals {
  import opened Cel

  /** A bound of the less_than or greater_than oneof. */
  datatype Bound = Unbounded | Bound(inclusive: bool, at: CelValue)

  function UpperName(inclusive: bool): string {
    if inclusive then "lte" else "lt"
  }

  function LowerName(inclusive: bool): string {
    if inclusive then "gte" else "gt"
  }

  // ---- the rules

  /** The value is at or beyond the upper bound: this >= rules.lt or this > rules.lte. */
  function TooHigh(inclusive: bool): Expr {
    Compare(if inclusive then Gt else Ge, This, RulesField(UpperName(inclusive)))
  }

  /** The same from the bound's side, as the exclusive rules write it. */
  function BoundBelow(inclusive: bool): Expr {
    Compare(if inclusive then Lt else Le, RulesField(UpperName(inclusive)), This)
  }

  function TooLow(inclusive: bool): Expr {
    Compare(if inclusive then Lt else Le, This, RulesField(LowerName(inclusive)))
  }

  function OrNan(float: bool, e: Expr): Expr {
    if float then Or(IsNan(This), e) else e
  }

  /** rules.lt compared with rules.gt. */
  function Order(op: Comparison, l: bool, u: bool): Expr {
    Compare(op, RulesField(UpperName(u)), RulesField(LowerName(l)))
  }

  function InsideTest(float: bool, l: bool, u: bool): Expr {
    Or(OrNan(float, TooHigh(u)), TooLow(l))
  }

  function ExclusiveTest(float: bool, l: bool, u: bool): Expr {
    OrNan(float, And(BoundBelow(u), TooLow(l)))
  }

  function Guarded(first: Expr, second: Expr, test: Expr, message: string): Expr {
    Conditional(And(And(first, second), test), Literal(Text(message)), Literal(Text("")))
  }

  /** A rule message: the prefix of its rule ids, and whether its type has NaN. */
  datatype Family = Family(prefix: string, float: bool)

  datatype Kind =
    | UpperOnly(upper: bool)
    | LowerOnly(lower: bool)
    | Inside(lower: bool, upper: bool)
    | Exclusive(lower: bool, upper: bool)

  function Suffix(kind: Kind): string {
    match kind
    case UpperOnly(u) => UpperName(u)
    case LowerOnly(l) => LowerName(l)
    case Inside(l, u) => LowerName(l) + "_" + UpperName(u)
    case Exclusive(l, u) => LowerName(l) + "_" + UpperName(u) + "_exclusive"
  }

  function Id(family: Family, kind: Kind): string {
    family.prefix + "." + Suffix(kind)
  }

  function Field(kind: Kind): string {
    if kind.UpperOnly? then UpperName(kind.upper) else LowerName(kind.lower)
  }

  function Expression(float: bool, kind: Kind): Expr {
    match kind
    case UpperOnly(u) =>
      Guarded(Not(Has("gte")), Not(Has("gt")), OrNan(float, TooHigh(u)), "must be less than")
    case LowerOnly(l) =>
      Guarded(Not(Has("lt")), Not(Has("lte")), OrNan(float, TooLow(l)), "must be greater than")
    case Inside(l, u) =>
      Guarded(Has(UpperName(u)), Order(Ge, l, u), InsideTest(float, l, u), "must be between")
    case Exclusive(l, u) =>
      Guarded(Has(UpperName(u)), Order(Lt, l, u), ExclusiveTest(float, l, u), "must be outside")
  }

  const KINDS: seq<Kind> := [
    UpperOnly(false), UpperOnly(true),
    LowerOnly(false), Inside(false, false), Exclusive(false, false), Inside(false, true), Exclusive(false, true),
    LowerOnly(true), Inside(true, false), Exclusive(true, false), Inside(true, true), Exclusive(true, true)]

  function RuleOf(family: Family, kind: Kind): Rule {
    Rule(Id(family, kind), Field(kind), Expression(family.float, kind))
  }

  function Table(family: Family): seq<Rule> {
    seq(|KINDS|, i requires 0 <= i < |KINDS| => RuleOf(family, KINDS[i]))
  }

  // ---- what they should mean

  predicate Number(float: bool, v: CelValue) {
    if float then v.Double? else v.Int?
  }

  predicate IsNaN(v: CelValue) {
    v == Double(NaN)
  }

  predicate Less(a: CelValue, b: CelValue) {
    if a.Int? && b.Int? then a.i < b.i else a.Double? && b.Double? && NumLess(a.d, b.d)
  }

  predicate NumberBound(float: bool, b: Bound) {
    b.Bound? ==> Number(float, b.at)
  }

  predicate NaNBound(b: Bound) {
    b.Bound? && IsNaN(b.at)
  }

  predicate BelowUpper(upper: Bound, v: CelValue) {
    upper.Unbounded? || Less(v, upper.at) || (upper.inclusive && v == upper.at)
  }

  predicate AboveLower(lower: Bound, v: CelValue) {
    lower.Unbounded? || Less(lower.at, v) || (lower.inclusive && v == lower.at)
  }

  /** Between the bounds, or, when the upper bound lies below the lower one,
      on either side of the gap between them. NaN is never allowed. */
  predicate Allowed(upper: Bound, lower: Bound, v: CelValue) {
    if upper.Unbounded? && lower.Unbounded? then true
    else if IsNaN(v) then false
    else if upper.Bound? && lower.Bound? && Less(upper.at, lower.at) then BelowUpper(upper, v) || AboveLower(lower, v)
    else BelowUpper(upper, v) && AboveLower(lower, v)
  }

  function RulesOf(upper: Bound, lower: Bound): map<string, CelValue> {
    (if upper.Bound? then map[UpperName(upper.inclusive) := upper.at] else map[])
    + (if lower.Bound? then map[LowerName(lower.inclusive) := lower.at] else map[])
  }

  function NumberEnv(float: bool, upper: Bound, lower: Bound, v: CelValue): Env {
    Env(v, RulesOf(upper, lower), if float then Double(Finite(0.0)) else Int(0), map[])
  }

  /** A NaN value fails every bound; any other value passes a NaN bound. */
  predicate PassesUpper(upper: Bound, v: CelValue)
    requires upper.Bound?
  {
    !IsNaN(v) && CompareValue(if upper.inclusive then Gt else Ge, v, upper.at) != Bool(true)
  }

  predicate PassesLower(lower: Bound, v: CelValue)
    requires lower.Bound?
  {
    !IsNaN(v) && CompareValue(if lower.inclusive then Lt else Le, v, lower.at) != Bool(true)
  }

  /** The one rule that a choice of bounds leaves able to fire. */
  function Chosen(upper: Bound, lower: Bound): Kind
    requires upper.Bound? || lower.Bound?
  {
    if lower.Unbounded? then UpperOnly(upper.inclusive)
    else if upper.Unbounded? then LowerOnly(lower.inclusive)
    else if Less(upper.at, lower.at) then Exclusive(lower.inclusive, upper.inclusive)
    else Inside(lower.inclusive, upper.inclusive)
  }

  /** What makes the chosen rule fire. A NaN bound silences the two-sided rules. */
  predicate ChosenFires(upper: Bound, lower: Bound, v: CelValue)
    requires upper.Bound? || lower.Bound?
  {
    if lower.Unbounded? then !PassesUpper(upper, v)
    else if upper.Unbounded? then !PassesLower(lower, v)
    else if Less(upper.at, lower.at) then IsNaN(v) || (!PassesUpper(upper, v) && !PassesLower(lower, v))
    else !IsNaN(upper.at) && !IsNaN(lower.at) && (!PassesUpper(upper, v) || !PassesLower(lower, v))
  }

  // ---- evaluating the rules

  lemma GuardedEvaluates(first: Expr, second: Expr, test: Expr, message: string, env: Env, a: bool, b: bool, c: bool)
    requires Eval(first, env) == Bool(a) && Eval(second, env) == Bool(b) && Eval(test, env) == Bool(c)
    ensures Eval(Guarded(first, second, test, message), env) == Text(if a && b && c then message else "")
  {
    AndEvaluates(first, second, env, a, b);
    AndEvaluates(And(first, second), test, env, a && b, c);
    MessageEvaluates(And(And(first, second), test), message, env, a && b && c);
  }

  lemma OrNanEvaluates(float: bool, e: Expr, env: Env, b: bool)
    requires Number(float, env.value) && Eval(e, env) == Bool(b)
    ensures Eval(OrNan(float, e), env) == Bool(IsNaN(env.value) || b)
  {
    if float {
      IsNanEvaluates(env);
      OrEvaluates(IsNan(This), e, env, IsNaN(env.value), b);
    }
  }

  lemma IsNanEvaluates(env: Env)
    requires env.value.Double?
    ensures Eval(IsNan(This), env) == Bool(IsNaN(env.value))
  {
    assert Eval(This, env) == env.value;
  }

  lemma NamesDiffer()
    ensures "lt" != "lte" && "lt" != "gt" && "lt" != "gte" && "lte" != "gt" && "lte" != "gte" && "gt" != "gte"
  {
    assert "lt"[0] != "gt"[0] && "lte"[0] != "gte"[0];
    assert |"lt"| != |"lte"| && |"lt"| != |"gte"| && |"lte"| != |"gt"| && |"gt"| != |"gte"|;
  }

  /** Which fields the rules see as set, and with which values. */
  lemma FieldsAreSet(float: bool, upper: Bound, lower: Bound, v: CelValue, u: bool, l: bool)
    ensures var env := NumberEnv(float, upper, lower, v);
            && (UpperName(u) in env.rules <==> upper.Bound? && upper.inclusive == u)
            && (LowerName(l) in env.rules <==> lower.Bound? && lower.inclusive == l)
            && (UpperName(u) in env.rules ==> env.rules[UpperName(u)] == upper.at)
            && (LowerName(l) in env.rules ==> env.rules[LowerName(l)] == lower.at)
  {
    NamesDiffer();
  }

  lemma NotHasEvaluates(name: string, env: Env)
    ensures Eval(Not(Has(name)), env) == Bool(name !in env.rules)
  {
    assert Eval(Has(name), env) == Bool(name in env.rules);
  }

  lemma UpperOnlyEvaluates(float: bool, u: bool, env: Env, hi: CelValue, high: bool)
    requires Number(float, env.value) && Number(float, hi)
    requires UpperName(u) in env.rules && env.rules[UpperName(u)] == hi
    requires high == CompareValue(if u then Gt else Ge, env.value, hi).b
    ensures Eval(Expression(float, UpperOnly(u)), env) ==
            Text(if "gte" !in env.rules && "gt" !in env.rules && (IsNaN(env.value) || high) then "must be less than" else "")
  {
    var test := OrNan(float, TooHigh(u));
    CompareFields(if u then Gt else Ge, UpperName(u), UpperName(u), env, hi, hi);
    OrNanEvaluates(float, TooHigh(u), env, high);
    NotHasEvaluates("gte", env);
    NotHasEvaluates("gt", env);
    assert Expression(float, UpperOnly(u)) == Guarded(Not(Has("gte")), Not(Has("gt")), test, "must be less than");
    GuardedEvaluates(Not(Has("gte")), Not(Has("gt")), test, "must be less than", env,
                     "gte" !in env.rules, "gt" !in env.rules, IsNaN(env.value) || high);
  }

  lemma LowerOnlyEvaluates(float: bool, l: bool, env: Env, lo: CelValue, low: bool)
    requires Number(float, env.value) && Number(float, lo)
    requires LowerName(l) in env.rules && env.rules[LowerName(l)] == lo
    requires low == CompareValue(if l then Lt else Le, env.value, lo).b
    ensures Eval(Expression(float, LowerOnly(l)), env) ==
            Text(if "lt" !in env.rules && "lte" !in env.rules && (IsNaN(env.value) || low) then "must be greater than" else "")
  {
    var test := OrNan(float, TooLow(l));
    CompareFields(if l then Lt else Le, LowerName(l), LowerName(l), env, lo, lo);
    OrNanEvaluates(float, TooLow(l), env, low);
    NotHasEvaluates("lt", env);
    NotHasEvaluates("lte", env);
    assert Expression(float, LowerOnly(l)) == Guarded(Not(Has("lt")), Not(Has("lte")), test, "must be greater than");
    GuardedEvaluates(Not(Has("lt")), Not(Has("lte")), test, "must be greater than", env,
                     "lt" !in env.rules, "lte" !in env.rules, IsNaN(env.value) || low);
  }

  lemma CompareFields(op: Comparison, a: string, b: string, env: Env, x: CelValue, y: CelValue)
    requires a in env.rules && env.rules[a] == x && b in env.rules && env.rules[b] == y
    ensures Eval(Compare(op, RulesField(a), RulesField(b)), env) == CompareValue(op, x, y)
    ensures Eval(Compare(op, This, RulesField(b)), env) == CompareValue(op, env.value, y)
    ensures Eval(Compare(op, RulesField(a), This), env) == CompareValue(op, x, env.value)
    ensures Eval(Has(a), env) == Bool(true)
  {
    assert Eval(RulesField(a), env) == x && Eval(RulesField(b), env) == y && Eval(This, env) == env.value;
  }

  lemma InsideTestEvaluates(float: bool, l: bool, u: bool, env: Env, hi: CelValue, lo: CelValue, high: bool, low: bool)
    requires Number(float, env.value) && Number(float, hi) && Number(float, lo)
    requires UpperName(u) in env.rules && env.rules[UpperName(u)] == hi
    requires LowerName(l) in env.rules && env.rules[LowerName(l)] == lo
    requires CompareValue(if u then Gt else Ge, env.value, hi) == Bool(high)
    requires CompareValue(if l then Lt else Le, env.value, lo) == Bool(low)
    ensures Eval(InsideTest(float, l, u), env) == Bool(IsNaN(env.value) || high || low)
  {
    CompareFields(if u then Gt else Ge, LowerName(l), UpperName(u), env, lo, hi);
    CompareFields(if l then Lt else Le, UpperName(u), LowerName(l), env, hi, lo);
    OrNanEvaluates(float, TooHigh(u), env, high);
    OrEvaluates(OrNan(float, TooHigh(u)), TooLow(l), env, IsNaN(env.value) || high, low);
  }

  lemma ExclusiveTestEvaluates(float: bool, l: bool, u: bool, env: Env, hi: CelValue, lo: CelValue, high: bool, low: bool)
    requires Number(float, env.value) && Number(float, hi) && Number(float, lo)
    requires UpperName(u) in env.rules && env.rules[UpperName(u)] == hi
    requires LowerName(l) in env.rules && env.rules[LowerName(l)] == lo
    requires CompareValue(if u then Lt else Le, hi, env.value) == Bool(high)
    requires CompareValue(if l then Lt else Le, env.value, lo) == Bool(low)
    ensures Eval(ExclusiveTest(float, l, u), env) == Bool(IsNaN(env.value) || (high && low))
  {
    CompareFields(if u then Lt else Le, UpperName(u), LowerName(l), env, hi, lo);
    CompareFields(if l then Lt else Le, UpperName(u), LowerName(l), env, hi, lo);
    AndEvaluates(BoundBelow(u), TooLow(l), env, high, low);
    OrNanEvaluates(float, And(BoundBelow(u), TooLow(l)), env, high && low);
  }

  /** A two-sided rule is silent when its upper field is unset: false decides
      the guard, whatever the rest evaluates to. */
  lemma GuardedSkips(name: string, second: Expr, test: Expr, message: string, env: Env)
    requires name !in env.rules
    ensures Eval(Guarded(Has(name), second, test, message), env) == Text("")
  {
    assert Eval(Has(name), env) == Bool(false);
    FalseDecides(Has(name), second, env);
    FalseDecides(And(Has(name), second), test, env);
    MessageEvaluates(And(And(Has(name), second), test), message, env, false);
  }

  /** What a two-sided rule evaluates to, from the values of its two tests. */
  lemma TwoSidedEvaluates(l: bool, u: bool, op: Comparison, test: Expr, message: string, env: Env,
                          hi: CelValue, lo: CelValue, order: bool, fails: bool)
    requires UpperName(u) in env.rules && env.rules[UpperName(u)] == hi
    requires LowerName(l) in env.rules && env.rules[LowerName(l)] == lo
    requires CompareValue(op, hi, lo) == Bool(order) && Eval(test, env) == Bool(fails)
    ensures Eval(Guarded(Has(UpperName(u)), Order(op, l, u), test, message), env) == Text(if order && fails then message else "")
  {
    CompareFields(op, UpperName(u), LowerName(l), env, hi, lo);
    GuardedEvaluates(Has(UpperName(u)), Order(op, l, u), test, message, env, true, order, fails);
  }

  lemma InsideEvaluates(float: bool, l: bool, u: bool, env: Env, hi: CelValue, lo: CelValue, order: bool, high: bool, low: bool)
    requires Number(float, env.value) && Number(float, hi) && Number(float, lo)
    requires UpperName(u) in env.rules && env.rules[UpperName(u)] == hi
    requires LowerName(l) in env.rules && env.rules[LowerName(l)] == lo
    requires CompareValue(Ge, hi, lo) == Bool(order)
    requires CompareValue(if u then Gt else Ge, env.value, hi) == Bool(high)
    requires CompareValue(if l then Lt else Le, env.value, lo) == Bool(low)
    ensures Eval(Expression(float, Inside(l, u)), env) ==
            Text(if order && (IsNaN(env.value) || high || low) then "must be between" else "")
  {
    InsideTestEvaluates(float, l, u, env, hi, lo, high, low);
    TwoSidedEvaluates(l, u, Ge, InsideTest(float, l, u), "must be between", env, hi, lo, order, IsNaN(env.value) || high || low);
  }

  lemma ExclusiveEvaluates(float: bool, l: bool, u: bool, env: Env, hi: CelValue, lo: CelValue, order: bool, high: bool, low: bool)
    requires Number(float, env.value) && Number(float, hi) && Number(float, lo)
    requires UpperName(u) in env.rules && env.rules[UpperName(u)] == hi
    requires LowerName(l) in env.rules && env.rules[LowerName(l)] == lo
    requires CompareValue(Lt, hi, lo) == Bool(order)
    requires CompareValue(if u then Lt else Le, hi, env.value) == Bool(high)
    requires CompareValue(if l then Lt else Le, env.value, lo) == Bool(low)
    ensures Eval(Expression(float, Exclusive(l, u)), env) ==
            Text(if order && (IsNaN(env.value) || (high && low)) then "must be outside" else "")
  {
    ExclusiveTestEvaluates(float, l, u, env, hi, lo, high, low);
    TwoSidedEvaluates(l, u, Lt, ExclusiveTest(float, l, u), "must be outside", env, hi, lo, order, IsNaN(env.value) || (high && low));
  }

  /** A one-sided rule on the upper bound. */
  lemma UpperOnlyFires(family: Family, upper: Bound, lower: Bound, v: CelValue, u: bool)
    requires Number(family.float, v) && NumberBound(family.float, upper)
    ensures Judge(RuleOf(family, UpperOnly(u)), NumberEnv(family.float, upper, lower, v)) ==
            Verdict(upper.Bound? && upper.inclusive == u && lower.Unbounded? && !PassesUpper(upper, v))
  {
    var env := NumberEnv(family.float, upper, lower, v);
    FieldsAreSet(family.float, upper, lower, v, u, true);
    FieldsAreSet(family.float, upper, lower, v, u, false);
    if UpperName(u) in env.rules {
      UpperOnlyEvaluates(family.float, u, env, upper.at, CompareValue(if u then Gt else Ge, v, upper.at).b);
    }
  }

  lemma LowerOnlyFires(family: Family, upper: Bound, lower: Bound, v: CelValue, l: bool)
    requires Number(family.float, v) && NumberBound(family.float, lower)
    ensures Judge(RuleOf(family, LowerOnly(l)), NumberEnv(family.float, upper, lower, v)) ==
            Verdict(lower.Bound? && lower.inclusive == l && upper.Unbounded? && !PassesLower(lower, v))
  {
    var env := NumberEnv(family.float, upper, lower, v);
    FieldsAreSet(family.float, upper, lower, v, true, l);
    FieldsAreSet(family.float, upper, lower, v, false, l);
    if LowerName(l) in env.rules {
      LowerOnlyEvaluates(family.float, l, env, lower.at, CompareValue(if l then Lt else Le, v, lower.at).b);
    }
  }

  /** The comparisons of the two-sided rules, in terms of the bounds. */
  lemma OrderDecides(float: bool, upper: Bound, lower: Bound, v: CelValue)
    requires upper.Bound? && lower.Bound? && Number(float, v) && Number(float, upper.at) && Number(float, lower.at)
    ensures CompareValue(Lt, upper.at, lower.at) == Bool(Less(upper.at, lower.at))
    ensures CompareValue(Ge, upper.at, lower.at) == Bool(!Less(upper.at, lower.at) && !IsNaN(upper.at) && !IsNaN(lower.at))
    ensures !IsNaN(v) ==>
      (PassesUpper(upper, v) <==> CompareValue(if upper.inclusive then Lt else Le, upper.at, v) == Bool(false))
  {
  }

  lemma InsideReads(float: bool, upper: Bound, lower: Bound, v: CelValue)
    requires upper.Bound? && lower.Bound? && Number(float, v) && Number(float, upper.at) && Number(float, lower.at)
    ensures Eval(Expression(float, Inside(lower.inclusive, upper.inclusive)), NumberEnv(float, upper, lower, v)) ==
            Text(if && !Less(upper.at, lower.at) && !IsNaN(upper.at) && !IsNaN(lower.at)
                    && (!PassesUpper(upper, v) || !PassesLower(lower, v)) then "must be between" else "")
  {
    var l, u := lower.inclusive, upper.inclusive;
    FieldsAreSet(float, upper, lower, v, u, l);
    OrderDecides(float, upper, lower, v);
    InsideEvaluates(float, l, u, NumberEnv(float, upper, lower, v), upper.at, lower.at,
                    CompareValue(Ge, upper.at, lower.at).b,
                    CompareValue(if u then Gt else Ge, v, upper.at).b, CompareValue(if l then Lt else Le, v, lower.at).b);
  }

  lemma ExclusiveReads(float: bool, upper: Bound, lower: Bound, v: CelValue)
    requires upper.Bound? && lower.Bound? && Number(float, v) && Number(float, upper.at) && Number(float, lower.at)
    ensures Eval(Expression(float, Exclusive(lower.inclusive, upper.inclusive)), NumberEnv(float, upper, lower, v)) ==
            Text(if Less(upper.at, lower.at) && (IsNaN(v) || (!PassesUpper(upper, v) && !PassesLower(lower, v)))
                 then "must be outside" else "")
  {
    var l, u := lower.inclusive, upper.inclusive;
    FieldsAreSet(float, upper, lower, v, u, l);
    OrderDecides(float, upper, lower, v);
    ExclusiveEvaluates(float, l, u, NumberEnv(float, upper, lower, v), upper.at, lower.at,
                       CompareValue(Lt, upper.at, lower.at).b,
                       CompareValue(if u then Lt else Le, upper.at, v).b, CompareValue(if l then Lt else Le, v, lower.at).b);
  }

  /** Whether a two-sided rule fires, from what its expression evaluates to. */
  lemma TwoSidedFires(family: Family, upper: Bound, lower: Bound, v: CelValue, kind: Kind, message: string, fails: bool)
    requires kind.Inside? || kind.Exclusive?
    requires message == (if kind.Inside? then "must be between" else "must be outside")
    requires upper.Bound? && lower.Bound? && upper.inclusive == kind.upper && lower.inclusive == kind.lower ==>
               Eval(Expression(family.float, kind), NumberEnv(family.float, upper, lower, v)) == Text(if fails then message else "")
    ensures Judge(RuleOf(family, kind), NumberEnv(family.float, upper, lower, v)) ==
            Verdict(upper.Bound? && lower.Bound? && upper.inclusive == kind.upper && lower.inclusive == kind.lower && fails)
  {
    var env := NumberEnv(family.float, upper, lower, v);
    FieldsAreSet(family.float, upper, lower, v, kind.upper, kind.lower);
    if LowerName(kind.lower) in env.rules && UpperName(kind.upper) !in env.rules {
      var e := Expression(family.float, kind);
      GuardedSkips(UpperName(kind.upper), e.c.a.b, e.c.b, message, env);
    }
  }

  /** A two-sided rule for bounds in the usual order. */
  lemma InsideFires(family: Family, upper: Bound, lower: Bound, v: CelValue, l: bool, u: bool)
    requires Number(family.float, v) && NumberBound(family.float, upper) && NumberBound(family.float, lower)
    ensures Judge(RuleOf(family, Inside(l, u)), NumberEnv(family.float, upper, lower, v)) ==
            Verdict(&& upper.Bound? && lower.Bound? && upper.inclusive == u && lower.inclusive == l
                    && !Less(upper.at, lower.at) && !IsNaN(upper.at) && !IsNaN(lower.at)
                    && (!PassesUpper(upper, v) || !PassesLower(lower, v)))
  {
    var both := upper.Bound? && lower.Bound? && upper.inclusive == u && lower.inclusive == l;
    if both {
      InsideReads(family.float, upper, lower, v);
    }
    TwoSidedFires(family, upper, lower, v, Inside(l, u), "must be between",
                  both && !Less(upper.at, lower.at) && !IsNaN(upper.at) && !IsNaN(lower.at)
                  && (!PassesUpper(upper, v) || !PassesLower(lower, v)));
  }

  /** A two-sided rule for bounds that leave a gap. */
  lemma ExclusiveFires(family: Family, upper: Bound, lower: Bound, v: CelValue, l: bool, u: bool)
    requires Number(family.float, v) && NumberBound(family.float, upper) && NumberBound(family.float, lower)
    ensures Judge(RuleOf(family, Exclusive(l, u)), NumberEnv(family.float, upper, lower, v)) ==
            Verdict(&& upper.Bound? && lower.Bound? && upper.inclusive == u && lower.inclusive == l
                    && Less(upper.at, lower.at) && (IsNaN(v) || (!PassesUpper(upper, v) && !PassesLower(lower, v))))
  {
    var both := upper.Bound? && lower.Bound? && upper.inclusive == u && lower.inclusive == l;
    if both {
      ExclusiveReads(family.float, upper, lower, v);
    }
    TwoSidedFires(family, upper, lower, v, Exclusive(l, u), "must be outside",
                  both && Less(upper.at, lower.at) && (IsNaN(v) || (!PassesUpper(upper, v) && !PassesLower(lower, v))));
  }

  /** A rule fires exactly when it is the chosen one and the value fails it. */
  lemma KindFires(family: Family, upper: Bound, lower: Bound, v: CelValue, kind: Kind)
    requires Number(family.float, v) && NumberBound(family.float, upper) && NumberBound(family.float, lower)
    ensures Judge(RuleOf(family, kind), NumberEnv(family.float, upper, lower, v)) ==
            Verdict((upper.Bound? || lower.Bound?) && kind == Chosen(upper, lower) && ChosenFires(upper, lower, v))
  {
    match kind
    case UpperOnly(u) => UpperOnlyFires(family, upper, lower, v, u);
    case LowerOnly(l) => LowerOnlyFires(family, upper, lower, v, l);
    case Inside(l, u) => InsideFires(family, upper, lower, v, l, u);
    case Exclusive(l, u) => ExclusiveFires(family, upper, lower, v, l, u);
  }

  lemma KindListedOnce(kind: Kind) returns (k: nat)
    ensures k < |KINDS| && KINDS[k] == kind
    ensures forall i :: 0 <= i < |KINDS| && i != k ==> KINDS[i] != kind
  {
    k := match kind
      case UpperOnly(u) => if u then 1 else 0
      case LowerOnly(l) => if l then 7 else 2
      case Inside(l, u) => (if l then 8 else 3) + (if u then 2 else 0)
      case Exclusive(l, u) => (if l then 9 else 4) + (if u then 2 else 0);
  }

  /** For every choice of bounds, NaN ones included, the table reports the
      chosen rule or nothing. */
  lemma TableReports(family: Family, upper: Bound, lower: Bound, v: CelValue)
    requires Number(family.float, v) && NumberBound(family.float, upper) && NumberBound(family.float, lower)
    ensures Violations(Table(family), NumberEnv(family.float, upper, lower, v)) ==
            Reports(if (upper.Bound? || lower.Bound?) && ChosenFires(upper, lower, v) then [Id(family, Chosen(upper, lower))] else [])
  {
    var env := NumberEnv(family.float, upper, lower, v);
    var table := Table(family);
    forall i | 0 <= i < |table|
      ensures Judge(table[i], env) ==
              Verdict((upper.Bound? || lower.Bound?) && KINDS[i] == Chosen(upper, lower) && ChosenFires(upper, lower, v))
    {
      KindFires(family, upper, lower, v, KINDS[i]);
    }
    if (upper.Bound? || lower.Bound?) && ChosenFires(upper, lower, v) {
      var k := KindListedOnce(Chosen(upper, lower));
      OneBroken(table, env, k);
    } else {
      NoneBroken(table, env);
    }
  }

  lemma FiresOutside(float: bool, upper: Bound, lower: Bound, v: CelValue)
    requires Number(float, v) && NumberBound(float, upper) && NumberBound(float, lower)
    requires upper.Bound? || lower.Bound?
    requires !NaNBound(upper) && !NaNBound(lower)
    ensures ChosenFires(upper, lower, v) <==> !Allowed(upper, lower, v)
  {
  }

  /** Without NaN bounds the table reports exactly one violation for a value
      that the bounds do not allow, and none for any other. */
  lemma IntervalReports(family: Family, upper: Bound, lower: Bound, v: CelValue)
    requires Number(family.float, v) && NumberBound(family.float, upper) && NumberBound(family.float, lower)
    requires !NaNBound(upper) && !NaNBound(lower)
    ensures Violations(Table(family), NumberEnv(family.float, upper, lower, v)) ==
            Reports(if Allowed(upper, lower, v) then [] else [Id(family, Chosen(upper, lower))])
  {
    TableReports(family, upper, lower, v);
    if upper.Bound? || lower.Bound? {
      FiresOutside(family.float, upper, lower, v);
    }
  }

  /** A NaN bound lets every ordinary number through, and next to a second
      bound it lets NaN through too. */
  lemma NaNBoundReports(family: Family, upper: Bound, lower: Bound, v: CelValue)
    requires Number(family.float, v) && NumberBound(family.float, upper) && NumberBound(family.float, lower)
    requires NaNBound(upper) || NaNBound(lower)
    ensures Violations(Table(family), NumberEnv(family.float, upper, lower, v)) ==
            Reports(if IsNaN(v) && (upper.Unbounded? || lower.Unbounded?) then [Id(family, Chosen(upper, lower))] else [])
  {
    TableReports(family, upper, lower, v);
  }

  /** The table decides the interval for every value exactly when no bound is NaN. */
  lemma IntervalDecidedExactly(family: Family, upper: Bound, lower: Bound)
    requires NumberBound(family.float, upper) && NumberBound(family.float, lower)
    ensures (forall v :: Number(family.float, v) ==>
               (Violations(Table(family), NumberEnv(family.float, upper, lower, v)) == Reports([]) <==> Allowed(upper, lower, v)))
            <==> !NaNBound(upper) && !NaNBound(lower)
  {
    if NaNBound(upper) || NaNBound(lower) {
      var zero := Double(Finite(0.0));
      NaNBoundReports(family, upper, lower, zero);
      assert Number(family.float, zero) && !Allowed(upper, lower, zero);
    } else {
      forall v | Number(family.float, v)
        ensures Violations(Table(family), NumberEnv(family.float, upper, lower, v)) == Reports([]) <==> Allowed(upper, lower, v)
      {
        IntervalReports(family, upper, lower, v);
      }
    }
  }
}
