/** What the range rules report, stated on the rules message itself: fields by
    their names, rule ids as they are written in validate_pb.rb, and an order
    of its own. */
module Ranges {
  import opened Cel
  import opened Intervals

  /** Integers in their order; doubles in theirs, with the infinities at the
      ends and NaN outside it. */
  predicate Precedes(a: CelValue, b: CelValue) {
    match (a, b)
    case (Int(x), Int(y)) => x < y
    case (Double(Finite(x)), Double(Finite(y))) => x < y
    case (Double(NegativeInfinity), Double(Finite(_))) => true
    case (Double(NegativeInfinity), Double(PositiveInfinity)) => true
    case (Double(Finite(_)), Double(PositiveInfinity)) => true
    case _ => false
  }

  /** A rules message of the family with at most one upper and one lower bound. */
  predicate RangeRules(float: bool, rules: map<string, CelValue>) {
    && rules.Keys <= {"lt", "lte", "gt", "gte"}
    && !("lt" in rules && "lte" in rules) && !("gt" in rules && "gte" in rules)
    && (forall name :: name in rules ==> if float then rules[name].Double? else rules[name].Int?)
  }

  predicate HasNaN(rules: map<string, CelValue>) {
    exists name :: name in rules && rules[name] == Double(NaN)
  }

  /** The upper bound lies below the lower one. */
  predicate LeavesGap(rules: map<string, CelValue>) {
    || ("lt" in rules && "gt" in rules && Precedes(rules["lt"], rules["gt"]))
    || ("lt" in rules && "gte" in rules && Precedes(rules["lt"], rules["gte"]))
    || ("lte" in rules && "gt" in rules && Precedes(rules["lte"], rules["gt"]))
    || ("lte" in rules && "gte" in rules && Precedes(rules["lte"], rules["gte"]))
  }

  predicate Below(rules: map<string, CelValue>, v: CelValue) {
    && ("lt" in rules ==> Precedes(v, rules["lt"]))
    && ("lte" in rules ==> Precedes(v, rules["lte"]) || v == rules["lte"])
  }

  predicate Above(rules: map<string, CelValue>, v: CelValue) {
    && ("gt" in rules ==> Precedes(rules["gt"], v))
    && ("gte" in rules ==> Precedes(rules["gte"], v) || v == rules["gte"])
  }

  /** v < lt, v <= lte, v > gt, v >= gte; over a gap, one side is enough. */
  predicate Within(rules: map<string, CelValue>, v: CelValue) {
    if rules == map[] then true
    else if v == Double(NaN) then false
    else if LeavesGap(rules) then Below(rules, v) || Above(rules, v)
    else Below(rules, v) && Above(rules, v)
  }

  predicate TwoSided(rules: map<string, CelValue>) {
    ("lt" in rules || "lte" in rules) && ("gt" in rules || "gte" in rules)
  }

  /** Such as int32.lt, int32.gte_lt and int32.gt_lte_exclusive. */
  function ReportedId(prefix: string, rules: map<string, CelValue>): string {
    var lower := if "gt" in rules then "gt" else "gte";
    var upper := if "lt" in rules then "lt" else "lte";
    if TwoSided(rules) then
      prefix + "." + (if LeavesGap(rules) then lower + "_" + upper + "_exclusive" else lower + "_" + upper)
    else
      prefix + "." + (if "lt" in rules || "lte" in rules then upper else lower)
  }

  /** What the family's rules report for a value. */
  ghost function Reported(prefix: string, float: bool, rules: map<string, CelValue>, v: CelValue): Report {
    Violations(Table(Family(prefix, float)), Env(v, rules, if float then Double(Finite(0.0)) else Int(0), map[]))
  }

  // ---- from the names to the bounds

  function UpperIn(rules: map<string, CelValue>): Bound {
    if "lt" in rules then Bound(false, rules["lt"]) else if "lte" in rules then Bound(true, rules["lte"]) else Unbounded
  }

  function LowerIn(rules: map<string, CelValue>): Bound {
    if "gt" in rules then Bound(false, rules["gt"]) else if "gte" in rules then Bound(true, rules["gte"]) else Unbounded
  }

  lemma PrecedesIsLess(a: CelValue, b: CelValue)
    ensures Precedes(a, b) <==> Less(a, b)
  {
  }

  lemma BoundsMakeRules(float: bool, rules: map<string, CelValue>)
    requires RangeRules(float, rules)
    ensures RulesOf(UpperIn(rules), LowerIn(rules)) == rules
  {
    NamesDiffer();
    var made := RulesOf(UpperIn(rules), LowerIn(rules));
    assert forall name :: name in rules ==> name in {"lt", "lte", "gt", "gte"};
    assert made.Keys == rules.Keys;
  }

  lemma WithinIsAllowed(float: bool, rules: map<string, CelValue>, v: CelValue)
    requires RangeRules(float, rules)
    ensures Within(rules, v) <==> Allowed(UpperIn(rules), LowerIn(rules), v)
  {
    var upper, lower := UpperIn(rules), LowerIn(rules);
    forall a, b ensures Precedes(a, b) <==> Less(a, b) { PrecedesIsLess(a, b); }
    if rules != map[] {
      var name :| name in rules;
      assert name in {"lt", "lte", "gt", "gte"};
    }
    assert Below(rules, v) <==> BelowUpper(upper, v);
    assert Above(rules, v) <==> AboveLower(lower, v);
    assert LeavesGap(rules) <==> upper.Bound? && lower.Bound? && Less(upper.at, lower.at);
  }

  lemma IdIsChosen(prefix: string, float: bool, rules: map<string, CelValue>)
    requires RangeRules(float, rules) && rules != map[]
    ensures var upper, lower := UpperIn(rules), LowerIn(rules);
            (upper.Bound? || lower.Bound?) && Id(Family(prefix, float), Chosen(upper, lower)) == ReportedId(prefix, rules)
  {
    var upper, lower := UpperIn(rules), LowerIn(rules);
    var name :| name in rules;
    assert name in {"lt", "lte", "gt", "gte"};
    if TwoSided(rules) {
      PrecedesIsLess(upper.at, lower.at);
    }
  }

  lemma BoundsOfRules(float: bool, rules: map<string, CelValue>)
    requires RangeRules(float, rules)
    ensures NumberBound(float, UpperIn(rules)) && NumberBound(float, LowerIn(rules))
    ensures HasNaN(rules) <==> NaNBound(UpperIn(rules)) || NaNBound(LowerIn(rules))
  {
    if HasNaN(rules) {
      var name :| name in rules && rules[name] == Double(NaN);
      assert name in {"lt", "lte", "gt", "gte"};
    }
  }

  // ---- the reports

  /** Without NaN bounds: one violation, under the id of the fields that are
      set, for a value that they do not allow, and none for any other. */
  lemma RangeReports(prefix: string, float: bool, rules: map<string, CelValue>, v: CelValue)
    requires RangeRules(float, rules) && !HasNaN(rules) && (if float then v.Double? else v.Int?)
    ensures Reported(prefix, float, rules, v) == Reports(if Within(rules, v) then [] else [ReportedId(prefix, rules)])
  {
    BoundsMakeRules(float, rules);
    BoundsOfRules(float, rules);
    WithinIsAllowed(float, rules, v);
    IntervalReports(Family(prefix, float), UpperIn(rules), LowerIn(rules), v);
    if rules != map[] {
      IdIsChosen(prefix, float, rules);
    }
  }

  /** With a NaN bound: nothing but a NaN value, and that only when the bound is
      the only one. */
  lemma NaNRangeReports(prefix: string, float: bool, rules: map<string, CelValue>, v: CelValue)
    requires RangeRules(float, rules) && HasNaN(rules) && (if float then v.Double? else v.Int?)
    ensures Reported(prefix, float, rules, v) ==
            Reports(if v == Double(NaN) && !TwoSided(rules) then [ReportedId(prefix, rules)] else [])
  {
    BoundsMakeRules(float, rules);
    BoundsOfRules(float, rules);
    NaNBoundReports(Family(prefix, float), UpperIn(rules), LowerIn(rules), v);
    IdIsChosen(prefix, float, rules);
  }

  /** The rules decide the range for every value exactly when no bound is NaN. */
  lemma RangeDecidedExactly(prefix: string, float: bool, rules: map<string, CelValue>)
    requires RangeRules(float, rules)
    ensures (forall v: CelValue :: (if float then v.Double? else v.Int?) ==>
               (Reported(prefix, float, rules, v) == Reports([]) <==> Within(rules, v)))
            <==> !HasNaN(rules)
  {
    if HasNaN(rules) {
      var zero := Double(Finite(0.0));
      NaNRangeReports(prefix, float, rules, zero);
      WithinIsAllowed(float, rules, zero);
      BoundsOfRules(float, rules);
      assert !Within(rules, zero);
    } else {
      forall v: CelValue | if float then v.Double? else v.Int?
        ensures Reported(prefix, float, rules, v) == Reports([]) <==> Within(rules, v)
      {
        RangeReports(prefix, float, rules, v);
      }
    }
  }
}
