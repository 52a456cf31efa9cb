/** The field_mask.in and field_mask.not_in rules of validate_pb.rb. */
module FieldMask {
  import opened Names
  import opened Cel

  /** p in getField(rules, f) || getField(rules, f).exists(l, p.startsWith(l + '.')) */
  function Listed(field: string): Expr {
    Or(In(Variable("p"), RulesField(field)),
       Exists(RulesField(field), "f", StartsWith(Variable("p"), Concat(Variable("f"), Literal(Text("."))))))
  }

  const IN_RULE: Rule :=
    Rule("field_mask.in", "in",
         Conditional(Not(All(ThisPaths, "p", Listed("in"))), Literal(Text("must only contain paths in")), Literal(Text(""))))

  const NOT_IN_RULE: Rule :=
    Rule("field_mask.not_in", "not_in",
         Conditional(Not(All(ThisPaths, "p", Not(Listed("not_in")))), Literal(Text("must not contain any paths in")), Literal(Text(""))))

  function Texts(strings: seq<string>): seq<CelValue> {
    seq(|strings|, i requires 0 <= i < |strings| => Text(strings[i]))
  }

  /** An empty repeated field counts as unset. */
  function MaskEnv(paths: seq<string>, field: string, listed: seq<string>): Env {
    Env(List(Texts(paths)), if listed == [] then map[] else map[field := List(Texts(listed))], List([]), map[])
  }

  /** Some listed path's segments are a prefix of the path's segments. */
  predicate Covered(path: string, listed: seq<string>) {
    exists l :: l in listed && Split(l) <= Split(path)
  }

  lemma TextsHold(strings: seq<string>, s: string)
    ensures Text(s) in Texts(strings) <==> s in strings
  {
    if s in strings {
      var i :| 0 <= i < |strings| && strings[i] == s;
      assert Texts(strings)[i] == Text(s);
    }
  }

  lemma {:induction false} ExistsContinued(listed: seq<string>, path: string, env: Env)
    requires "p" in env.variables && env.variables["p"] == Text(path)
    ensures EvalExists(Texts(listed), "f", StartsWith(Variable("p"), Concat(Variable("f"), Literal(Text(".")))), env)
            == Bool(exists l :: l in listed && l + "." <= path)
  {
    var body := StartsWith(Variable("p"), Concat(Variable("f"), Literal(Text("."))));
    if listed != [] {
      var inner := env.(variables := env.variables["f" := Texts(listed)[0]]);
      assert Eval(Variable("f"), inner) == Text(listed[0]) && Eval(Variable("p"), inner) == Text(path);
      assert Eval(Literal(Text(".")), inner) == Text(".");
      assert Eval(Concat(Variable("f"), Literal(Text("."))), inner) == Text(listed[0] + ".");
      assert Eval(body, inner) == Bool(listed[0] + "." <= path);
      assert Texts(listed)[1..] == Texts(listed[1..]);
      ExistsContinued(listed[1..], path, env);
      assert forall l :: l in listed <==> l == listed[0] || l in listed[1..];
    }
  }

  lemma ListedByName(field: string, listed: seq<string>, path: string, env: Env)
    requires "p" in env.variables && env.variables["p"] == Text(path)
    requires field in env.rules && env.rules[field] == List(Texts(listed))
    ensures Eval(In(Variable("p"), RulesField(field)), env) == Bool(path in listed)
  {
    TextsHold(listed, path);
    FieldEvaluates(field, env);
    assert Eval(Variable("p"), env) == Text(path);
  }

  /** The expression tests coverage by segments, for all strings. */
  lemma ListedMeansCovered(field: string, listed: seq<string>, path: string, env: Env)
    requires "p" in env.variables && env.variables["p"] == Text(path)
    requires field in env.rules && env.rules[field] == List(Texts(listed))
    ensures Eval(Listed(field), env) == Bool(Covered(path, listed))
  {
    var x := Variable("p");
    var continued := StartsWith(x, Concat(Variable("f"), Literal(Text("."))));
    ExistsContinued(listed, path, env);
    FieldEvaluates(field, env);
    ExistsEvaluates(RulesField(field), "f", continued, env, Texts(listed));
    ListedByName(field, listed, path, env);
    OrEvaluates(In(x, RulesField(field)), Exists(RulesField(field), "f", continued), env,
                path in listed, exists l :: l in listed && l + "." <= path);
    forall l ensures Split(l) <= Split(path) <==> path == l || l + "." <= path {
      SegmentPrefix(l, path);
    }
  }

  lemma {:induction false} AllPaths(paths: seq<string>, field: string, listed: seq<string>, negated: bool, env: Env)
    requires field in env.rules && env.rules[field] == List(Texts(listed))
    ensures EvalAll(Texts(paths), "p", if negated then Not(Listed(field)) else Listed(field), env)
            == Bool(forall p :: p in paths ==> Covered(p, listed) != negated)
  {
    var body := if negated then Not(Listed(field)) else Listed(field);
    if paths != [] {
      var inner := env.(variables := env.variables["p" := Texts(paths)[0]]);
      ListedMeansCovered(field, listed, paths[0], inner);
      assert Eval(body, inner) == Bool(Covered(paths[0], listed) != negated);
      assert Texts(paths)[1..] == Texts(paths[1..]);
      AllPaths(paths[1..], field, listed, negated, env);
      assert forall p :: p in paths <==> p == paths[0] || p in paths[1..];
    }
  }

  /** The all macro over the mask's paths. */
  lemma MaskEvaluates(paths: seq<string>, field: string, listed: seq<string>, negated: bool)
    requires listed != []
    ensures var all := All(ThisPaths, "p", if negated then Not(Listed(field)) else Listed(field));
            Eval(Not(all), MaskEnv(paths, field, listed)) == Bool(!forall p :: p in paths ==> Covered(p, listed) != negated)
  {
    var env := MaskEnv(paths, field, listed);
    var body := if negated then Not(Listed(field)) else Listed(field);
    AllPaths(paths, field, listed, negated, env);
    assert Eval(ThisPaths, env) == List(Texts(paths));
    AllEvaluates(ThisPaths, "p", body, env, Texts(paths));
    NotEvaluates(All(ThisPaths, "p", body), env, forall p :: p in paths ==> Covered(p, listed) != negated);
  }

  lemma UnsetIsSilent(rule: Rule, env: Env)
    requires rule.field !in env.rules
    ensures Violations([rule], env) == Reports([])
  {
    OneRule(rule, env);
  }

  /** A non-empty field_mask.in accepts exactly the masks whose every path is covered. */
  lemma InRuleReports(paths: seq<string>, listed: seq<string>)
    ensures Violations([IN_RULE], MaskEnv(paths, "in", listed)) ==
            Reports(if listed == [] || forall p :: p in paths ==> Covered(p, listed) then [] else ["field_mask.in"])
  {
    if listed == [] {
      UnsetIsSilent(IN_RULE, MaskEnv(paths, "in", listed));
    } else {
      MaskEvaluates(paths, "in", listed, false);
      MessageRuleReports(IN_RULE, Not(All(ThisPaths, "p", Listed("in"))), "must only contain paths in",
                         MaskEnv(paths, "in", listed), !forall p :: p in paths ==> Covered(p, listed));
    }
  }

  /** field_mask.not_in accepts exactly the masks none of whose paths is covered. */
  lemma NotInRuleReports(paths: seq<string>, listed: seq<string>)
    ensures Violations([NOT_IN_RULE], MaskEnv(paths, "not_in", listed)) ==
            Reports(if exists p :: p in paths && Covered(p, listed) then ["field_mask.not_in"] else [])
  {
    if listed == [] {
      UnsetIsSilent(NOT_IN_RULE, MaskEnv(paths, "not_in", listed));
    } else {
      MaskEvaluates(paths, "not_in", listed, true);
      MessageRuleReports(NOT_IN_RULE, Not(All(ThisPaths, "p", Not(Listed("not_in")))), "must not contain any paths in",
                         MaskEnv(paths, "not_in", listed), exists p :: p in paths && Covered(p, listed));
    }
  }
}
