/** The string.protobuf_fqn and string.protobuf_dot_fqn rules of validate_pb.rb. */
module Fqn {
  import opened Names
  import opened Regexes
  import opened Cel

  const LETTER: seq<(char, char)> := [('A', 'Z'), ('a', 'z'), ('_', '_')]
  const LETTER_OR_DIGIT: seq<(char, char)> := [('A', 'Z'), ('a', 'z'), ('_', '_'), ('0', '9')]

  /** [A-Za-z_][A-Za-z_0-9]* */
  const IDENTIFIER: Regex := Sequence(Class(LETTER), Star(Class(LETTER_OR_DIGIT)))
  const DOT: Regex := Class([('.', '.')])
  const DOT_IDENTIFIER: Regex := Sequence(DOT, IDENTIFIER)

  /** ^[A-Za-z_][A-Za-z_0-9]*(\.[A-Za-z_][A-Za-z_0-9]*)*$ */
  const FQN: Regex := Sequence(IDENTIFIER, Star(DOT_IDENTIFIER))

  /** ^\.[A-Za-z_][A-Za-z_0-9]*(\.[A-Za-z_][A-Za-z_0-9]*)*$ */
  const DOT_FQN: Regex := Sequence(DOT, FQN)

  lemma Classes(c: char)
    ensures InClass(c, LETTER) <==> Letter(c)
    ensures InClass(c, LETTER_OR_DIGIT) <==> LetterOrDigit(c)
    ensures InClass(c, [('.', '.')]) <==> c == '.'
  {
    assert LETTER[0] == ('A', 'Z') && LETTER[1] == ('a', 'z') && LETTER[2] == ('_', '_');
    assert LETTER_OR_DIGIT[0] == ('A', 'Z') && LETTER_OR_DIGIT[1] == ('a', 'z')
        && LETTER_OR_DIGIT[2] == ('_', '_') && LETTER_OR_DIGIT[3] == ('0', '9');
    assert [('.', '.')][0] == ('.', '.');
  }

  lemma {:induction false} StarOfClass(ranges: seq<(char, char)>, s: string)
    ensures Matches(Star(Class(ranges)), s) <==> forall i :: 0 <= i < |s| ==> InClass(s[i], ranges)
    decreases |s|
  {
    if s != "" {
      StarOfClass(ranges, s[1..]);
      if Matches(Star(Class(ranges)), s) {
        var i :| 0 < i <= |s| && Matches(Class(ranges), s[..i]) && Matches(Star(Class(ranges)), s[i..]);
        assert i == 1 && s[..1][0] == s[0];
        forall j | 0 <= j < |s| ensures InClass(s[j], ranges) {
          if j > 0 { assert s[j] == s[1..][j - 1]; }
        }
      }
      if forall i :: 0 <= i < |s| ==> InClass(s[i], ranges) {
        assert Matches(Class(ranges), s[..1]) && Matches(Star(Class(ranges)), s[1..]);
      }
    }
  }

  lemma ClassThen(ranges: seq<(char, char)>, tail: Regex, s: string)
    ensures Matches(Sequence(Class(ranges), tail), s) <==> s != "" && InClass(s[0], ranges) && Matches(tail, s[1..])
  {
    if Matches(Sequence(Class(ranges), tail), s) {
      var i :| 0 <= i <= |s| && Matches(Class(ranges), s[..i]) && Matches(tail, s[i..]);
      assert i == 1 && s[..1][0] == s[0];
    }
    if s != "" && InClass(s[0], ranges) && Matches(tail, s[1..]) {
      assert Matches(Class(ranges), s[..1]);
    }
  }

  lemma IdentifierLanguage(s: string)
    ensures Matches(IDENTIFIER, s) <==> Identifier(s)
  {
    ClassThen(LETTER, Star(Class(LETTER_OR_DIGIT)), s);
    if s != "" {
      StarOfClass(LETTER_OR_DIGIT, s[1..]);
      forall c ensures (InClass(c, LETTER) <==> Letter(c)) && (InClass(c, LETTER_OR_DIGIT) <==> LetterOrDigit(c)) {
        Classes(c);
      }
      assert forall i :: 0 < i < |s| ==> s[i] == s[1..][i - 1];
    }
  }

  lemma IdentifierHasNoDot(s: string)
    requires Identifier(s)
    ensures '.' !in s
  {
  }

  lemma DotIdentifierLanguage(s: string)
    ensures Matches(DOT_IDENTIFIER, s) <==> s != "" && s[0] == '.' && Identifier(s[1..])
  {
    ClassThen([('.', '.')], IDENTIFIER, s);
    if s != "" {
      Classes(s[0]);
      IdentifierLanguage(s[1..]);
    }
  }

  /** Zero or more dotted identifiers. */
  lemma {:induction false} TailLanguage(s: string)
    ensures Matches(Star(DOT_IDENTIFIER), s) <==> s == "" || (s[0] == '.' && DottedName(s[1..]))
    decreases |s|
  {
    if s != "" {
      if Matches(Star(DOT_IDENTIFIER), s) {
        var i :| 0 < i <= |s| && Matches(DOT_IDENTIFIER, s[..i]) && Matches(Star(DOT_IDENTIFIER), s[i..]);
        DotIdentifierLanguage(s[..i]);
        TailLanguage(s[i..]);
        assert s[..i][1..] == s[1..][..i - 1] && s[i..] == s[1..][i - 1..];
        NameFollows(s[1..], i - 1);
      }
      if s[0] == '.' && DottedName(s[1..]) {
        var k := FirstIdentifier(s[1..]);
        DotIdentifierLanguage(s[..k + 1]);
        assert s[..k + 1][1..] == s[1..][..k];
        assert s[k + 1..] == s[1..][k..];
        TailLanguage(s[k + 1..]);
        assert Matches(DOT_IDENTIFIER, s[..k + 1]) && Matches(Star(DOT_IDENTIFIER), s[k + 1..]);
      }
    }
  }

  /** An identifier, and dotted identifiers after it, make a dotted name. */
  lemma NameFollows(s: string, k: nat)
    requires k <= |s| && Identifier(s[..k])
    requires s[k..] == "" || (s[k..][0] == '.' && DottedName(s[k..][1..]))
    ensures DottedName(s)
  {
    IdentifierHasNoDot(s[..k]);
    if k == |s| {
      assert s[..k] == s;
      SplitPlain(s);
    } else {
      assert s == s[..k] + "." + s[k..][1..];
      SplitDotted(s[..k], s[k..][1..]);
    }
  }

  lemma FirstIdentifier(s: string) returns (k: nat)
    requires DottedName(s)
    ensures k <= |s| && Identifier(s[..k])
    ensures s[k..] == "" || (s[k..][0] == '.' && DottedName(s[k..][1..]))
  {
    k := SplitFirst(s);
    assert Split(s)[0] in Split(s);
    if k < |s| {
      assert s[k..][1..] == s[k + 1..];
      assert forall segment :: segment in Split(s[k + 1..]) ==> segment in Split(s);
    }
  }

  /** The language of the protobuf_fqn expression is the dotted names. */
  lemma FqnLanguage(s: string)
    ensures Matches(FQN, s) <==> DottedName(s)
  {
    if Matches(FQN, s) {
      var k :| 0 <= k <= |s| && Matches(IDENTIFIER, s[..k]) && Matches(Star(DOT_IDENTIFIER), s[k..]);
      IdentifierLanguage(s[..k]);
      TailLanguage(s[k..]);
      NameFollows(s, k);
    }
    if DottedName(s) {
      var k := FirstIdentifier(s);
      IdentifierLanguage(s[..k]);
      TailLanguage(s[k..]);
    }
  }

  lemma DotFqnLanguage(s: string)
    ensures Matches(DOT_FQN, s) <==> s != "" && s[0] == '.' && DottedName(s[1..])
  {
    ClassThen([('.', '.')], FQN, s);
    if s != "" {
      Classes(s[0]);
      FqnLanguage(s[1..]);
    }
  }

  // ---- the rules

  /** !rules.f || this == '' || this.matches(regex), and
      !rules.f || this != '' */
  function NameRules(field: string, id: string, regex: Regex): seq<Rule> {
    [Rule(id, field, Or(Or(Not(RulesField(field)), Equal(This, Literal(Text("")))), MatchesRegex(This, regex))),
     Rule(id + "_empty", field, Or(Not(RulesField(field)), Not(Equal(This, Literal(Text(""))))))]
  }

  const FQN_RULES: seq<Rule> := NameRules("protobuf_fqn", "string.protobuf_fqn", FQN)
  const DOT_FQN_RULES: seq<Rule> := NameRules("protobuf_dot_fqn", "string.protobuf_dot_fqn", DOT_FQN)

  function StringEnv(s: string, rules: map<string, CelValue>): Env {
    Env(Text(s), rules, Bool(false), map[])
  }

  lemma NameRulesReport(field: string, id: string, regex: Regex, flag: bool, s: string)
    ensures Violations(NameRules(field, id, regex), StringEnv(s, map[field := Bool(flag)])) ==
            Reports(if !flag then [] else if s == "" then [id + "_empty"] else if Matches(regex, s) then [] else [id])
  {
    var env := StringEnv(s, map[field := Bool(flag)]);
    var rules := NameRules(field, id, regex);
    NameRulesEvaluate(field, id, regex, env, flag, s);
    assert rules == [rules[0]] + [rules[1]];
    ViolationsConcat([rules[0]], [rules[1]], env);
    OneRule(rules[0], env);
    OneRule(rules[1], env);
  }

  lemma NameRulesEvaluate(field: string, id: string, regex: Regex, env: Env, flag: bool, s: string)
    requires field in env.rules && env.rules[field] == Bool(flag) && env.value == Text(s)
    ensures Eval(NameRules(field, id, regex)[0].expression, env) == Bool(!flag || s == "" || Matches(regex, s))
    ensures Eval(NameRules(field, id, regex)[1].expression, env) == Bool(!flag || s != "")
  {
    var unset, empty := Not(RulesField(field)), Equal(This, Literal(Text("")));
    FieldEvaluates(field, env);
    NotEvaluates(RulesField(field), env, flag);
    EmptyEvaluates(env, s);
    NotEvaluates(empty, env, s == "");
    OrEvaluates(unset, empty, env, !flag, s == "");
    RegexEvaluates(regex, env, s);
    OrEvaluates(Or(unset, empty), MatchesRegex(This, regex), env, !flag || s == "", Matches(regex, s));
    OrEvaluates(unset, Not(empty), env, !flag, s != "");
  }

  lemma EmptyEvaluates(env: Env, s: string)
    requires env.value == Text(s)
    ensures Eval(Equal(This, Literal(Text(""))), env) == Bool(s == "")
  {
    assert Eval(Literal(Text("")), env) == Text("") && Eval(This, env) == Text(s);
  }

  lemma RegexEvaluates(regex: Regex, env: Env, s: string)
    requires env.value == Text(s)
    ensures Eval(MatchesRegex(This, regex), env) == Bool(Matches(regex, s))
  {
    assert Eval(This, env) == Text(s);
  }

  /** With the flag set, a string passes exactly when it is a dotted name, and
      otherwise breaks exactly one of the two rules. */
  lemma FqnRulesReport(s: string)
    ensures Violations(FQN_RULES, StringEnv(s, map["protobuf_fqn" := Bool(true)])) ==
            Reports(if DottedName(s) then [] else if s == "" then ["string.protobuf_fqn_empty"] else ["string.protobuf_fqn"])
  {
    NameRulesReport("protobuf_fqn", "string.protobuf_fqn", FQN, true, s);
    assert "string.protobuf_fqn" + "_empty" == "string.protobuf_fqn_empty";
    FqnLanguage(s);
    assert Split("") == [""];
    assert "" in Split("");
  }

  lemma DotFqnRulesReport(s: string)
    ensures Violations(DOT_FQN_RULES, StringEnv(s, map["protobuf_dot_fqn" := Bool(true)])) ==
            Reports(if s == "" then ["string.protobuf_dot_fqn_empty"]
                 else if s[0] == '.' && DottedName(s[1..]) then [] else ["string.protobuf_dot_fqn"])
  {
    NameRulesReport("protobuf_dot_fqn", "string.protobuf_dot_fqn", DOT_FQN, true, s);
    assert "string.protobuf_dot_fqn" + "_empty" == "string.protobuf_dot_fqn_empty";
    DotFqnLanguage(s);
  }
}
