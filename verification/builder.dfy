/** The structural pass from the parse tree to the script AST, and the error
    values it and its caller produce. Building is fail-fast: the first
    parameter that fails its numeric check ends the whole parse with a
    `SourceError` at that parameter's start position, and no script. */
module Builder {
  import opened Results
  import opened Decimal
  import opened Ast
  import Tree

  /** A token that matched the grammar but failed a numeric check. */
  datatype SourceError = SourceError(line: nat, col: nat, description: string)

  datatype Error =
    | PestError(message: string)
    | FailedPathLoad
    | InSource(source: SourceError)

  const INVALID_NUMBER: string := "Invalid parameter number."
  const INVALID_STRING_REGISTER: string := "Invalid string register."
  const INVALID_REGISTER: string := "Invalid register."
  const INVALID_POSITION_REGISTER: string := "Invalid position register."

  /** `SourceError::to_string`. */
  function SourceErrorMessage(e: SourceError): (m: string)
    ensures var d := |e.description|;
      && |m| == 7 + d + 11 + |NatToDecimal(e.line)| + 7 + |NatToDecimal(e.col)|
      && m[..7] == "Error '"
      && m[7..7 + d] == e.description
      && m[7 + d..7 + d + 11] == "' at Line: "
      && m[7 + d + 11..7 + d + 11 + |NatToDecimal(e.line)|] == NatToDecimal(e.line)
      && m[|m| - |NatToDecimal(e.col)| - 7..|m| - |NatToDecimal(e.col)|] == ", Col: "
      && m[|m| - |NatToDecimal(e.col)|..] == NatToDecimal(e.col)
  {
    "Error '" + (e.description + ("' at Line: " + (NatToDecimal(e.line)
    + (", Col: " + NatToDecimal(e.col)))))
  }

  /** `Error::to_string`, without the console echo of parse errors. */
  function ErrorMessage(e: Error): (m: string)
    ensures e.PestError? ==> |m| >= 13 && m[..13] == "Parse error: " && m[13..] == e.message
    ensures e.FailedPathLoad? ==> m == "Failed to load source."
    ensures e.InSource? ==> |m| > 7 && m[..7] == "Error '"
    ensures e.InSource? ==> m == SourceErrorMessage(e.source)
  {
    match e
    case PestError(msg) => "Parse error: " + msg
    case FailedPathLoad => "Failed to load source."
    case InSource(source) => SourceErrorMessage(source)
  }

  /** When `c` occurs in neither `x` nor `x'` and both `y` and `y'` start
      with it, the first `c` splits the string in one way only. */
  lemma SplitAtFirst(c: char, x: string, y: string, x': string, y': string)
    requires c !in x && c !in x'
    requires |y| > 0 && y[0] == c && |y'| > 0 && y'[0] == c
    requires x + y == x' + y'
    ensures x == x' && y == y'
  {
    var s := x + y;
    assert s[|x|] == c && s[|x'|] == c;
    assert x == s[..|x|] == x';
    assert y == s[|x|..] == y';
  }

  lemma CommaFree(n: nat)
    ensures ',' !in NatToDecimal(n)
  {
    assert AllDigits(NatToDecimal(n));
  }

  /** A source error message determines the error, as long as the
      description holds no single quote (none of the builder's does): the
      description, line and column can all be read back from the text. */
  lemma SourceErrorMessageInjective(e1: SourceError, e2: SourceError)
    requires '\'' !in e1.description && '\'' !in e2.description
    requires SourceErrorMessage(e1) == SourceErrorMessage(e2)
    ensures e1 == e2
  {
    var l1, c1 := NatToDecimal(e1.line), NatToDecimal(e1.col);
    var l2, c2 := NatToDecimal(e2.line), NatToDecimal(e2.col);
    var u1, u2 := ", Col: " + c1, ", Col: " + c2;
    var t1, t2 := "' at Line: " + (l1 + u1), "' at Line: " + (l2 + u2);
    var m := SourceErrorMessage(e1);
    assert e1.description + t1 == e2.description + t2 by {
      assert m[7..] == e1.description + t1;
      assert m[7..] == e2.description + t2;
    }
    SplitAtFirst('\'', e1.description, t1, e2.description, t2);
    assert l1 + u1 == l2 + u2 by {
      assert t1[11..] == l1 + u1;
      assert t2[11..] == l2 + u2;
    }
    CommaFree(e1.line);
    CommaFree(e2.line);
    SplitAtFirst(',', l1, u1, l2, u2);
    assert c1 == u1[7..] == u2[7..] == c2;
    NatToDecimalInjective(e1.line, e2.line);
    NatToDecimalInjective(e1.col, e2.col);
  }

  /** The three kinds of error render to different messages, and within a
      kind the message determines the error. */
  lemma ErrorMessageInjective(e1: Error, e2: Error)
    requires e1.InSource? ==> '\'' !in e1.source.description
    requires e2.InSource? ==> '\'' !in e2.source.description
    requires ErrorMessage(e1) == ErrorMessage(e2)
    ensures e1 == e2
  {
    var m := ErrorMessage(e1);
    assert e1.PestError? ==> m[0] == 'P';
    assert e1.FailedPathLoad? ==> m[0] == 'F';
    assert e1.InSource? ==> m[0] == 'E';
    assert e2.PestError? ==> m[0] == 'P';
    assert e2.FailedPathLoad? ==> m[0] == 'F';
    assert e2.InSource? ==> m[0] == 'E';
    if e1.PestError? && e2.PestError? {
      assert e1.message == m[13..] == e2.message;
    }
    if e1.InSource? && e2.InSource? {
      SourceErrorMessageInjective(e1.source, e2.source);
    }
  }

  /** The description a failed conversion of a pair with this rule carries;
      only numbers and the three register forms can fail. */
  function FailureDescription(rule: Tree.Rule): (d: string)
    ensures '\'' !in d
  {
    match rule
    case StatementParameterNumber => INVALID_NUMBER
    case StatementParameterStringRegister => INVALID_STRING_REGISTER
    case StatementParameterRegister => INVALID_REGISTER
    case StatementParameterPositionRegister => INVALID_POSITION_REGISTER
    case _ => ""
  }

  /** The typed-identifier dispatch: each of the 22 rules builds its own variant. */
  function IdFromRule(rule: Tree.Rule, text: string): (id: StatementParameterId)
    requires Tree.IsIdRule(rule)
    ensures id.name == text
  {
    match rule
    case AnimationId => AnimationId(text)
    case FactionId => FactionId(text)
    case InfoPageId => InfoPageId(text)
    case ItemId => ItemId(text)
    case MapIconId => MapIconId(text)
    case GameMenuId => GameMenuId(text)
    case MeshId => MeshId(text)
    case MissionTemplateId => MissionTemplateId(text)
    case ParticleSystemId => ParticleSystemId(text)
    case PartyId => PartyId(text)
    case PartyTemplateId => PartyTemplateId(text)
    case PostfxId => PostfxId(text)
    case PresentationId => PresentationId(text)
    case QuestId => QuestId(text)
    case ScenePropId => ScenePropId(text)
    case SceneId => SceneId(text)
    case ScriptId => ScriptId(text)
    case SkillId => SkillId(text)
    case SoundId => SoundId(text)
    case StringId => StringId(text)
    case TableauMaterialId => TableauMaterialId(text)
    case TroopId => TroopId(text)
  }

  /** The grammar rule that produces each typed-identifier variant. */
  function RuleOfId(id: StatementParameterId): (rule: Tree.Rule)
    ensures Tree.IsIdRule(rule)
  {
    match id
    case AnimationId(_) => Tree.AnimationId
    case FactionId(_) => Tree.FactionId
    case InfoPageId(_) => Tree.InfoPageId
    case ItemId(_) => Tree.ItemId
    case MapIconId(_) => Tree.MapIconId
    case GameMenuId(_) => Tree.GameMenuId
    case MeshId(_) => Tree.MeshId
    case MissionTemplateId(_) => Tree.MissionTemplateId
    case ParticleSystemId(_) => Tree.ParticleSystemId
    case PartyId(_) => Tree.PartyId
    case PartyTemplateId(_) => Tree.PartyTemplateId
    case PostfxId(_) => Tree.PostfxId
    case PresentationId(_) => Tree.PresentationId
    case QuestId(_) => Tree.QuestId
    case ScenePropId(_) => Tree.ScenePropId
    case SceneId(_) => Tree.SceneId
    case ScriptId(_) => Tree.ScriptId
    case SkillId(_) => Tree.SkillId
    case SoundId(_) => Tree.SoundId
    case StringId(_) => Tree.StringId
    case TableauMaterialId(_) => Tree.TableauMaterialId
    case TroopId(_) => Tree.TroopId
  }

  /** Each variant is built by its own rule, from its own name. */
  lemma IdDispatchRoundTrip(id: StatementParameterId)
    ensures IdFromRule(RuleOfId(id), id.name) == id
  {
  }

  /** The variant a rule builds is one whose rule is that rule. */
  lemma IdDispatchExact(rule: Tree.Rule, text: string)
    requires Tree.IsIdRule(rule)
    ensures RuleOfId(IdFromRule(rule, text)) == rule
  {
  }

  /** The dispatch is a bijection between the 22 rules and the 22 variants:
      a rule and a text build a given variant exactly when the rule is that
      variant's own and the text is its name. */
  lemma IdDispatchBijective(rule: Tree.Rule, text: string, id: StatementParameterId)
    requires Tree.IsIdRule(rule)
    ensures IdFromRule(rule, text) == id <==> rule == RuleOfId(id) && text == id.name
  {
    IdDispatchRoundTrip(id);
    IdDispatchExact(rule, text);
  }

  /** One `statement_parameter`'s inner pair to its typed parameter. Only a
      number or a register can fail, and the failure carries the pair's own
      start position and the description for its rule. */
  function ConvertParam(k: Tree.Node): (r: Result<StatementParameter, SourceError>)
    requires Tree.WellFormedParamKind(k)
    ensures r.Err? ==> k.rule == Tree.StatementParameterNumber || Tree.IsRegisterRule(k.rule)
    ensures r.Err? ==> r.error == SourceError(k.line, k.col, FailureDescription(k.rule))
  {
    var fail := SourceError(k.line, k.col, FailureDescription(k.rule));
    match k.rule
    case StatementParameterNumber =>
      (match ParseInt64(k.text)
       case Some(n) => Ok(Number(n))
       case None => Err(fail))
    case StatementParameterStringRegister =>
      (match ParseUint8(k.text[4..])
       case Some(c) => Ok(StringRegister(c))
       case None => Err(fail))
    case StatementParameterRegister =>
      (match ParseUint8(k.text[4..])
       case Some(c) => Ok(Register(c))
       case None => Err(fail))
    case StatementParameterPositionRegister =>
      (match ParseUint8(k.text[4..])
       case Some(c) => Ok(PositionRegister(c))
       case None => Err(fail))
    case StatementParameterLocalVar => Ok(LocalVariable(k.children[0].text))
    case StatementParameterGlobalVar => Ok(GlobalVariable(k.children[0].text))
    case StatementParameterAutoprefixedGlobalVar => Ok(AutoPrefixedGlobalVariable(k.children[0].text))
    case StatementParameterId =>
      var inner := k.children[0];
      Ok(StatementParamId(IdFromRule(inner.rule, inner.children[0].text)))
    case Identifier => Ok(Identifier(k.text))
  }

  /** Variables, typed identifiers and bare identifiers always convert, and
      carry the inner text unchanged; a typed identifier becomes the variant
      of exactly the rule that matched. */
  lemma NamedParameters(k: Tree.Node)
    requires Tree.WellFormedParamKind(k)
    ensures k.rule == Tree.StatementParameterLocalVar ==>
      ConvertParam(k) == Ok(LocalVariable(k.children[0].text))
    ensures k.rule == Tree.StatementParameterGlobalVar ==>
      ConvertParam(k) == Ok(GlobalVariable(k.children[0].text))
    ensures k.rule == Tree.StatementParameterAutoprefixedGlobalVar ==>
      ConvertParam(k) == Ok(AutoPrefixedGlobalVariable(k.children[0].text))
    ensures k.rule == Tree.StatementParameterId ==>
      && ConvertParam(k).Ok? && ConvertParam(k).value.StatementParamId?
      && RuleOfId(ConvertParam(k).value.id) == k.children[0].rule
      && ConvertParam(k).value.id.name == k.children[0].children[0].text
    ensures k.rule == Tree.Identifier ==> ConvertParam(k) == Ok(Identifier(k.text))
  {
    if k.rule == Tree.StatementParameterId {
      IdDispatchExact(k.children[0].rule, k.children[0].children[0].text);
    }
  }

  /** A number token converts to `Number(v)` exactly when its text parses as
      an `i64` `v`; a register token, exactly when the text after its first
      four characters parses as a `u8`, the rule choosing the variant. When
      the parse fails the conversion fails: there is no other outcome. */
  lemma NumericParameters(k: Tree.Node)
    requires Tree.WellFormedParamKind(k)
    ensures k.rule == Tree.StatementParameterNumber ==>
      forall v: int64 :: ConvertParam(k) == Ok(Number(v)) <==> ParseInt64(k.text) == Some(v)
    ensures k.rule == Tree.StatementParameterRegister ==>
      forall c: uint8 :: ConvertParam(k) == Ok(Register(c)) <==> ParseUint8(k.text[4..]) == Some(c)
    ensures k.rule == Tree.StatementParameterStringRegister ==>
      forall c: uint8 :: ConvertParam(k) == Ok(StringRegister(c)) <==> ParseUint8(k.text[4..]) == Some(c)
    ensures k.rule == Tree.StatementParameterPositionRegister ==>
      forall c: uint8 :: ConvertParam(k) == Ok(PositionRegister(c)) <==> ParseUint8(k.text[4..]) == Some(c)
    ensures k.rule == Tree.StatementParameterNumber ==> (ConvertParam(k).Ok? <==> ParseInt64(k.text).Some?)
    ensures Tree.IsRegisterRule(k.rule) ==> (ConvertParam(k).Ok? <==> ParseUint8(k.text[4..]).Some?)
  {
  }

  /** A number token written as the decimal numeral of `v` converts to
      `Number(v)` when `v` fits in 64 bits, and otherwise fails at the
      token's own position. */
  lemma NumberParameter(v: int, line: nat, col: nat, children: seq<Tree.Node>)
    ensures ConvertParam(Tree.Node(Tree.StatementParameterNumber, IntToDecimal(v), line, col, children))
      == if INT64_MIN <= v <= INT64_MAX then Ok(Number(v))
         else Err(SourceError(line, col, INVALID_NUMBER))
  {
    ParseInt64RoundTrip(v);
  }

  /** A register token is any four characters followed by a numeral: the code
      converts when it is at most 255, and the rule alone (not the text)
      decides which of the three register variants results. */
  lemma RegisterParameter(rule: Tree.Rule, prefix: string, c: nat, line: nat, col: nat,
                          children: seq<Tree.Node>)
    requires Tree.IsRegisterRule(rule) && |prefix| == 4
    ensures var r := ConvertParam(Tree.Node(rule, prefix + NatToDecimal(c), line, col, children));
      && (c <= UINT8_MAX && rule == Tree.StatementParameterRegister ==> r == Ok(Register(c)))
      && (c <= UINT8_MAX && rule == Tree.StatementParameterStringRegister ==> r == Ok(StringRegister(c)))
      && (c <= UINT8_MAX && rule == Tree.StatementParameterPositionRegister ==> r == Ok(PositionRegister(c)))
      && (c > UINT8_MAX ==> r == Err(SourceError(line, col, FailureDescription(rule))))
      && (c > UINT8_MAX && rule == Tree.StatementParameterRegister ==>
            r == Err(SourceError(line, col, INVALID_REGISTER)))
      && (c > UINT8_MAX && rule == Tree.StatementParameterStringRegister ==>
            r == Err(SourceError(line, col, INVALID_STRING_REGISTER)))
      && (c > UINT8_MAX && rule == Tree.StatementParameterPositionRegister ==>
            r == Err(SourceError(line, col, INVALID_POSITION_REGISTER)))
  {
    assert (prefix + NatToDecimal(c))[4..] == NatToDecimal(c);
    ParseUint8RoundTrip(c);
  }

  /** The conversion of each `statement_parameter` pair, in order. */
  function ParamResults(ps: seq<Tree.Node>): (rs: seq<Result<StatementParameter, SourceError>>)
    requires Tree.WellFormedParams(ps)
    ensures |rs| == |ps|
    ensures forall i :: 0 <= i < |ps| ==> rs[i] == ConvertParam(ps[i].children[0])
  {
    if |ps| == 0 then []
    else
      var rest := ps[1..];
      assert Tree.WellFormedParams(rest) by {
        forall i | 0 <= i < |rest| ensures Tree.WellFormedParam(rest[i]) {
          assert rest[i] == ps[i + 1];
        }
      }
      [ConvertParam(ps[0].children[0])] + ParamResults(rest)
  }

  /** The parameters of one statement, converted in order; the first failure
      ends the conversion and is the result. */
  function ConvertParams(ps: seq<Tree.Node>): (r: Result<seq<StatementParameter>, SourceError>)
    requires Tree.WellFormedParams(ps)
    ensures r.Ok? <==> AllOk(ParamResults(ps))
    ensures r.Ok? ==> |r.value| == |ps| && forall i :: 0 <= i < |ps| ==> ParamResults(ps)[i] == Ok(r.value[i])
    ensures r.Err? ==> FirstError(ParamResults(ps), r.error)
  {
    if |ps| == 0 then Ok([])
    else
      var rest := ps[1..];
      assert Tree.WellFormedParams(rest) by {
        forall i | 0 <= i < |rest| ensures Tree.WellFormedParam(rest[i]) {
          assert rest[i] == ps[i + 1];
        }
      }
      var first := ConvertParam(ps[0].children[0]);
      assert ParamResults(ps) == [first] + ParamResults(rest);
      AllOkCons(first, ParamResults(rest));
      match first
      case Err(e) =>
        FirstErrorHead(e, ParamResults(rest));
        Err(e)
      case Ok(p) =>
        match ConvertParams(rest)
        case Err(e) =>
          FirstErrorTail(first, ParamResults(rest), e);
          Err(e)
        case Ok(tail) => Ok([p] + tail)
  }

  /** One statement: its first inner pair names the operation, the others are
      its parameters. */
  function ConvertStatement(n: Tree.Node): (r: Result<Statement, SourceError>)
    requires Tree.WellFormedStatement(n)
    ensures r.Ok? ==> r.value.operation == n.children[0].text
  {
    ParamsOfStatementWellFormed(n);
    match ConvertParams(n.children[1..])
    case Err(e) => Err(e)
    case Ok(params) => Ok(Statement(n.children[0].text, params))
  }

  lemma ParamsOfStatementWellFormed(n: Tree.Node)
    requires Tree.WellFormedStatement(n)
    ensures Tree.WellFormedParams(n.children[1..])
  {
    var ps := n.children[1..];
    forall i | 0 <= i < |ps| ensures Tree.WellFormedParam(ps[i]) {
      assert ps[i] == n.children[i + 1];
    }
  }

  /** A statement converts exactly when each of its parameters does; its
      parameters are then the inner pairs after the first, in child order;
      otherwise the error is that of the first parameter that fails. */
  lemma StatementParametersInOrder(n: Tree.Node)
    requires Tree.WellFormedStatement(n)
    ensures var r := ConvertStatement(n);
      r.Ok? <==> forall i :: 1 <= i < |n.children| ==> ConvertParam(n.children[i].children[0]).Ok?
    ensures var r := ConvertStatement(n);
      r.Ok? ==> (&& |r.value.parameters| == |n.children| - 1
                 && forall i :: 1 <= i < |n.children| ==>
                      ConvertParam(n.children[i].children[0]) == Ok(r.value.parameters[i - 1]))
    ensures var r := ConvertStatement(n);
      r.Err? ==> (ParamsOfStatementWellFormed(n); FirstError(ParamResults(n.children[1..]), r.error))
  {
    ParamsOfStatementWellFormed(n);
    var ps := n.children[1..];
    assert forall i :: 1 <= i < |n.children| ==> n.children[i] == ps[i - 1];
  }

  /** The `statement` pairs among the top-level pairs, in order. */
  function StatementNodes(pairs: seq<Tree.Node>): (sn: seq<Tree.Node>)
    ensures |sn| <= |pairs|
    ensures forall i :: 0 <= i < |sn| ==> sn[i].rule == Tree.Statement
    ensures Tree.WellFormedPairs(pairs) ==>
      forall i :: 0 <= i < |sn| ==> Tree.WellFormedStatement(sn[i])
  {
    if |pairs| == 0 then []
    else if pairs[0].rule == Tree.Statement then [pairs[0]] + StatementNodes(pairs[1..])
    else StatementNodes(pairs[1..])
  }

  /** Every `statement` pair is kept and nothing else is added: the statement
      nodes are exactly the pairs whose rule is `statement`. */
  lemma {:induction false} StatementNodesExact(pairs: seq<Tree.Node>)
    ensures forall n :: n in StatementNodes(pairs) <==> n in pairs && n.rule == Tree.Statement
  {
    if |pairs| > 0 {
      StatementNodesExact(pairs[1..]);
      assert pairs == [pairs[0]] + pairs[1..];
    }
  }

  lemma WellFormedTail(pairs: seq<Tree.Node>)
    requires |pairs| > 0 && Tree.WellFormedPairs(pairs)
    ensures Tree.WellFormedPair(pairs[0]) && Tree.WellFormedPairs(pairs[1..])
  {
    var rest := pairs[1..];
    forall i | 0 <= i < |rest| ensures Tree.WellFormedPair(rest[i]) {
      assert rest[i] == pairs[i + 1];
    }
  }

  /** The loop over the top-level pairs, from a script under construction:
      each statement is converted and pushed, the end-of-input marker adds
      nothing, and the first failing statement ends the build. */
  function BuildFrom(script: Script, pairs: seq<Tree.Node>): (r: Result<Script, SourceError>)
    requires Tree.WellFormedPairs(pairs)
    ensures r.Ok? ==> r.value.name == script.name
    ensures r.Ok? ==> |r.value.statements| >= |script.statements|
    ensures r.Ok? ==> r.value.statements[..|script.statements|] == script.statements
    decreases |pairs|
  {
    if |pairs| == 0 then Ok(script)
    else
      WellFormedTail(pairs);
      if pairs[0].rule == Tree.Statement then
        match ConvertStatement(pairs[0])
        case Err(e) => Err(e)
        case Ok(st) =>
          var pushed := PushStatement(script, st);
          var r := BuildFrom(pushed, pairs[1..]);
          assert r.Ok? ==> r.value.statements[..|script.statements|] == pushed.statements[..|script.statements|];
          r
      else
        BuildFrom(script, pairs[1..])
  }

  /** The conversion of each `statement` pair, in order. */
  function StatementResults(pairs: seq<Tree.Node>): (rs: seq<Result<Statement, SourceError>>)
    requires Tree.WellFormedPairs(pairs)
    decreases |pairs|
  {
    if |pairs| == 0 then []
    else
      WellFormedTail(pairs);
      if pairs[0].rule == Tree.Statement then
        [ConvertStatement(pairs[0])] + StatementResults(pairs[1..])
      else
        StatementResults(pairs[1..])
  }

  lemma {:induction false} StatementResultsConvertNodes(pairs: seq<Tree.Node>)
    requires Tree.WellFormedPairs(pairs)
    ensures |StatementResults(pairs)| == |StatementNodes(pairs)|
    ensures var sn := StatementNodes(pairs);
      forall i :: 0 <= i < |sn| ==> StatementResults(pairs)[i] == ConvertStatement(sn[i])
    decreases |pairs|
  {
    if |pairs| > 0 {
      WellFormedTail(pairs);
      StatementResultsConvertNodes(pairs[1..]);
    }
  }

  /** Building succeeds exactly when every statement converts; the
      statements are then appended in source order, one per `statement`
      pair; otherwise the error is that of the first statement that fails. */
  lemma {:induction false} BuildFromInOrder(script: Script, pairs: seq<Tree.Node>)
    requires Tree.WellFormedPairs(pairs)
    ensures BuildFrom(script, pairs).Ok? <==> AllOk(StatementResults(pairs))
    ensures var r := BuildFrom(script, pairs);
      r.Ok? ==> |r.value.statements| == |script.statements| + |StatementResults(pairs)|
    ensures var r := BuildFrom(script, pairs); var rs := StatementResults(pairs);
      r.Ok? ==> forall i :: 0 <= i < |rs| ==> rs[i] == Ok(r.value.statements[|script.statements| + i])
    ensures var r := BuildFrom(script, pairs);
      r.Err? ==> FirstError(StatementResults(pairs), r.error)
    decreases |pairs|
  {
    if |pairs| > 0 {
      WellFormedTail(pairs);
      var rest := pairs[1..];
      var r := BuildFrom(script, pairs);
      if pairs[0].rule == Tree.Statement {
        var first := ConvertStatement(pairs[0]);
        var rr := StatementResults(rest);
        assert StatementResults(pairs) == [first] + rr;
        AllOkCons(first, rr);
        match first
        case Err(e) =>
          FirstErrorHead(e, rr);
        case Ok(st) =>
          var pushed := PushStatement(script, st);
          BuildFromInOrder(pushed, rest);
          if r.Ok? {
            var rs := StatementResults(pairs);
            var n := |script.statements|;
            forall i | 0 <= i < |rs| ensures rs[i] == Ok(r.value.statements[n + i]) {
              if i == 0 {
                assert r.value.statements[..n + 1] == pushed.statements;
                assert r.value.statements[n] == r.value.statements[..n + 1][n];
              } else {
                assert rs[i] == rr[i - 1];
              }
            }
          } else {
            FirstErrorTail(first, rr, r.error);
          }
      } else {
        BuildFromInOrder(script, rest);
      }
    }
  }

  /** What building from well-formed pairs promises: on success, a script
      with the given name and one statement per `statement` pair, each the
      conversion of that pair, in order; on failure, the source error of the
      first statement that does not convert. */
  ghost predicate BuiltFrom(r: Result<Script, Error>, name: string, pairs: seq<Tree.Node>)
    requires Tree.WellFormedPairs(pairs)
  {
    var rs := StatementResults(pairs);
    && (r.Ok? ==> && r.value.name == name
                  && |r.value.statements| == |rs|
                  && forall i :: 0 <= i < |rs| ==> rs[i] == Ok(r.value.statements[i]))
    && (r.Err? ==> r.error.InSource? && FirstError(rs, r.error.source))
  }

  /** `parse`: load the source, run the grammar, then build the script from
      the top-level pairs. Reading the file and the grammar engine are
      parameters: `source` is `None` when the file cannot be read, and
      `grammar` returns the pairs or the engine's error message. */
  function Parse(name: string, source: Option<string>,
                 grammar: string -> Result<seq<Tree.Node>, string>): (r: Result<Script, Error>)
    requires source.Some? && grammar(source.value).Ok? ==>
      Tree.WellFormedPairs(grammar(source.value).value)
    ensures match source
      case None => r == Err(FailedPathLoad)
      case Some(text) =>
        match grammar(text)
        case Err(msg) => r == Err(PestError(msg))
        case Ok(pairs) => BuiltFrom(r, name, pairs)
  {
    match source
    case None => Err(FailedPathLoad)
    case Some(text) =>
      match grammar(text)
      case Err(msg) => Err(PestError(msg))
      case Ok(pairs) =>
        BuildFromInOrder(NewScript(name), pairs);
        match BuildFrom(NewScript(name), pairs)
        case Ok(script) => Ok(script)
        case Err(e) => Err(InSource(e))
  }
}
