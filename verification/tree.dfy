/** The parse tree the grammar engine hands to the AST builder. The grammar
    itself is not part of this model: a tree is an input, and the shapes the
    builder relies on (the places where the builder would panic through
    `expect` or `unreachable!`) are stated as well-formedness predicates. */
module Tree {

  /** The grammar rules the builder distinguishes, in the grammar's own naming;
      `Other` stands for every rule the builder never inspects. */
  datatype Rule =
    | Statement
    | StatementParameter
    | StatementParameterNumber
    | StatementParameterStringRegister
    | StatementParameterRegister
    | StatementParameterPositionRegister
    | StatementParameterLocalVar
    | StatementParameterGlobalVar
    | StatementParameterAutoprefixedGlobalVar
    | StatementParameterId
    | AnimationId | FactionId | InfoPageId | ItemId | MapIconId | GameMenuId
    | MeshId | MissionTemplateId | ParticleSystemId | PartyId | PartyTemplateId
    | PostfxId | PresentationId | QuestId | ScenePropId | SceneId | ScriptId
    | SkillId | SoundId | StringId | TableauMaterialId | TroopId
    | Identifier
    | Eoi
    | Other(name: string)

  /** A matched pair: its rule, the text of its span, the line and column where
      the span starts, and its inner pairs in source order. */
  datatype Node = Node(rule: Rule, text: string, line: nat, col: nat, children: seq<Node>)

  /** The 22 typed-identifier rules that may sit inside a `statement_parameter_id`. */
  predicate IsIdRule(r: Rule) {
    match r
    case AnimationId | FactionId | InfoPageId | ItemId | MapIconId | GameMenuId
      | MeshId | MissionTemplateId | ParticleSystemId | PartyId | PartyTemplateId
      | PostfxId | PresentationId | QuestId | ScenePropId | SceneId | ScriptId
      | SkillId | SoundId | StringId | TableauMaterialId | TroopId => true
    case _ => false
  }

  /** The three register rules, whose text is a four-character prefix and a code. */
  predicate IsRegisterRule(r: Rule) {
    r == StatementParameterStringRegister || r == StatementParameterRegister
    || r == StatementParameterPositionRegister
  }

  /** The variable rules, whose first inner pair is the variable's name. */
  predicate IsVariableRule(r: Rule) {
    r == StatementParameterLocalVar || r == StatementParameterGlobalVar
    || r == StatementParameterAutoprefixedGlobalVar
  }

  /** The inner pair of a `statement_parameter`, shaped as the builder expects. */
  predicate WellFormedParamKind(k: Node) {
    match k.rule
    case StatementParameterNumber => true
    case StatementParameterStringRegister | StatementParameterRegister
      | StatementParameterPositionRegister => |k.text| >= 4
    case StatementParameterLocalVar | StatementParameterGlobalVar
      | StatementParameterAutoprefixedGlobalVar => |k.children| >= 1
    case StatementParameterId =>
      |k.children| >= 1 && IsIdRule(k.children[0].rule) && |k.children[0].children| >= 1
    case Identifier => true
    case _ => false
  }

  predicate WellFormedParam(p: Node) {
    p.rule == StatementParameter && |p.children| >= 1 && WellFormedParamKind(p.children[0])
  }

  predicate WellFormedParams(ps: seq<Node>) {
    forall i :: 0 <= i < |ps| ==> WellFormedParam(ps[i])
  }

  /** A statement: its operation name first, then its parameters. */
  predicate WellFormedStatement(n: Node) {
    && n.rule == Statement
    && |n.children| >= 1
    && forall i :: 1 <= i < |n.children| ==> WellFormedParam(n.children[i])
  }

  /** A top-level pair is a statement or the end-of-input marker. */
  predicate WellFormedPair(n: Node) {
    WellFormedStatement(n) || n.rule == Eoi
  }

  predicate WellFormedPairs(pairs: seq<Node>) {
    forall i :: 0 <= i < |pairs| ==> WellFormedPair(pairs[i])
  }
}
