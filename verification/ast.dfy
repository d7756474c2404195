/** The script AST: a named, ordered list of statements, each an operation name
    with typed parameters. Rust's `Statement`, `Identifier` and `Register`
    each hold a reference to the symbol table; it is the same table for a
    whole parse, so here it is not stored in the AST but handed to the
    renderers. */
module Ast {
  import opened Decimal

  /** One variant per typed-identifier kind, each carrying the identifier. */
  datatype StatementParameterId =
    | AnimationId(name: string)
    | FactionId(name: string)
    | InfoPageId(name: string)
    | ItemId(name: string)
    | MapIconId(name: string)
    | GameMenuId(name: string)
    | MeshId(name: string)
    | MissionTemplateId(name: string)
    | ParticleSystemId(name: string)
    | PartyId(name: string)
    | PartyTemplateId(name: string)
    | PostfxId(name: string)
    | PresentationId(name: string)
    | QuestId(name: string)
    | ScenePropId(name: string)
    | SceneId(name: string)
    | ScriptId(name: string)
    | SkillId(name: string)
    | SoundId(name: string)
    | StringId(name: string)
    | TableauMaterialId(name: string)
    | TroopId(name: string)

  datatype StatementParameter =
    | Identifier(name: string)
    | Register(code: uint8)
    | StringRegister(code: uint8)
    | PositionRegister(code: uint8)
    | LocalVariable(name: string)
    | GlobalVariable(name: string)
    | AutoPrefixedGlobalVariable(name: string)
    | StatementParamId(id: StatementParameterId)
    | Number(value: int64)

  /** `Statement::new`: the operation name and the parameters, in order. */
  datatype Statement = Statement(operation: string, parameters: seq<StatementParameter>)

  datatype Script = Script(name: string, statements: seq<Statement>)

  /** `Script::new`: a script with the given name and no statements yet. */
  function NewScript(name: string): (s: Script)
    ensures s.name == name && |s.statements| == 0
  {
    Script(name, [])
  }

  /** `push_statement`: the statement goes last; the name and every earlier
      statement are kept as they were. */
  function PushStatement(script: Script, st: Statement): (r: Script)
    ensures r.name == script.name
    ensures |r.statements| == |script.statements| + 1
    ensures r.statements[..|script.statements|] == script.statements
    ensures r.statements[|script.statements|] == st
  {
    script.(statements := script.statements + [st])
  }
}
