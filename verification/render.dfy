/** Rendering a finished script into host values. The host's objects are an
    abstract `HostValue`; the symbol table is a map from names to host values.
    Every name the script refers to (an operation, a bare identifier, a
    register) is looked up in the table when rendering, and a name the table
    does not hold renders as a placeholder, never as an error. */
module Render {
  import opened Results
  import opened Decimal
  import opened Ast

  datatype HostValue =
    | Str(text: string)
    | Int(value: int)
    | Tuple(items: seq<HostValue>)
    | List(items: seq<HostValue>)
    | Placeholder

  type Table = map<string, HostValue>

  /** The table's value for `key`, or the placeholder when it has none. */
  function Lookup(table: Table, key: string): (v: HostValue)
    ensures key in table ==> v == table[key]
    ensures key !in table ==> v == Placeholder
  {
    if key in table then table[key] else Placeholder
  }

  /** The table key of register `code`: `reg` followed by the code in
      canonical decimal (no leading zero, so register 7 is `reg7`). The code
      can be read back from the key, so distinct registers use distinct keys. */
  function RegisterKey(code: uint8): (key: string)
    ensures |key| > 3 && key[..3] == "reg" && ParseNat(key[3..]) == Some(code as nat)
    ensures |key| > 4 ==> key[3] != '0'
  {
    var key := "reg" + NatToDecimal(code);
    ParseNatRoundTrip(code);
    assert key[3..] == NatToDecimal(code);
    key
  }

  lemma RegisterKeyInjective(a: uint8, b: uint8)
    ensures RegisterKey(a) == RegisterKey(b) ==> a == b
  {
  }

  /** `get_register`. */
  function GetRegister(table: Table, code: uint8): (v: HostValue)
    ensures RegisterKey(code) in table ==> v == table[RegisterKey(code)]
    ensures RegisterKey(code) !in table ==> v == Placeholder
  {
    Lookup(table, RegisterKey(code))
  }

  predicate IsLowerWord(p: string) {
    |p| > 0 && forall i :: 0 <= i < |p| ==> 'a' <= p[i] <= 'z'
  }

  /** The fixed rendering prefix of each typed-identifier kind. */
  function IdPrefix(id: StatementParameterId): (p: string)
    ensures IsLowerWord(p)
  {
    match id
    case AnimationId(_) => "anim"
    case FactionId(_) => "fac"
    case InfoPageId(_) => "id"
    case ItemId(_) => "itm"
    case MapIconId(_) => "icon"
    case GameMenuId(_) => "menu"
    case MeshId(_) => "mesh"
    case MissionTemplateId(_) => "mst"
    case ParticleSystemId(_) => "psys"
    case PartyId(_) => "p"
    case PartyTemplateId(_) => "pt"
    case PostfxId(_) => "pfx"
    case PresentationId(_) => "prsnt"
    case QuestId(_) => "qst"
    case ScenePropId(_) => "spr"
    case SceneId(_) => "scn"
    case ScriptId(_) => "script"
    case SkillId(_) => "skl"
    case SoundId(_) => "snd"
    case StringId(_) => "str"
    case TableauMaterialId(_) => "tableau"
    case TroopId(_) => "trp"
  }

  /** A typed identifier renders as its kind's prefix, `_`, and its name. */
  function RenderId(id: StatementParameterId): (s: string)
    ensures var n := |IdPrefix(id)|;
      && |s| == n + 1 + |id.name|
      && s[..n] == IdPrefix(id) && s[n] == '_' && s[n + 1..] == id.name
    ensures '_' !in s[..|IdPrefix(id)|]
  {
    IdPrefix(id) + "_" + id.name
  }

  /** The typed identifier of kind `prefix` named `name`, if `prefix` is one
      of the 22 prefixes: the prefix table read backwards. */
  function IdWithPrefix(prefix: string, name: string): Option<StatementParameterId> {
    if prefix == "anim" then Some(AnimationId(name))
    else if prefix == "fac" then Some(FactionId(name))
    else if prefix == "id" then Some(InfoPageId(name))
    else if prefix == "itm" then Some(ItemId(name))
    else if prefix == "icon" then Some(MapIconId(name))
    else if prefix == "menu" then Some(GameMenuId(name))
    else if prefix == "mesh" then Some(MeshId(name))
    else if prefix == "mst" then Some(MissionTemplateId(name))
    else if prefix == "psys" then Some(ParticleSystemId(name))
    else if prefix == "p" then Some(PartyId(name))
    else if prefix == "pt" then Some(PartyTemplateId(name))
    else if prefix == "pfx" then Some(PostfxId(name))
    else if prefix == "prsnt" then Some(PresentationId(name))
    else if prefix == "qst" then Some(QuestId(name))
    else if prefix == "spr" then Some(ScenePropId(name))
    else if prefix == "scn" then Some(SceneId(name))
    else if prefix == "script" then Some(ScriptId(name))
    else if prefix == "skl" then Some(SkillId(name))
    else if prefix == "snd" then Some(SoundId(name))
    else if prefix == "str" then Some(StringId(name))
    else if prefix == "tableau" then Some(TableauMaterialId(name))
    else if prefix == "trp" then Some(TroopId(name))
    else None
  }

  /** The position of the first `c` in `s`, if any. */
  function FirstIndexOf(s: string, c: char): (r: Option<nat>)
    ensures r.Some? ==> r.value < |s| && s[r.value] == c && c !in s[..r.value]
    ensures r.None? ==> c !in s
  {
    if |s| == 0 then None
    else if s[0] == c then Some(0)
    else
      match FirstIndexOf(s[1..], c)
      case Some(i) =>
        assert s[..i + 1] == [s[0]] + s[1..][..i];
        Some(i + 1)
      case None =>
        assert s == [s[0]] + s[1..];
        None
  }

  /** The typed identifier a rendered string stands for: the text before the
      first `_` selects the kind, the text after it is the name. */
  function IdOfRendered(s: string): Option<StatementParameterId> {
    match FirstIndexOf(s, '_')
    case Some(i) => IdWithPrefix(s[..i], s[i + 1..])
    case None => None
  }

  lemma PrefixTableReadsBack(id: StatementParameterId)
    ensures IdWithPrefix(IdPrefix(id), id.name) == Some(id)
  {
  }

  /** Rendering loses nothing: the kind and the name of a typed identifier
      can be read back from its rendering, so two typed identifiers render
      alike only when they are equal. */
  lemma RenderIdRoundTrip(id: StatementParameterId)
    ensures IdOfRendered(RenderId(id)) == Some(id)
  {
    // the prefix holds no `_`, so the first `_` is the separator
    assert FirstIndexOf(RenderId(id), '_') == Some(|IdPrefix(id)|);
    PrefixTableReadsBack(id);
  }

  lemma RenderIdInjective(a: StatementParameterId, b: StatementParameterId)
    ensures RenderId(a) == RenderId(b) ==> a == b
  {
    RenderIdRoundTrip(a);
    RenderIdRoundTrip(b);
  }

  /** One parameter's host value. */
  function RenderParam(table: Table, p: StatementParameter): (v: HostValue)
    ensures p.Identifier? ==> v == Lookup(table, p.name)
    ensures p.Register? ==> v == Lookup(table, RegisterKey(p.code))
    ensures p.StringRegister? || p.PositionRegister? ==> v == Int(p.code) && 0 <= v.value <= UINT8_MAX
    ensures p.Number? ==> v == Int(p.value) && INT64_MIN <= v.value <= INT64_MAX
    ensures p.LocalVariable? || p.GlobalVariable? || p.AutoPrefixedGlobalVariable? || p.StatementParamId? ==>
      v.Str?
  {
    match p
    case Identifier(name) => Lookup(table, name)
    case Register(code) => GetRegister(table, code)
    case StringRegister(code) => Int(code)
    case PositionRegister(code) => Int(code)
    case LocalVariable(name) => Str(":" + name)
    case GlobalVariable(name) => Str("$" + name)
    case AutoPrefixedGlobalVariable(name) => Str("$g_" + name)
    case StatementParamId(id) => Str(RenderId(id))
    case Number(value) => Int(value)
  }

  /** The parameter a rendered name stands for: `:` marks a local variable,
      `$` a global one, and anything else must be a typed identifier. */
  function ParamOfRenderedName(s: string): Option<StatementParameter> {
    if |s| > 0 && s[0] == ':' then Some(LocalVariable(s[1..]))
    else if |s| > 0 && s[0] == '$' then Some(GlobalVariable(s[1..]))
    else
      match IdOfRendered(s)
      case Some(id) => Some(StatementParamId(id))
      case None => None
  }

  /** Rendered names can be read back: local and global variables and typed
      identifiers come back unchanged, while an auto-prefixed global comes
      back as the global variable whose name carries the `g_` prefix. */
  lemma RenderedNameRoundTrip(table: Table, p: StatementParameter)
    requires p.LocalVariable? || p.GlobalVariable? || p.AutoPrefixedGlobalVariable? || p.StatementParamId?
    ensures var v := RenderParam(table, p);
      v.Str? && ParamOfRenderedName(v.text) ==
        if p.AutoPrefixedGlobalVariable? then Some(GlobalVariable("g_" + p.name)) else Some(p)
  {
    var v := RenderParam(table, p);
    match p
    case LocalVariable(name) =>
      assert v.text[1..] == name;
    case GlobalVariable(name) =>
      assert v.text[1..] == name;
    case AutoPrefixedGlobalVariable(name) =>
      assert v.text[1..] == "g_" + name;
    case StatementParamId(id) =>
      RenderIdRoundTrip(id);
  }

  /** An auto-prefixed global renders exactly like the global variable with
      `g_` in front of its name. */
  lemma AutoPrefixedAliasesGlobal(table: Table, name: string)
    ensures RenderParam(table, AutoPrefixedGlobalVariable(name))
         == RenderParam(table, GlobalVariable("g_" + name))
  {
    assert "$g_" + name == "$" + ("g_" + name);
  }

  function RenderParams(table: Table, ps: seq<StatementParameter>): (vs: seq<HostValue>)
    ensures |vs| == |ps|
    ensures forall i :: 0 <= i < |ps| ==> vs[i] == RenderParam(table, ps[i])
  {
    seq(|ps|, i requires 0 <= i < |ps| => RenderParam(table, ps[i]))
  }

  /** A statement without parameters renders as its operation's value alone;
      otherwise as a tuple of the operation's value followed by each
      parameter's value, in order. */
  function RenderStatement(table: Table, st: Statement): (v: HostValue)
    ensures |st.parameters| == 0 ==> v == Lookup(table, st.operation)
    ensures |st.parameters| > 0 ==>
      && v.Tuple?
      && |v.items| == 1 + |st.parameters|
      && v.items[0] == Lookup(table, st.operation)
      && forall i :: 0 <= i < |st.parameters| ==> v.items[i + 1] == RenderParam(table, st.parameters[i])
  {
    var op := Lookup(table, st.operation);
    if |st.parameters| == 0 then op
    else Tuple([op] + RenderParams(table, st.parameters))
  }

  /** A script renders as the pair of its name and the list of its
      statements' values, in order. */
  function RenderScript(table: Table, s: Script): (v: HostValue)
    ensures v.Tuple? && |v.items| == 2
    ensures v.items[0] == Str(s.name)
    ensures v.items[1].List? && |v.items[1].items| == |s.statements|
    ensures forall i :: 0 <= i < |s.statements| ==> v.items[1].items[i] == RenderStatement(table, s.statements[i])
  {
    var statements := seq(|s.statements|, i requires 0 <= i < |s.statements| => RenderStatement(table, s.statements[i]));
    Tuple([Str(s.name), List(statements)])
  }

  /** Two tables give `key` the same value (both may lack it). */
  ghost predicate AgreeOn(t1: Table, t2: Table, key: string) {
    Lookup(t1, key) == Lookup(t2, key)
  }

  /** The tables agree on every name the statement refers to: its operation,
      its bare identifiers and its registers' keys. */
  ghost predicate AgreeOnStatement(t1: Table, t2: Table, st: Statement) {
    && AgreeOn(t1, t2, st.operation)
    && forall i :: 0 <= i < |st.parameters| ==>
         match st.parameters[i]
         case Identifier(name) => AgreeOn(t1, t2, name)
         case Register(code) => AgreeOn(t1, t2, RegisterKey(code))
         case _ => true
  }

  /** Resolution is deferred and depends on nothing but the names the script
      refers to: two tables that agree on those render the script alike. */
  lemma RenderScriptFrame(t1: Table, t2: Table, s: Script)
    requires forall i :: 0 <= i < |s.statements| ==> AgreeOnStatement(t1, t2, s.statements[i])
    ensures RenderScript(t1, s) == RenderScript(t2, s)
  {
    forall i | 0 <= i < |s.statements|
      ensures RenderStatement(t1, s.statements[i]) == RenderStatement(t2, s.statements[i])
    {
      var st := s.statements[i];
      assert AgreeOnStatement(t1, t2, st);
      assert RenderParams(t1, st.parameters) == RenderParams(t2, st.parameters);
    }
    assert RenderScript(t1, s).items[1] == RenderScript(t2, s).items[1];
  }
}
