/**
 * The design-variable snapshot the token engine reads: collections with
 * their modes, variables with a value per mode id, and alias values that
 * point from one variable to another by id. The host lookup
 * `getVariableByIdAsync` is the map `Graph`.
 */
module VariableData {
  import opened Options
  import opened Colors

  type Id = string
  type ModeId = string

  /**
   * A raw or resolved variable value. `Rgb` is a colour object without an
   * `a` field; `Color` is one with all four fields. `Null` is an explicit
   * `null` entry, which the `??` fallbacks treat like a missing one.
   */
  datatype Value =
    | Null
    | Bool(bit: bool)
    | Num(n: int)
    | Str(s: string)
    | Rgb(r: nat, g: nat, b: nat)
    | Color(c: Rgba)
    | Alias(id: Id)

  /** `resolvedType`; `OtherType` stands for any type the builders do not name. */
  datatype VarType = ColorType | FloatType | StringType | BooleanType | OtherType

  datatype Mode = Mode(modeId: ModeId, name: string)

  datatype Collection = Collection(id: string, name: string, modes: seq<Mode>)

  /** `valuesByMode` keeps its key order, so "the first key" is defined. */
  datatype Variable = Variable(id: Id, name: string, collectionId: string,
                               resolvedType: VarType, valuesByMode: seq<(ModeId, Value)>)

  /** Every variable the host can look up by id. */
  type Graph = map<Id, Variable>

  /** `valuesByMode[k]`: the entry under key `k`, or `None` for `undefined`. */
  function Lookup(vbm: seq<(ModeId, Value)>, k: ModeId): (r: Option<Value>)
    ensures r.Some? <==> exists i :: 0 <= i < |vbm| && vbm[i].0 == k
    ensures r.Some? ==> exists i :: 0 <= i < |vbm| && vbm[i] == (k, r.value)
  {
    if |vbm| == 0 then None
    else if vbm[0].0 == k then Some(vbm[0].1)
    else
      var r := Lookup(vbm[1..], k);
      assert r.Some? ==> exists i :: 0 <= i < |vbm[1..]| && vbm[1..][i] == (k, r.value);
      r
  }

  /** `Object.keys(valuesByMode)[0] || d`: the first key when it is a non-empty string, else `d`. */
  function FirstKeyOr(vbm: seq<(ModeId, Value)>, d: ModeId): ModeId {
    if |vbm| > 0 && vbm[0].0 != "" then vbm[0].0 else d
  }

  /**
   * `valuesByMode[m] ?? valuesByMode[fb]`: the entry for `m` unless it is
   * missing or null, else the entry for the fallback key (which may itself
   * be null). No fallback key at all is `None`.
   */
  function Pick(vbm: seq<(ModeId, Value)>, m: ModeId, fb: Option<ModeId>): (r: Option<Value>)
    ensures Lookup(vbm, m).Some? && Lookup(vbm, m).value != Null ==> r == Lookup(vbm, m)
    ensures (Lookup(vbm, m).None? || Lookup(vbm, m) == Some(Null)) ==>
              r == (if fb.Some? then Lookup(vbm, fb.value) else None)
  {
    match Lookup(vbm, m)
    case Some(v) => if v != Null then Some(v) else if fb.Some? then Lookup(vbm, fb.value) else None
    case None => if fb.Some? then Lookup(vbm, fb.value) else None
  }

  /** The `hasMode` test of the entry file picks the same value: its fallback key "" stands for a missing first key. */
  lemma PickHasMode(vbm: seq<(ModeId, Value)>, m: ModeId)
    ensures Pick(vbm, m, Some(FirstKeyOr(vbm, ""))) ==
      var here := Lookup(vbm, m);
      if here.Some? && here.value != Null then here else Lookup(vbm, if |vbm| > 0 then vbm[0].0 else "")
  {
  }

  /** A variable's value for mode `m`, with the fallback to its first key used by the resolvers and the per-mode table. */
  function ValueForMode(v: Variable, m: ModeId): Option<Value> {
    Pick(v.valuesByMode, m, Some(FirstKeyOr(v.valuesByMode, "")))
  }

  /** `c.modes[0].modeId`, or "" for a collection without modes. */
  function FirstModeId(c: Collection): ModeId {
    if |c.modes| > 0 then c.modes[0].modeId else ""
  }

  /** `new Map(collections.map(c => [c.id, c])).get(id)`: the last collection with that id. */
  function FindCollection(cols: seq<Collection>, id: string): (r: Option<Collection>)
    ensures r.Some? ==> r.value in cols && r.value.id == id
    ensures r.None? ==> forall i :: 0 <= i < |cols| ==> cols[i].id != id
  {
    if |cols| == 0 then None
    else if cols[|cols| - 1].id == id then Some(cols[|cols| - 1])
    else FindCollection(cols[..|cols| - 1], id)
  }
}
