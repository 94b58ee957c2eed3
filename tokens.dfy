/**
 * The per-mode token table: for every collection and every one of its
 * modes, each variable of the collection that has a value for the mode (or
 * its first key) becomes a token `{ $type, $value }` under
 * `pathify(name)` in the table of that mode's name. `Current` is
 * `buildTokensByMode` of the variable module; `Legacy` is the inline copy
 * in the plugin entry file, which walks the modes through a
 * `Map<modeId, name>`, types FLOAT as "number" and uses the guarded
 * resolver.
 */
module TokenTable {
  import opened Options
  import opened Naming
  import opened VariableData
  import opened Resolution
  import opened Resolver

  datatype Flavor = Current | Legacy

  /** A token: its `$type` and its resolved `$value`. */
  datatype Token = Token(ttype: string, value: Value)

  /** `tokensByMode`; `names` lists its mode names in insertion order. */
  datatype ModeTable = ModeTable(names: seq<string>, tokens: map<string, map<string, Token>>)

  /** The `$type` written for a variable's `resolvedType`. */
  function TypeName(t: VarType, f: Flavor): string {
    match t
    case ColorType => "color"
    case FloatType => if f == Current then "dimension" else "number"
    case StringType => "string"
    case BooleanType => "boolean"
    case OtherType => "unknown"
  }

  /** The variables of collection `cid`, in their order: all of them and only them. */
  function VarsIn(vs: seq<Variable>, cid: string): (r: seq<Variable>)
    ensures |r| <= |vs|
    ensures forall k :: 0 <= k < |r| ==> r[k] in vs && r[k].collectionId == cid
    ensures forall x :: x in vs && x.collectionId == cid ==> x in r
  {
    if vs == [] then []
    else
      var init := vs[..|vs| - 1];
      assert vs == init + [vs[|vs| - 1]];
      VarsIn(init, cid) + (if vs[|vs| - 1].collectionId == cid then [vs[|vs| - 1]] else [])
  }

  /** Filtering works piece by piece, so the variables keep their relative order. */
  lemma {:induction false} VarsInConcat(a: seq<Variable>, b: seq<Variable>, cid: string)
    ensures VarsIn(a + b, cid) == VarsIn(a, cid) + VarsIn(b, cid)
    decreases |b|
  {
    if b != [] {
      var ab := a + b;
      var b' := b[..|b| - 1];
      assert ab[..|ab| - 1] == a + b' && ab[|ab| - 1] == b[|b| - 1];
      VarsInConcat(a, b', cid);
    } else {
      assert a + b == a;
    }
  }

  /** A single variable is kept exactly when it belongs to the collection. */
  lemma VarsInOne(x: Variable, cid: string)
    ensures VarsIn([x], cid) == if x.collectionId == cid then [x] else []
  {
    assert [x][..0] == [];
  }

  /** `varsByCol.get(cid) || []`. */
  function Get(byCol: map<string, seq<Variable>>, cid: string): seq<Variable> {
    if cid in byCol then byCol[cid] else []
  }

  /** No entry has key `k`. */
  predicate KeyAbsent(entries: seq<(ModeId, string)>, k: ModeId) {
    forall i :: 0 <= i < |entries| ==> entries[i].0 != k
  }

  /** `i` is the first entry with key `k`. */
  predicate FirstKeyAt(entries: seq<(ModeId, string)>, k: ModeId, i: int) {
    0 <= i < |entries| && entries[i].0 == k && KeyAbsent(entries[..i], k)
  }

  /**
   * `map.set(k, v)` on a `Map` kept as its entries in insertion order: an
   * existing key keeps its place and takes the new value, a new key goes
   * last.
   */
  function MapSet(entries: seq<(ModeId, string)>, k: ModeId, v: string): (r: seq<(ModeId, string)>)
    ensures KeyAbsent(entries, k) ==> r == entries + [(k, v)]
    ensures forall i :: FirstKeyAt(entries, k, i) ==> r == entries[i := (k, v)]
  {
    if entries == [] then [(k, v)]
    else if entries[0].0 == k then
      assert forall i :: FirstKeyAt(entries, k, i) ==> i == 0;
      [(k, v)] + entries[1..]
    else
      var t := MapSet(entries[1..], k, v);
      MapSetStep(entries, k, v, t);
      [entries[0]] + t
  }

  lemma MapSetStep(entries: seq<(ModeId, string)>, k: ModeId, v: string, t: seq<(ModeId, string)>)
    requires entries != [] && entries[0].0 != k
    requires KeyAbsent(entries[1..], k) ==> t == entries[1..] + [(k, v)]
    requires forall i :: FirstKeyAt(entries[1..], k, i) ==> t == entries[1..][i := (k, v)]
    ensures KeyAbsent(entries, k) ==> [entries[0]] + t == entries + [(k, v)]
    ensures forall i :: FirstKeyAt(entries, k, i) ==> [entries[0]] + t == entries[i := (k, v)]
  {
    var rest := entries[1..];
    assert entries == [entries[0]] + rest;
    if KeyAbsent(entries, k) {
      assert KeyAbsent(rest, k);
    }
    forall i | FirstKeyAt(entries, k, i) ensures [entries[0]] + t == entries[i := (k, v)] {
      assert i > 0;
      assert rest[..i - 1] == entries[1..i];
      assert FirstKeyAt(rest, k, i - 1);
      assert entries[i := (k, v)] == [entries[0]] + rest[i - 1 := (k, v)];
    }
  }

  /** `getModeNameMap(col)`: mode id to mode name, a later mode with the same id replacing the name. */
  function ModeNameMap(modes: seq<Mode>): seq<(ModeId, string)> {
    if modes == [] then []
    else MapSet(ModeNameMap(modes[..|modes| - 1]), modes[|modes| - 1].modeId, modes[|modes| - 1].name)
  }

  /** The (mode id, mode name) pairs a collection is walked through. */
  function ModeEntries(c: Collection, f: Flavor): seq<(ModeId, string)> {
    if f == Current then seq(|c.modes|, i requires 0 <= i < |c.modes| => (c.modes[i].modeId, c.modes[i].name))
    else ModeNameMap(c.modes)
  }

  /** One variable for one mode: skipped without a value, else written under `pathify(name)`. */
  function StepVar(g: Graph, f: Flavor, inner: map<string, Token>, modeId: ModeId, v: Variable): map<string, Token> {
    match ValueForMode(v, modeId)
    case None => inner
    case Some(raw) => inner[Pathify(v.name) := Token(TypeName(v.resolvedType, f), Resolve(g, raw, modeId))]
  }

  function FoldVars(g: Graph, f: Flavor, inner: map<string, Token>, modeId: ModeId, vs: seq<Variable>): map<string, Token>
    decreases |vs|
  {
    if vs == [] then inner else FoldVars(g, f, StepVar(g, f, inner, modeId, vs[0]), modeId, vs[1..])
  }

  /** One mode: its name gets a table if it has none (`||= {}`), then every variable is written into it. */
  function StepMode(g: Graph, f: Flavor, t: ModeTable, e: (ModeId, string), vs: seq<Variable>): ModeTable {
    var t1 := if e.1 in t.tokens then t else ModeTable(t.names + [e.1], t.tokens[e.1 := map[]]);
    t1.(tokens := t1.tokens[e.1 := FoldVars(g, f, t1.tokens[e.1], e.0, vs)])
  }

  function FoldModes(g: Graph, f: Flavor, t: ModeTable, es: seq<(ModeId, string)>, vs: seq<Variable>): ModeTable
    decreases |es|
  {
    if es == [] then t else FoldModes(g, f, StepMode(g, f, t, es[0], vs), es[1..], vs)
  }

  function FoldCols(g: Graph, f: Flavor, t: ModeTable, cols: seq<Collection>, all: seq<Variable>): ModeTable
    decreases |cols|
  {
    if cols == [] then t
    else FoldCols(g, f, FoldModes(g, f, t, ModeEntries(cols[0], f), VarsIn(all, cols[0].id)), cols[1..], all)
  }

  /** The table `buildTokensByMode` returns. */
  function TokensByMode(g: Graph, f: Flavor, cols: seq<Collection>, all: seq<Variable>): ModeTable {
    FoldCols(g, f, ModeTable([], map[]), cols, all)
  }

  // ---------------------------------------------------------------- properties

  /** A key that no variable with a value writes keeps what it had. */
  lemma {:induction false} FoldVarsUntouched(g: Graph, f: Flavor, inner: map<string, Token>, modeId: ModeId,
                                             vs: seq<Variable>, k: string)
    requires forall j :: 0 <= j < |vs| && Pathify(vs[j].name) == k ==> ValueForMode(vs[j], modeId).None?
    ensures k in FoldVars(g, f, inner, modeId, vs) <==> k in inner
    ensures k in inner ==> FoldVars(g, f, inner, modeId, vs)[k] == inner[k]
    decreases |vs|
  {
    if vs != [] {
      FoldVarsUntouched(g, f, StepVar(g, f, inner, modeId, vs[0]), modeId, vs[1..], k);
    }
  }

  /**
   * Of the variables with the same `pathify(name)`, the last one that has
   * a value for the mode decides the token.
   */
  lemma {:induction false} FoldVarsLastWins(g: Graph, f: Flavor, inner: map<string, Token>, modeId: ModeId,
                                            vs: seq<Variable>, i: int)
    requires 0 <= i < |vs| && ValueForMode(vs[i], modeId).Some?
    requires forall j :: i < j < |vs| && Pathify(vs[j].name) == Pathify(vs[i].name) ==> ValueForMode(vs[j], modeId).None?
    ensures Pathify(vs[i].name) in FoldVars(g, f, inner, modeId, vs)
    ensures FoldVars(g, f, inner, modeId, vs)[Pathify(vs[i].name)] ==
            Token(TypeName(vs[i].resolvedType, f), Resolve(g, ValueForMode(vs[i], modeId).value, modeId))
    decreases |vs|
  {
    var next := StepVar(g, f, inner, modeId, vs[0]);
    var rest := vs[1..];
    if i == 0 {
      var k := Pathify(vs[0].name);
      assert k in next && next[k] == Token(TypeName(vs[0].resolvedType, f), Resolve(g, ValueForMode(vs[0], modeId).value, modeId));
      forall j | 0 <= j < |rest| && Pathify(rest[j].name) == k
        ensures ValueForMode(rest[j], modeId).None?
      {
        assert rest[j] == vs[j + 1];
      }
      FoldVarsUntouched(g, f, next, modeId, rest, k);
    } else {
      assert rest[i - 1] == vs[i];
      forall j | i - 1 < j < |rest| && Pathify(rest[j].name) == Pathify(rest[i - 1].name)
        ensures ValueForMode(rest[j], modeId).None?
      {
        assert rest[j] == vs[j + 1];
      }
      FoldVarsLastWins(g, f, next, modeId, rest, i - 1);
    }
  }

  /** A key is in a mode's table exactly when it was there or some variable with a value for the mode pathifies to it. */
  lemma {:induction false} FoldVarsKeys(g: Graph, f: Flavor, inner: map<string, Token>, modeId: ModeId,
                                        vs: seq<Variable>, k: string)
    ensures k in FoldVars(g, f, inner, modeId, vs) <==>
            k in inner || exists j :: 0 <= j < |vs| && ValueForMode(vs[j], modeId).Some? && Pathify(vs[j].name) == k
    decreases |vs|
  {
    if vs != [] {
      FoldVarsKeys(g, f, StepVar(g, f, inner, modeId, vs[0]), modeId, vs[1..], k);
      if exists j :: 0 <= j < |vs| && ValueForMode(vs[j], modeId).Some? && Pathify(vs[j].name) == k {
        var j :| 0 <= j < |vs| && ValueForMode(vs[j], modeId).Some? && Pathify(vs[j].name) == k;
        if j > 0 {
          assert vs[1..][j - 1] == vs[j];
        }
      }
    }
  }

  /** Every token of a table holds a resolved value: no alias and no RGBA object. */
  ghost predicate AllResolved(t: ModeTable) {
    forall n, k :: n in t.tokens && k in t.tokens[n] ==> !t.tokens[n][k].value.Alias? && !t.tokens[n][k].value.Color?
  }

  ghost predicate InnerResolved(inner: map<string, Token>) {
    forall k :: k in inner ==> !inner[k].value.Alias? && !inner[k].value.Color?
  }

  /** The mode names form the table's keys, each listed once in insertion order. */
  ghost predicate WellFormed(t: ModeTable) {
    (forall n :: n in t.names <==> n in t.tokens) &&
    (forall a, b :: 0 <= a < b < |t.names| ==> t.names[a] != t.names[b])
  }

  function NamesOf(es: seq<(ModeId, string)>): set<string> {
    set e | e in es :: e.1
  }

  function AllNames(f: Flavor, cols: seq<Collection>): set<string>
    decreases |cols|
  {
    if cols == [] then {} else NamesOf(ModeEntries(cols[0], f)) + AllNames(f, cols[1..])
  }

  lemma {:induction false} FoldVarsResolved(g: Graph, f: Flavor, inner: map<string, Token>, modeId: ModeId, vs: seq<Variable>)
    requires InnerResolved(inner)
    ensures InnerResolved(FoldVars(g, f, inner, modeId, vs))
    decreases |vs|
  {
    if vs != [] {
      FoldVarsResolved(g, f, StepVar(g, f, inner, modeId, vs[0]), modeId, vs[1..]);
    }
  }

  lemma {:induction false} FoldModesShape(g: Graph, f: Flavor, t: ModeTable, es: seq<(ModeId, string)>, vs: seq<Variable>)
    requires WellFormed(t) && AllResolved(t)
    ensures WellFormed(FoldModes(g, f, t, es, vs)) && AllResolved(FoldModes(g, f, t, es, vs))
    ensures FoldModes(g, f, t, es, vs).tokens.Keys == t.tokens.Keys + NamesOf(es)
    decreases |es|
  {
    if es != [] {
      var t2 := StepMode(g, f, t, es[0], vs);
      StepModeShape(g, f, t, es[0], vs);
      FoldModesShape(g, f, t2, es[1..], vs);
      NamesOfCons(es);
    }
  }

  /** One mode keeps the table well formed and resolved, and adds its name as a key. */
  lemma StepModeShape(g: Graph, f: Flavor, t: ModeTable, e: (ModeId, string), vs: seq<Variable>)
    requires WellFormed(t) && AllResolved(t)
    ensures var t2 := StepMode(g, f, t, e, vs);
      WellFormed(t2) && AllResolved(t2) && t2.tokens.Keys == t.tokens.Keys + {e.1}
  {
    var t1 := if e.1 in t.tokens then t else ModeTable(t.names + [e.1], t.tokens[e.1 := map[]]);
    if e.1 !in t.tokens {
      AddNameShape(t, e.1);
    }
    FoldVarsResolved(g, f, t1.tokens[e.1], e.0, vs);
    PutInnerShape(t1, e.1, FoldVars(g, f, t1.tokens[e.1], e.0, vs));
  }

  /** A new mode name goes to the end of the list with an empty map. */
  lemma AddNameShape(t: ModeTable, k: string)
    requires WellFormed(t) && AllResolved(t) && k !in t.tokens
    ensures var t1 := ModeTable(t.names + [k], t.tokens[k := map[]]);
      WellFormed(t1) && AllResolved(t1) && t1.tokens.Keys == t.tokens.Keys + {k}
  {
  }

  /** Replacing the map of a listed mode by a resolved one keeps the table's shape. */
  lemma PutInnerShape(t: ModeTable, k: string, inner: map<string, Token>)
    requires WellFormed(t) && AllResolved(t) && k in t.tokens && InnerResolved(inner)
    ensures var t2 := t.(tokens := t.tokens[k := inner]);
      WellFormed(t2) && AllResolved(t2) && t2.tokens.Keys == t.tokens.Keys
  {
  }

  lemma NamesOfCons(es: seq<(ModeId, string)>)
    requires es != []
    ensures NamesOf(es) == {es[0].1} + NamesOf(es[1..])
  {
    assert es == [es[0]] + es[1..];
  }

  lemma {:induction false} FoldColsShape(g: Graph, f: Flavor, t: ModeTable, cols: seq<Collection>, all: seq<Variable>)
    requires WellFormed(t) && AllResolved(t)
    ensures WellFormed(FoldCols(g, f, t, cols, all)) && AllResolved(FoldCols(g, f, t, cols, all))
    ensures FoldCols(g, f, t, cols, all).tokens.Keys == t.tokens.Keys + AllNames(f, cols)
    decreases |cols|
  {
    if cols != [] {
      var t1 := FoldModes(g, f, t, ModeEntries(cols[0], f), VarsIn(all, cols[0].id));
      FoldModesShape(g, f, t, ModeEntries(cols[0], f), VarsIn(all, cols[0].id));
      FoldColsShape(g, f, t1, cols[1..], all);
    }
  }

  /**
   * The table has exactly one entry per mode name walked (even when no
   * variable writes into it), lists each name once, and holds only
   * resolved values.
   */
  lemma TokensByModeShape(g: Graph, f: Flavor, cols: seq<Collection>, all: seq<Variable>)
    ensures TokensByMode(g, f, cols, all).tokens.Keys == AllNames(f, cols)
    ensures WellFormed(TokensByMode(g, f, cols, all))
    ensures AllResolved(TokensByMode(g, f, cols, all))
  {
    FoldColsShape(g, f, ModeTable([], map[]), cols, all);
  }

  /** With the variable module's walk, every mode name of every collection is a key, and nothing else is. */
  lemma {:induction false} CurrentNames(cols: seq<Collection>, n: string)
    ensures n in AllNames(Current, cols) <==> exists c, i :: c in cols && 0 <= i < |c.modes| && c.modes[i].name == n
    decreases |cols|
  {
    if cols != [] {
      CurrentNames(cols[1..], n);
      var es := ModeEntries(cols[0], Current);
      if n in NamesOf(es) {
        var e :| e in es && e.1 == n;
        var i :| 0 <= i < |es| && es[i] == e;
        assert cols[0] in cols && cols[0].modes[i].name == n;
      }
      if exists c, i :: c in cols && 0 <= i < |c.modes| && c.modes[i].name == n {
        var c, i :| c in cols && 0 <= i < |c.modes| && c.modes[i].name == n;
        if c == cols[0] {
          assert es[i] in es;
        } else {
          assert c in cols[1..];
        }
      }
    }
  }

  /** With distinct mode ids, the `Map` walk of the plugin entry file visits the same modes as the variable module. */
  lemma {:induction false} ModeNameMapDistinct(c: Collection)
    requires forall a, b :: 0 <= a < b < |c.modes| ==> c.modes[a].modeId != c.modes[b].modeId
    ensures ModeEntries(c, Legacy) == ModeEntries(c, Current)
    decreases |c.modes|
  {
    if c.modes != [] {
      var n := |c.modes|;
      var c' := c.(modes := c.modes[..n - 1]);
      ModeNameMapDistinct(c');
      assert ModeEntries(c', Current) == ModeEntries(c, Current)[..n - 1];
      assert KeyAbsent(ModeEntries(c', Current), c.modes[n - 1].modeId);
      assert ModeEntries(c, Current) == ModeEntries(c, Current)[..n - 1] + [(c.modes[n - 1].modeId, c.modes[n - 1].name)];
    }
  }

  // ---------------------------------------------------------------- methods

  /** The `varsByCol` loop: every variable appended to its collection's list. */
  method GroupByCollection(variables: seq<Variable>) returns (byCol: map<string, seq<Variable>>)
    ensures forall cid :: Get(byCol, cid) == VarsIn(variables, cid)
  {
    byCol := map[];
    for i := 0 to |variables|
      invariant forall cid :: Get(byCol, cid) == VarsIn(variables[..i], cid)
    {
      var v := variables[i];
      var arr := if v.collectionId in byCol then byCol[v.collectionId] else [];
      byCol := byCol[v.collectionId := arr + [v]];
      assert variables[..i + 1][..i] == variables[..i];
    }
    assert variables[..|variables|] == variables;
  }

  /** The innermost loop: every variable of the collection for one mode. */
  method FillMode(r: AliasResolver, f: Flavor, inner: map<string, Token>, modeId: ModeId, vs: seq<Variable>)
    returns (out: map<string, Token>)
    requires r.Valid()
    requires f == Current ==> AliasGraphAcyclic(r.graph)
    modifies r
    ensures r.Valid()
    ensures out == FoldVars(r.graph, f, inner, modeId, vs)
  {
    out := inner;
    for k := 0 to |vs|
      invariant r.Valid()
      invariant FoldVars(r.graph, f, out, modeId, vs[k..]) == FoldVars(r.graph, f, inner, modeId, vs)
    {
      var v := vs[k];
      assert vs[k..][1..] == vs[k + 1..];
      var raw := ValueForMode(v, modeId);
      if raw.None? {
        continue;
      }
      var val;
      if f == Current {
        val := r.ResolveValue(raw.value, modeId, {});
      } else {
        val := r.ResolveValueGuarded(raw.value, modeId, {});
      }
      out := out[Pathify(v.name) := Token(TypeName(v.resolvedType, f), val)];
    }
  }

  /** The loop over one collection's modes, each filled into the table. */
  method FillCollection(r: AliasResolver, f: Flavor, t0: ModeTable, es: seq<(ModeId, string)>, colVars: seq<Variable>)
    returns (t: ModeTable)
    requires r.Valid()
    requires f == Current ==> AliasGraphAcyclic(r.graph)
    modifies r
    ensures r.Valid()
    ensures t == FoldModes(r.graph, f, t0, es, colVars)
  {
    t := t0;
    for j := 0 to |es|
      invariant r.Valid()
      invariant FoldModes(r.graph, f, t, es[j..], colVars) == FoldModes(r.graph, f, t0, es, colVars)
    {
      var (modeId, modeName) := es[j];
      assert es[j..][1..] == es[j + 1..];
      ghost var before := t;
      if modeName !in t.tokens {
        t := ModeTable(t.names + [modeName], t.tokens[modeName := map[]]);
      }
      var inner := FillMode(r, f, t.tokens[modeName], modeId, colVars);
      t := t.(tokens := t.tokens[modeName := inner]);
      assert t == StepMode(r.graph, f, before, es[j], colVars);
    }
  }

  /** `buildTokensByMode`, or with `Legacy` the per-mode loop of the plugin's `run`. */
  method BuildTokensByMode(r: AliasResolver, f: Flavor, cols: seq<Collection>, variables: seq<Variable>)
    returns (t: ModeTable)
    requires r.Valid()
    requires f == Current ==> AliasGraphAcyclic(r.graph)
    modifies r
    ensures r.Valid()
    ensures t == TokensByMode(r.graph, f, cols, variables)
  {
    var byCol := GroupByCollection(variables);
    t := ModeTable([], map[]);
    for i := 0 to |cols|
      invariant r.Valid()
      invariant FoldCols(r.graph, f, t, cols[i..], variables) == TokensByMode(r.graph, f, cols, variables)
    {
      var col := cols[i];
      assert cols[i..][1..] == cols[i + 1..];
      t := FillCollection(r, f, t, ModeEntries(col, f), Get(byCol, col.id));
    }
  }
}
