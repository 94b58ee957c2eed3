/**
 * `buildW3CFromVariables`: the W3C design-token document. A first pass
 * sorts every variable into the core groups (palette, spacing, radius,
 * typography) or the mode colours, using its collection's first mode; a
 * second pass creates one theme per mode name of the mode-colour
 * collections; a third writes, for every mode-colour variable, its colour
 * for each mode into the override map of that mode's theme.
 *
 * Each group map keeps only the `$value` of its tokens: the `$type` is the
 * same for the whole map ("color" for the palette and the mode colours,
 * "dimension" for spacing, radius and the sizes, "number" for font weights).
 */
module W3C {
  import opened Options
  import opened Text
  import opened Naming
  import opened VariableData
  import opened Resolution
  import opened Resolver
  import opened Coercion
  import opened Seqs
  import opened Classify

  /** `core.typography`. `fontWeight` holds `Number(resolved)`, where `None` is `NaN`. */
  datatype TypeScale = TypeScale(fontFamily: string, fontWeight: map<string, Option<int>>,
                                 fontSize: map<string, string>, lineHeight: map<string, string>,
                                 letterSpacing: map<string, string>)

  /** `core`. */
  datatype Core = Core(palette: map<string, string>, radius: map<string, string>,
                       spacing: map<string, string>, typography: TypeScale)

  /** An entry of `$themes`: `overrides.modeColors.color` is `overrides`. */
  datatype Theme = Theme(id: string, name: string, overrides: map<string, string>)

  /** What the first pass builds: `core` and `modeColors.color`. */
  datatype Sheet = Sheet(core: Core, modeColors: map<string, string>)

  /** The whole document: `{ core, modeColors, $themes }`. */
  datatype Document = Document(core: Core, modeColors: map<string, string>, themes: seq<Theme>)

  /** The empty document body, with "Inter" as the default font family. */
  const EmptySheet: Sheet :=
    Sheet(Core(map[], map[], map[], TypeScale("Inter", map[], map[], map[], map[])), map[])

  /** `toDim(Number(x))`: `Number(x) || 0` followed by "px". */
  function ToDim(v: Value): string {
    IntToString(NumberOr0(v)) + "px"
  }

  /** A dimension text: an integer followed by "px". */
  predicate DimText(x: string) {
    |x| > 2 && x[|x| - 2..] == "px" && NumberOfString(x[..|x| - 2]).Some?
  }

  /** A dimension reads back as the number it was made from, `NaN` having become 0. */
  lemma ToDimRoundTrip(v: Value)
    ensures DimText(ToDim(v))
    ensures NumberOfString(ToDim(v)[..|ToDim(v)| - 2]) == Some(NumberOr0(v))
  {
    var n := IntToString(NumberOr0(v));
    var x := ToDim(v);
    assert x[..|x| - 2] == n;
    assert x[|x| - 2..] == "px";
    NumberOfIntToString(NumberOr0(v));
  }

  // ---------------------------------------------------------------- first pass

  /** The font-size, line-height, letter-spacing, font-weight or font-family token of one typography variable. */
  function Typeset(t: TypeScale, cat: string, leaf: string, resolved: Value): TypeScale {
    if cat == "font-family" && resolved.Str? then t.(fontFamily := resolved.s)
    else if cat == "font-weight" then t.(fontWeight := t.fontWeight[leaf := NumberOf(resolved)])
    else if cat == "font-size" then t.(fontSize := t.fontSize[leaf := ToDim(resolved)])
    else if cat == "line-height" then t.(lineHeight := t.lineHeight[leaf := ToDim(resolved)])
    else if cat == "letter-spacing" then t.(letterSpacing := t.letterSpacing[leaf := ToDim(resolved)])
    else t
  }

  /** The leaf of a palette, spacing or radius token: the second segment and the rest. */
  function GroupLeaf(h: Head): string {
    JoinRest([h.sub] + h.rest)
  }

  /** The leaf of a typography token: the segments after the second, or "value". */
  function TypeLeaf(h: Head): string {
    JoinRest(if h.rest != [] then h.rest else ["value"])
  }

  /** Where one resolved variable goes; a colour token whose value is `null` throws in `toHex`. */
  function Put(s: Sheet, grp: Group, v: Variable, resolved: Value): Result<Sheet> {
    var h := SplitHead(v.name);
    if grp == Palette && v.resolvedType == ColorType then
      match HexOf(resolved)
      case Fault => Fault
      case Ok(hex) => Ok(s.(core := s.core.(palette := s.core.palette[GroupLeaf(h) := hex])))
    else if grp == ModeColors && v.resolvedType == ColorType then
      match HexOf(resolved)
      case Fault => Fault
      case Ok(hex) => Ok(s.(modeColors := s.modeColors[Pathify(v.name) := hex]))
    else if grp == Spacing && v.resolvedType == FloatType then
      Ok(s.(core := s.core.(spacing := s.core.spacing[GroupLeaf(h) := ToDim(resolved)])))
    else if grp == Radius && v.resolvedType == FloatType then
      Ok(s.(core := s.core.(radius := s.core.radius[GroupLeaf(h) := ToDim(resolved)])))
    else if grp == Typography then
      Ok(s.(core := s.core.(typography := Typeset(s.core.typography, Cat(h.sub), TypeLeaf(h), resolved))))
    else Ok(s)
  }

  /** The value the first pass reads: the first mode's entry, else the first key's (else the first mode's again). */
  function BaseValue(col: Collection, v: Variable): Option<Value> {
    var modeId := FirstModeId(col);
    Pick(v.valuesByMode, modeId, Some(FirstKeyOr(v.valuesByMode, modeId)))
  }

  /** One variable of the first pass; a variable whose collection is missing throws. */
  function Place(g: Graph, cols: seq<Collection>, s: Sheet, v: Variable): Result<Sheet> {
    match FindCollection(cols, v.collectionId)
    case None => Fault
    case Some(col) =>
      match BaseValue(col, v)
      case None => Ok(s)
      case Some(raw) => Put(s, W3CGroupFor(col.name, v.name), v, Resolve(g, raw, FirstModeId(col)))
  }

  function PlaceAll(g: Graph, cols: seq<Collection>, s: Sheet, vs: seq<Variable>): Result<Sheet>
    decreases |vs|
  {
    if vs == [] then Ok(s)
    else
      match Place(g, cols, s, vs[0])
      case Fault => Fault
      case Ok(s1) => PlaceAll(g, cols, s1, vs[1..])
  }

  // ---------------------------------------------------------------- themes

  /** A theme's id: the mode name lower-cased, each whitespace run a "-"; it is not trimmed. */
  function ThemeId(name: string): string {
    CollapseSpace(Lower(name))
  }

  /** A theme id holds neither whitespace nor upper-case letters. */
  lemma ThemeIdShape(name: string)
    ensures NoSpace(ThemeId(name)) && NoUpper(ThemeId(name))
  {
    assert NoUpper(Lower(name));
  }

  /** `themeMap.set(t.name, t)`: a name already present keeps its place and gets the new theme. */
  function SetTheme(ts: seq<Theme>, t: Theme): (r: seq<Theme>)
    decreases |ts|
  {
    if ts == [] then [t]
    else if ts[0].name == t.name then [t] + ts[1..]
    else [ts[0]] + SetTheme(ts[1..], t)
  }

  function AddModes(ts: seq<Theme>, modes: seq<Mode>): seq<Theme>
    decreases |modes|
  {
    if modes == [] then ts
    else AddModes(SetTheme(ts, Theme(ThemeId(modes[0].name), modes[0].name, map[])), modes[1..])
  }

  /** The theme pass: every mode of every mode-colour collection, in order. */
  function ThemesFor(ts: seq<Theme>, cols: seq<Collection>): seq<Theme>
    decreases |cols|
  {
    if cols == [] then ts
    else ThemesFor(CollectionThemes(ts, cols[0]), cols[1..])
  }

  /** One collection of the theme pass: its modes if it is a mode-colour collection, else nothing. */
  function CollectionThemes(ts: seq<Theme>, c: Collection): seq<Theme> {
    if IsModeColorName(c.name) then AddModes(ts, c.modes) else ts
  }

  // ---------------------------------------------------------------- overrides

  /** The position of the theme named `name`, if any. */
  function ThemeIndex(ts: seq<Theme>, name: string): (r: Option<nat>)
    ensures r.Some? ==> r.value < |ts| && ts[r.value].name == name
    ensures r.None? ==> forall k :: 0 <= k < |ts| ==> ts[k].name != name
    decreases |ts|
  {
    if ts == [] then None
    else if ts[0].name == name then Some(0)
    else match ThemeIndex(ts[1..], name)
      case None => None
      case Some(k) => Some(k + 1)
  }

  /** `themeMap.get(name)!.overrides.modeColors.color[key] = hex`; a missing theme throws. */
  function SetOverride(ts: seq<Theme>, name: string, key: string, hex: string): Result<seq<Theme>> {
    match ThemeIndex(ts, name)
    case None => Fault
    case Some(k) => Ok(ts[k := ts[k].(overrides := ts[k].overrides[key := hex])])
  }

  /** The value the third pass reads for mode `m`, falling back to `fb`. */
  function ModeValue(v: Variable, fb: ModeId, m: Mode): Option<Value> {
    Pick(v.valuesByMode, m.modeId, Some(fb))
  }

  function OverrideModes(g: Graph, ts: seq<Theme>, v: Variable, fb: ModeId, modes: seq<Mode>): Result<seq<Theme>>
    decreases |modes|
  {
    if modes == [] then Ok(ts)
    else
      match ModeValue(v, fb, modes[0])
      case None => OverrideModes(g, ts, v, fb, modes[1..])
      case Some(raw) =>
        match HexOf(Resolve(g, raw, modes[0].modeId))
        case Fault => Fault
        case Ok(hex) =>
          match SetOverride(ts, modes[0].name, Pathify(v.name), hex)
          case Fault => Fault
          case Ok(ts1) => OverrideModes(g, ts1, v, fb, modes[1..])
  }

  /** The fallback key of the third pass: the first key, else the collection's first mode. */
  function ThemeFallback(col: Collection, v: Variable): ModeId {
    FirstKeyOr(v.valuesByMode, FirstModeId(col))
  }

  /** One variable of the third pass: only mode-colour COLOR variables write. */
  function Override(g: Graph, cols: seq<Collection>, ts: seq<Theme>, v: Variable): Result<seq<Theme>> {
    match FindCollection(cols, v.collectionId)
    case None => Fault
    case Some(col) =>
      if W3CGroupFor(col.name, v.name) != ModeColors || v.resolvedType != ColorType then Ok(ts)
      else OverrideModes(g, ts, v, ThemeFallback(col, v), col.modes)
  }

  function OverrideAll(g: Graph, cols: seq<Collection>, ts: seq<Theme>, vs: seq<Variable>): Result<seq<Theme>>
    decreases |vs|
  {
    if vs == [] then Ok(ts)
    else
      match Override(g, cols, ts, vs[0])
      case Fault => Fault
      case Ok(ts1) => OverrideAll(g, cols, ts1, vs[1..])
  }

  /** The document `buildW3CFromVariables` returns, or `Fault` when it throws. */
  function BuildW3C(g: Graph, cols: seq<Collection>, vs: seq<Variable>): Result<Document> {
    match PlaceAll(g, cols, EmptySheet, vs)
    case Fault => Fault
    case Ok(s) =>
      match OverrideAll(g, cols, ThemesFor([], cols), vs)
      case Fault => Fault
      case Ok(ts) => Ok(Document(s.core, s.modeColors, ts))
  }

  // ---------------------------------------------------------------- when it throws

  /** `colById.get(v.variableCollectionId)!` is `undefined`, so `groupFor` throws. */
  predicate MissingCollection(cols: seq<Collection>, v: Variable) {
    FindCollection(cols, v.collectionId).None?
  }

  /** A palette or mode-colour COLOR variable whose first-mode value resolves to `null`. */
  predicate NullBaseColor(g: Graph, cols: seq<Collection>, v: Variable) {
    match FindCollection(cols, v.collectionId)
    case None => false
    case Some(col) =>
      var grp := W3CGroupFor(col.name, v.name);
      (grp == Palette || grp == ModeColors) && v.resolvedType == ColorType &&
      BaseValue(col, v).Some? && Resolve(g, BaseValue(col, v).value, FirstModeId(col)) == Null
  }

  /** The value the third pass reads for mode `m` resolves to `null`. */
  predicate NullModeColor(g: Graph, v: Variable, fb: ModeId, m: Mode) {
    ModeValue(v, fb, m).Some? && Resolve(g, ModeValue(v, fb, m).value, m.modeId) == Null
  }

  /** A mode-colour COLOR variable with a mode whose value resolves to `null`. */
  predicate NullThemeColor(g: Graph, cols: seq<Collection>, v: Variable) {
    match FindCollection(cols, v.collectionId)
    case None => false
    case Some(col) =>
      W3CGroupFor(col.name, v.name) == ModeColors && v.resolvedType == ColorType &&
      exists j :: 0 <= j < |col.modes| && NullModeColor(g, v, ThemeFallback(col, v), col.modes[j])
  }

  /** A variable that makes `buildW3CFromVariables` throw a `TypeError`. */
  predicate Throws(g: Graph, cols: seq<Collection>, v: Variable) {
    MissingCollection(cols, v) || NullBaseColor(g, cols, v) || NullThemeColor(g, cols, v)
  }

  /** Only a palette or mode-colour COLOR token with a `null` value throws. */
  lemma PutFault(s: Sheet, grp: Group, v: Variable, resolved: Value)
    ensures Put(s, grp, v, resolved).Fault? <==>
            (grp == Palette || grp == ModeColors) && v.resolvedType == ColorType && resolved == Null
  {
    var h := SplitHead(v.name);
    if grp == Palette && v.resolvedType == ColorType {
      assert HexOf(resolved).Fault? <==> resolved == Null;
    } else if grp == ModeColors && v.resolvedType == ColorType {
      assert HexOf(resolved).Fault? <==> resolved == Null;
    } else if grp == Spacing && v.resolvedType == FloatType {
      assert Put(s, grp, v, resolved) == Ok(s.(core := s.core.(spacing := s.core.spacing[GroupLeaf(h) := ToDim(resolved)])));
    } else if grp == Radius && v.resolvedType == FloatType {
      assert Put(s, grp, v, resolved) == Ok(s.(core := s.core.(radius := s.core.radius[GroupLeaf(h) := ToDim(resolved)])));
    } else if grp == Typography {
      var t := Typeset(s.core.typography, Cat(h.sub), TypeLeaf(h), resolved);
      assert Put(s, grp, v, resolved) == Ok(s.(core := s.core.(typography := t)));
    } else {
      assert Put(s, grp, v, resolved) == Ok(s);
    }
  }

  /** One variable of the first pass throws exactly on a missing collection or a `null` colour. */
  lemma PlaceFault(g: Graph, cols: seq<Collection>, s: Sheet, v: Variable)
    ensures Place(g, cols, s, v).Fault? <==> MissingCollection(cols, v) || NullBaseColor(g, cols, v)
  {
    match FindCollection(cols, v.collectionId)
    case None =>
    case Some(col) =>
      match BaseValue(col, v)
      case None =>
      case Some(raw) =>
        PutFault(s, W3CGroupFor(col.name, v.name), v, Resolve(g, raw, FirstModeId(col)));
  }

  /** The first pass throws exactly when one of the variables does. */
  lemma {:induction false} PlaceAllFault(g: Graph, cols: seq<Collection>, s: Sheet, vs: seq<Variable>)
    ensures PlaceAll(g, cols, s, vs).Fault? <==>
            exists i :: 0 <= i < |vs| && (MissingCollection(cols, vs[i]) || NullBaseColor(g, cols, vs[i]))
    decreases |vs|
  {
    if vs != [] {
      var step := Place(g, cols, s, vs[0]);
      PlaceFault(g, cols, s, vs[0]);
      if step.Fault? {
        assert MissingCollection(cols, vs[0]) || NullBaseColor(g, cols, vs[0]);
      } else {
        assert PlaceAll(g, cols, s, vs) == PlaceAll(g, cols, step.value, vs[1..]);
        PlaceAllFault(g, cols, step.value, vs[1..]);
        ExistsPastHead(v => MissingCollection(cols, v) || NullBaseColor(g, cols, v), vs);
      }
    }
  }

  /** The names of a theme list. */
  function Names(ts: seq<Theme>): set<string> {
    set t | t in ts :: t.name
  }

  /** Writing an override keeps every theme's id and name. */
  predicate SameHeads(ts: seq<Theme>, us: seq<Theme>) {
    |ts| == |us| && forall k :: 0 <= k < |ts| ==> ts[k].id == us[k].id && ts[k].name == us[k].name
  }

  lemma SameHeadsNames(ts: seq<Theme>, us: seq<Theme>)
    requires SameHeads(ts, us)
    ensures Names(ts) == Names(us)
  {
    forall n | n in Names(ts) ensures n in Names(us) {
      var t :| t in ts && t.name == n;
      var k :| 0 <= k < |ts| && ts[k] == t;
      assert us[k] in us;
    }
    forall n | n in Names(us) ensures n in Names(ts) {
      var u :| u in us && u.name == n;
      var k :| 0 <= k < |us| && us[k] == u;
      assert ts[k] in ts;
    }
  }

  /**
   * With a theme for every mode's name, one variable's override loop throws
   * exactly when some mode's value resolves to `null`, and otherwise only
   * touches the overrides.
   */
  lemma {:induction false} OverrideModesFault(g: Graph, ts: seq<Theme>, v: Variable, fb: ModeId, modes: seq<Mode>)
    requires forall j :: 0 <= j < |modes| ==> modes[j].name in Names(ts)
    ensures OverrideModes(g, ts, v, fb, modes).Fault? <==> exists j :: 0 <= j < |modes| && NullModeColor(g, v, fb, modes[j])
    ensures OverrideModes(g, ts, v, fb, modes).Ok? ==> SameHeads(ts, OverrideModes(g, ts, v, fb, modes).value)
    decreases |modes|
  {
    if modes != [] {
      var m := modes[0];
      var rest := modes[1..];
      match ModeValue(v, fb, m)
      case None =>
        forall j | 0 <= j < |rest| ensures rest[j].name in Names(ts) {
          assert rest[j] == modes[j + 1];
        }
        OverrideModesFault(g, ts, v, fb, rest);
        NullModeTail(g, v, fb, modes);
      case Some(raw) =>
        var hex := HexOf(Resolve(g, raw, m.modeId));
        if hex.Ok? {
          SetOverrideHeads(ts, m.name, Pathify(v.name), hex.value);
          var ts1 := SetOverride(ts, m.name, Pathify(v.name), hex.value).value;
          assert OverrideModes(g, ts, v, fb, modes) == OverrideModes(g, ts1, v, fb, rest);
          forall j | 0 <= j < |rest| ensures rest[j].name in Names(ts1) {
            assert rest[j] == modes[j + 1];
          }
          OverrideModesFault(g, ts1, v, fb, rest);
          NullModeTail(g, v, fb, modes);
        } else {
          assert NullModeColor(g, v, fb, modes[0]);
        }
    }
  }

  /** Writing an override under a theme that exists succeeds and keeps every theme's id and name. */
  lemma SetOverrideHeads(ts: seq<Theme>, name: string, key: string, hex: string)
    requires name in Names(ts)
    ensures SetOverride(ts, name, key, hex).Ok?
    ensures SameHeads(ts, SetOverride(ts, name, key, hex).value)
    ensures Names(SetOverride(ts, name, key, hex).value) == Names(ts)
  {
    var t :| t in ts && t.name == name;
    var i :| 0 <= i < |ts| && ts[i] == t;
    assert ts[i].name == name;
    var us := SetOverride(ts, name, key, hex).value;
    assert SameHeads(ts, us);
    SameHeadsNames(ts, us);
  }

  /** A `null` among the modes after the first is a `null` among all of them. */
  lemma NullModeTail(g: Graph, v: Variable, fb: ModeId, modes: seq<Mode>)
    requires modes != [] && !NullModeColor(g, v, fb, modes[0])
    ensures (exists j :: 0 <= j < |modes| && NullModeColor(g, v, fb, modes[j])) <==>
            (exists j :: 0 <= j < |modes[1..]| && NullModeColor(g, v, fb, modes[1..][j]))
  {
    if exists j :: 0 <= j < |modes| && NullModeColor(g, v, fb, modes[j]) {
      var j :| 0 <= j < |modes| && NullModeColor(g, v, fb, modes[j]);
      assert modes[1..][j - 1] == modes[j];
    }
  }

  /** Every mode of every mode-colour collection has a theme of its name. */
  ghost predicate Covers(ts: seq<Theme>, cols: seq<Collection>) {
    forall c, j :: c in cols && IsModeColorName(c.name) && 0 <= j < |c.modes| ==> c.modes[j].name in Names(ts)
  }

  /** One variable of the third pass throws exactly on a missing collection or a `null` mode colour. */
  lemma OverrideFault(g: Graph, cols: seq<Collection>, ts: seq<Theme>, v: Variable)
    requires Covers(ts, cols)
    ensures Override(g, cols, ts, v).Fault? <==> MissingCollection(cols, v) || NullThemeColor(g, cols, v)
    ensures Override(g, cols, ts, v).Ok? ==> SameHeads(ts, Override(g, cols, ts, v).value)
  {
    match FindCollection(cols, v.collectionId)
    case None =>
    case Some(col) =>
      if W3CGroupFor(col.name, v.name) == ModeColors && v.resolvedType == ColorType {
        assert IsModeColorName(col.name);
        forall j | 0 <= j < |col.modes| ensures col.modes[j].name in Names(ts) {
        }
        OverrideModesFault(g, ts, v, ThemeFallback(col, v), col.modes);
      } else {
        assert Override(g, cols, ts, v) == Ok(ts);
      }
  }

  /** The third pass throws exactly when a variable's collection is missing or a mode colour resolves to `null`. */
  lemma {:induction false} OverrideAllFault(g: Graph, cols: seq<Collection>, ts: seq<Theme>, vs: seq<Variable>)
    requires Covers(ts, cols)
    ensures OverrideAll(g, cols, ts, vs).Fault? <==>
            exists i :: 0 <= i < |vs| && (MissingCollection(cols, vs[i]) || NullThemeColor(g, cols, vs[i]))
    ensures OverrideAll(g, cols, ts, vs).Ok? ==> SameHeads(ts, OverrideAll(g, cols, ts, vs).value)
    decreases |vs|
  {
    if vs != [] {
      OverrideFault(g, cols, ts, vs[0]);
      var step := Override(g, cols, ts, vs[0]);
      if step.Ok? {
        var ts1 := step.value;
        SameHeadsNames(ts, ts1);
        assert Covers(ts1, cols);
        assert OverrideAll(g, cols, ts, vs) == OverrideAll(g, cols, ts1, vs[1..]);
        OverrideAllFault(g, cols, ts1, vs[1..]);
        ExistsPastHead(v => MissingCollection(cols, v) || NullThemeColor(g, cols, v), vs);
        var u := OverrideAll(g, cols, ts1, vs[1..]);
        if u.Ok? {
          assert SameHeads(ts, u.value);
        }
      }
    }
  }

  // ---------------------------------------------------------------- theme list

  /** Themes as the theme pass creates them: one per name, id derived from the name, no overrides yet. */
  predicate FreshThemes(ts: seq<Theme>) {
    (forall a, b :: 0 <= a < b < |ts| ==> ts[a].name != ts[b].name) &&
    (forall k :: 0 <= k < |ts| ==> ts[k].id == ThemeId(ts[k].name) && ts[k].overrides == map[])
  }

  /**
   * `themeMap.set` of a fresh theme: a name already present leaves the list
   * as it was (the replacement is equal to what it replaces), a new name is
   * appended.
   */
  lemma {:induction false} SetThemeFresh(ts: seq<Theme>, t: Theme)
    requires FreshThemes(ts) && t.id == ThemeId(t.name) && t.overrides == map[]
    ensures SetTheme(ts, t) == if t.name in Names(ts) then ts else ts + [t]
    decreases |ts|
  {
    if ts != [] {
      FreshTail(ts);
      if ts[0].name != t.name {
        SetThemeFresh(ts[1..], t);
        SetThemeCons(ts, t);
      } else {
        assert ts[0] == t;
        SetThemeHead(ts, t);
      }
    }
  }

  /** Past a theme of another name, `themeMap.set` goes on with the rest of the list. */
  lemma SetThemeCons(ts: seq<Theme>, t: Theme)
    requires ts != [] && ts[0].name != t.name
    requires SetTheme(ts[1..], t) == if t.name in Names(ts[1..]) then ts[1..] else ts[1..] + [t]
    requires Names(ts) == {ts[0].name} + Names(ts[1..])
    ensures SetTheme(ts, t) == if t.name in Names(ts) then ts else ts + [t]
  {
    var rest := ts[1..];
    assert SetTheme(ts, t) == [ts[0]] + SetTheme(rest, t);
    assert ts == [ts[0]] + rest;
    assert [ts[0]] + (rest + [t]) == ts + [t];
  }

  /** Setting the theme that is already first leaves the list as it is. */
  lemma SetThemeHead(ts: seq<Theme>, t: Theme)
    requires ts != [] && ts[0] == t
    ensures SetTheme(ts, t) == ts && t.name in Names(ts)
  {
    assert ts[0] in ts;
    assert ts == [t] + ts[1..];
  }

  lemma FreshTail(ts: seq<Theme>)
    requires FreshThemes(ts) && ts != []
    ensures FreshThemes(ts[1..])
    ensures Names(ts) == {ts[0].name} + Names(ts[1..])
  {
    var rest := ts[1..];
    forall a, b | 0 <= a < b < |rest| ensures rest[a].name != rest[b].name {
      assert rest[a] == ts[a + 1] && rest[b] == ts[b + 1];
    }
    forall k | 0 <= k < |rest| ensures rest[k].id == ThemeId(rest[k].name) && rest[k].overrides == map[] {
      assert rest[k] == ts[k + 1];
    }
    forall n | n in Names(ts) ensures n in {ts[0].name} + Names(rest) {
      var u :| u in ts && u.name == n;
      var k :| 0 <= k < |ts| && ts[k] == u;
      if k > 0 {
        assert rest[k - 1] == u;
      }
    }
    forall n | n in Names(rest) ensures n in Names(ts) {
      var u :| u in rest && u.name == n;
      var k :| 0 <= k < |rest| && rest[k] == u;
      assert ts[k + 1] == u;
    }
    assert ts[0] in ts;
  }

  lemma AppendFresh(ts: seq<Theme>, t: Theme)
    requires FreshThemes(ts) && t.id == ThemeId(t.name) && t.overrides == map[] && t.name !in Names(ts)
    ensures FreshThemes(ts + [t]) && Names(ts + [t]) == Names(ts) + {t.name}
  {
    forall a, b | 0 <= a < b < |ts + [t]| ensures (ts + [t])[a].name != (ts + [t])[b].name {
      if b == |ts| {
        assert ts[a] in ts;
      }
    }
  }

  /** The names of a collection's modes. */
  function ModeNames(modes: seq<Mode>): set<string> {
    set m | m in modes :: m.name
  }

  /** The mode names of the mode-colour collections. */
  function ModeColorNames(cols: seq<Collection>): set<string>
    decreases |cols|
  {
    if cols == [] then {}
    else CollectionModeNames(cols[0]) + ModeColorNames(cols[1..])
  }

  function CollectionModeNames(c: Collection): set<string> {
    if IsModeColorName(c.name) then ModeNames(c.modes) else {}
  }

  /** One collection keeps the list fresh and adds its mode names. */
  lemma CollectionThemesFresh(ts: seq<Theme>, c: Collection)
    requires FreshThemes(ts)
    ensures FreshThemes(CollectionThemes(ts, c))
    ensures Names(CollectionThemes(ts, c)) == Names(ts) + CollectionModeNames(c)
  {
    if IsModeColorName(c.name) {
      AddModesFresh(ts, c.modes);
    }
  }

  lemma {:induction false} AddModesFresh(ts: seq<Theme>, modes: seq<Mode>)
    requires FreshThemes(ts)
    ensures FreshThemes(AddModes(ts, modes))
    ensures Names(AddModes(ts, modes)) == Names(ts) + ModeNames(modes)
    decreases |modes|
  {
    if modes != [] {
      var t := Theme(ThemeId(modes[0].name), modes[0].name, map[]);
      var ts1 := SetTheme(ts, t);
      SetThemeNames(ts, t);
      AddModesFresh(ts1, modes[1..]);
      ModeNamesCons(modes);
    }
  }

  /** `themeMap.set` of a fresh theme keeps the list fresh and adds its name. */
  lemma SetThemeNames(ts: seq<Theme>, t: Theme)
    requires FreshThemes(ts) && t.id == ThemeId(t.name) && t.overrides == map[]
    ensures FreshThemes(SetTheme(ts, t)) && Names(SetTheme(ts, t)) == Names(ts) + {t.name}
  {
    SetThemeFresh(ts, t);
    if t.name !in Names(ts) {
      AppendFresh(ts, t);
    }
  }

  lemma ModeNamesCons(modes: seq<Mode>)
    requires modes != []
    ensures ModeNames(modes) == {modes[0].name} + ModeNames(modes[1..])
  {
    assert modes == [modes[0]] + modes[1..];
  }

  lemma UnionAssoc(a: set<string>, b: set<string>, c: set<string>)
    ensures (a + b) + c == a + (b + c)
  {
  }

  lemma ThemesForCons(ts: seq<Theme>, cols: seq<Collection>)
    requires cols != []
    ensures ThemesFor(ts, cols) == ThemesFor(CollectionThemes(ts, cols[0]), cols[1..])
    ensures ModeColorNames(cols) == CollectionModeNames(cols[0]) + ModeColorNames(cols[1..])
  {
    ModeColorNamesCons(cols);
  }

  lemma ModeColorNamesCons(cols: seq<Collection>)
    requires cols != []
    ensures ModeColorNames(cols) == CollectionModeNames(cols[0]) + ModeColorNames(cols[1..])
  {
  }

  lemma {:induction false} ThemesForFresh(ts: seq<Theme>, cols: seq<Collection>)
    requires FreshThemes(ts)
    ensures FreshThemes(ThemesFor(ts, cols))
    ensures Names(ThemesFor(ts, cols)) == Names(ts) + ModeColorNames(cols)
    decreases |cols|
  {
    if cols != [] {
      var ts1 := CollectionThemes(ts, cols[0]);
      CollectionThemesFresh(ts, cols[0]);
      ThemesForFresh(ts1, cols[1..]);
      ThemesForCons(ts, cols);
      UnionAssoc(Names(ts), CollectionModeNames(cols[0]), ModeColorNames(cols[1..]));
    }
  }

  /** Every mode of every mode-colour collection contributes its name. */
  lemma {:induction false} ModeColorNamesCover(cols: seq<Collection>)
    ensures forall c, j :: c in cols && IsModeColorName(c.name) && 0 <= j < |c.modes| ==> c.modes[j].name in ModeColorNames(cols)
    decreases |cols|
  {
    if cols != [] {
      ModeColorNamesCover(cols[1..]);
      forall c, j | c in cols && IsModeColorName(c.name) && 0 <= j < |c.modes|
        ensures c.modes[j].name in ModeColorNames(cols)
      {
        if c == cols[0] {
          assert c.modes[j] in c.modes;
        } else {
          assert c in cols[1..];
        }
      }
    }
  }

  /** The theme pass gives one fresh theme per distinct mode name of the mode-colour collections, and covers them all. */
  lemma ThemesForShape(cols: seq<Collection>)
    ensures FreshThemes(ThemesFor([], cols))
    ensures Names(ThemesFor([], cols)) == ModeColorNames(cols)
    ensures Covers(ThemesFor([], cols), cols)
  {
    ThemesForFresh([], cols);
    ModeColorNamesCover(cols);
  }

  // ---------------------------------------------------------------- shape of the groups

  /** Leaves without whitespace, each holding an integer followed by "px". */
  predicate DimMap(m: map<string, string>) {
    forall k :: k in m ==> NoSpace(k) && DimText(m[k])
  }

  /**
   * What the first pass keeps true: every dimension is "<integer>px", no
   * core leaf holds whitespace, and no mode-colour key holds a "/".
   */
  predicate SheetShape(s: Sheet) {
    DimMap(s.core.spacing) && DimMap(s.core.radius) &&
    DimMap(s.core.typography.fontSize) && DimMap(s.core.typography.lineHeight) &&
    DimMap(s.core.typography.letterSpacing) &&
    (forall k :: k in s.core.typography.fontWeight ==> NoSpace(k)) &&
    (forall k :: k in s.core.palette ==> NoSpace(k)) &&
    (forall k :: k in s.modeColors ==> '/' !in k)
  }

  lemma DimMapPut(m: map<string, string>, k: string, v: Value)
    requires DimMap(m) && NoSpace(k)
    ensures DimMap(m[k := ToDim(v)])
  {
    ToDimRoundTrip(v);
    DimMapPutText(m, k, ToDim(v));
  }

  lemma DimMapPutText(m: map<string, string>, k: string, d: string)
    requires DimMap(m) && NoSpace(k) && DimText(d)
    ensures DimMap(m[k := d])
  {
    forall k' | k' in m[k := d] ensures NoSpace(k') && DimText(m[k := d][k']) {
      if k' != k {
        assert m[k := d][k'] == m[k'];
      }
    }
  }

  lemma TypesetShape(t: TypeScale, cat: string, leaf: string, resolved: Value)
    requires DimMap(t.fontSize) && DimMap(t.lineHeight) && DimMap(t.letterSpacing)
    requires forall k :: k in t.fontWeight ==> NoSpace(k)
    requires NoSpace(leaf)
    ensures var u := Typeset(t, cat, leaf, resolved);
      DimMap(u.fontSize) && DimMap(u.lineHeight) && DimMap(u.letterSpacing) &&
      (forall k :: k in u.fontWeight ==> NoSpace(k))
  {
    if cat == "font-family" && resolved.Str? {
    } else if cat == "font-weight" {
    } else if cat == "font-size" {
      DimMapPut(t.fontSize, leaf, resolved);
    } else if cat == "line-height" {
      DimMapPut(t.lineHeight, leaf, resolved);
    } else if cat == "letter-spacing" {
      DimMapPut(t.letterSpacing, leaf, resolved);
    }
  }

  lemma PutShape(s: Sheet, grp: Group, v: Variable, resolved: Value)
    requires SheetShape(s) && Put(s, grp, v, resolved).Ok?
    ensures SheetShape(Put(s, grp, v, resolved).value)
  {
    var h := SplitHead(v.name);
    if grp == Palette && v.resolvedType == ColorType {
    } else if grp == ModeColors && v.resolvedType == ColorType {
    } else if grp == Spacing && v.resolvedType == FloatType {
      DimMapPut(s.core.spacing, GroupLeaf(h), resolved);
    } else if grp == Radius && v.resolvedType == FloatType {
      DimMapPut(s.core.radius, GroupLeaf(h), resolved);
    } else if grp == Typography {
      TypesetShape(s.core.typography, Cat(h.sub), TypeLeaf(h), resolved);
    } else {
      assert Put(s, grp, v, resolved) == Ok(s);
    }
  }

  lemma {:induction false} PlaceAllShape(g: Graph, cols: seq<Collection>, s: Sheet, vs: seq<Variable>)
    requires SheetShape(s) && PlaceAll(g, cols, s, vs).Ok?
    ensures SheetShape(PlaceAll(g, cols, s, vs).value)
    decreases |vs|
  {
    if vs != [] {
      var v := vs[0];
      var col := FindCollection(cols, v.collectionId).value;
      match BaseValue(col, v)
      case None =>
        PlaceAllShape(g, cols, s, vs[1..]);
      case Some(raw) =>
        PutShape(s, W3CGroupFor(col.name, v.name), v, Resolve(g, raw, FirstModeId(col)));
        PlaceAllShape(g, cols, Place(g, cols, s, v).value, vs[1..]);
    }
  }

  // ---------------------------------------------------------------- the document

  /**
   * `buildW3CFromVariables` throws exactly when some variable names a
   * collection that is not there, or a colour it would write (in the
   * palette, the mode colours or a theme) resolves to `null`.
   */
  lemma BuildW3CFault(g: Graph, cols: seq<Collection>, vs: seq<Variable>)
    ensures BuildW3C(g, cols, vs).Fault? <==> exists i :: 0 <= i < |vs| && Throws(g, cols, vs[i])
  {
    PlaceAllFault(g, cols, EmptySheet, vs);
    ThemesForShape(cols);
    OverrideAllFault(g, cols, ThemesFor([], cols), vs);
  }

  /**
   * The themes of a built document: one per distinct mode name of the
   * mode-colour collections, in first-seen order, each with the id derived
   * from its name.
   */
  lemma BuildW3CThemes(g: Graph, cols: seq<Collection>, vs: seq<Variable>)
    requires BuildW3C(g, cols, vs).Ok?
    ensures var ts := BuildW3C(g, cols, vs).value.themes;
      Names(ts) == ModeColorNames(cols) &&
      (forall a, b :: 0 <= a < b < |ts| ==> ts[a].name != ts[b].name) &&
      (forall k :: 0 <= k < |ts| ==> ts[k].id == ThemeId(ts[k].name))
  {
    var t0 := ThemesFor([], cols);
    ThemesForShape(cols);
    OverrideAllFault(g, cols, t0, vs);
    var ts := BuildW3C(g, cols, vs).value.themes;
    assert SameHeads(t0, ts);
    SameHeadsNames(t0, ts);
  }

  /**
   * In a built document every spacing, radius, font-size, line-height and
   * letter-spacing value is "<integer>px", no core leaf holds whitespace,
   * no mode-colour key holds a "/", and the font family is "Inter" unless
   * a typography variable supplied a string.
   */
  lemma BuildW3CShape(g: Graph, cols: seq<Collection>, vs: seq<Variable>)
    requires BuildW3C(g, cols, vs).Ok?
    ensures var d := BuildW3C(g, cols, vs).value; SheetShape(Sheet(d.core, d.modeColors))
  {
    PlaceAllShape(g, cols, EmptySheet, vs);
  }

  // ---------------------------------------------------------------- methods

  /**
   * The first pass resolves each variable only under its collection's
   * first mode, so only chains followed for that mode must not loop.
   */
  ghost predicate FirstModeAcyclic(g: Graph, cols: seq<Collection>, v: Variable) {
    var found := FindCollection(cols, v.collectionId);
    found.Some? ==> AcyclicUnder(g, FirstModeId(found.value))
  }

  /**
   * The last pass resolves only the colours of mode-colour variables, each
   * under every mode of its collection.
   */
  ghost predicate OverridesAcyclic(g: Graph, cols: seq<Collection>, v: Variable) {
    var found := FindCollection(cols, v.collectionId);
    found.Some? && W3CGroupFor(found.value.name, v.name) == ModeColors && v.resolvedType == ColorType ==>
      forall m :: m in found.value.modes ==> AcyclicUnder(g, m.modeId)
  }

  /** With no alias among the values for mode `m`, no chain for `m` can loop. */
  lemma NoAliasAcyclic(g: Graph, m: ModeId)
    requires forall x :: Next(g, x, m).None?
    ensures AcyclicUnder(g, m)
  {
  }

  /** Two variables whose values for mode `m` alias each other form a cycle for `m`. */
  lemma TwoCycle(g: Graph, m: ModeId, x: Id, y: Id)
    requires Next(g, x, m) == Some(y) && Next(g, y, m) == Some(x)
    ensures !AcyclicUnder(g, m)
  {
    assert ReachesIn(g, m, x, x, 0);
    assert ReachesIn(g, m, y, x, 1);
    assert ReachesIn(g, m, x, x, 2);
    assert ReachesPlus(g, m, x, x);
  }

  /** The values of a variable with a number under "a1" and an alias under "a2". */
  lemma SpacingHops(v: Variable, n: int, y: Id)
    requires v.valuesByMode == [("a1", Num(n)), ("a2", Alias(y))]
    ensures ValueForMode(v, "a1") == Some(Num(n)) && ValueForMode(v, "a2") == Some(Alias(y))
  {
    assert Lookup(v.valuesByMode, "a1") == Some(Num(n));
    assert Lookup(v.valuesByMode, "a2") == Some(Alias(y));
  }

  /**
   * Two spacing variables of a plain two-mode collection that alias each
   * other only under the second mode: the graph has a cycle, yet both
   * passes may run on it, since the first resolves under the first mode
   * only and the last skips collections that are not mode colours.
   */
  lemma CycleUnderSecondMode(g: Graph, cols: seq<Collection>, vs: seq<Variable>)
    requires g.Keys == {"s4", "s8"}
    requires g["s4"].valuesByMode == [("a1", Num(4)), ("a2", Alias("s8"))]
    requires g["s8"].valuesByMode == [("a1", Num(8)), ("a2", Alias("s4"))]
    requires cols == [Collection("c", "x", [Mode("a1", "A1"), Mode("a2", "A2")])]
    requires forall v :: v in vs ==> v.collectionId == "c"
    ensures !AliasGraphAcyclic(g)
    ensures forall v :: v in vs ==> FirstModeAcyclic(g, cols, v) && OverridesAcyclic(g, cols, v)
  {
    SpacingHops(g["s4"], 4, "s8");
    SpacingHops(g["s8"], 8, "s4");
    TwoCycle(g, "a2", "s4", "s8");
    NoAliasAcyclic(g, "a1");
    forall v | v in vs ensures FirstModeAcyclic(g, cols, v) && OverridesAcyclic(g, cols, v) {
      PlainCollectionOk(g, cols, v);
    }
  }

  /** A variable of the collection "x", whose first mode has no cycle, meets both pass conditions. */
  lemma PlainCollectionOk(g: Graph, cols: seq<Collection>, v: Variable)
    requires cols == [Collection("c", "x", [Mode("a1", "A1"), Mode("a2", "A2")])]
    requires v.collectionId == "c" && AcyclicUnder(g, "a1")
    ensures FirstModeAcyclic(g, cols, v) && OverridesAcyclic(g, cols, v)
  {
    NotModeColor("x");
    assert FindCollection(cols, "c") == Some(cols[0]);
  }

  /** The first loop of `buildW3CFromVariables`. */
  method PlaceVariables(r: AliasResolver, cols: seq<Collection>, variables: seq<Variable>)
    returns (res: Result<Sheet>)
    requires r.Valid()
    requires forall v :: v in variables ==> FirstModeAcyclic(r.graph, cols, v)
    modifies r
    ensures r.Valid()
    ensures res == PlaceAll(r.graph, cols, EmptySheet, variables)
  {
    var s := EmptySheet;
    for i := 0 to |variables|
      invariant r.Valid()
      invariant PlaceAll(r.graph, cols, s, variables[i..]) == PlaceAll(r.graph, cols, EmptySheet, variables)
    {
      var v := variables[i];
      assert variables[i..][1..] == variables[i + 1..];
      var found := FindCollection(cols, v.collectionId);
      if found.None? {
        return Fault;
      }
      var col := found.value;
      var grp := W3CGroupFor(col.name, v.name);
      var modeId := FirstModeId(col);
      assert AcyclicUnder(r.graph, modeId) by {
        assert v in variables && FirstModeAcyclic(r.graph, cols, v);
      }
      var fb := FirstKeyOr(v.valuesByMode, modeId);
      var raw := Pick(v.valuesByMode, modeId, Some(fb));
      if raw.None? {
        continue;
      }
      var resolved := r.ResolveValue(raw.value, modeId, {});
      var h := SplitHead(v.name);
      if grp == Palette && v.resolvedType == ColorType {
        var hex := HexOf(resolved);
        if hex.Fault? {
          return Fault;
        }
        s := s.(core := s.core.(palette := s.core.palette[JoinRest([h.sub] + h.rest) := hex.value]));
      } else if grp == ModeColors && v.resolvedType == ColorType {
        var hex := HexOf(resolved);
        if hex.Fault? {
          return Fault;
        }
        s := s.(modeColors := s.modeColors[Pathify(v.name) := hex.value]);
      } else if grp == Spacing && v.resolvedType == FloatType {
        s := s.(core := s.core.(spacing := s.core.spacing[JoinRest([h.sub] + h.rest) := ToDim(resolved)]));
      } else if grp == Radius && v.resolvedType == FloatType {
        s := s.(core := s.core.(radius := s.core.radius[JoinRest([h.sub] + h.rest) := ToDim(resolved)]));
      } else if grp == Typography {
        var cat := Cat(h.sub);
        var leaf := JoinRest(if h.rest != [] then h.rest else ["value"]);
        var t := s.core.typography;
        if cat == "font-family" && resolved.Str? {
          t := t.(fontFamily := resolved.s);
        } else if cat == "font-weight" {
          t := t.(fontWeight := t.fontWeight[leaf := NumberOf(resolved)]);
        } else if cat == "font-size" {
          t := t.(fontSize := t.fontSize[leaf := ToDim(resolved)]);
        } else if cat == "line-height" {
          t := t.(lineHeight := t.lineHeight[leaf := ToDim(resolved)]);
        } else if cat == "letter-spacing" {
          t := t.(letterSpacing := t.letterSpacing[leaf := ToDim(resolved)]);
        }
        s := s.(core := s.core.(typography := t));
      }
    }
    return Ok(s);
  }

  /** The `themeMap` loop: one theme per mode name of the mode-colour collections. */
  method CollectThemes(cols: seq<Collection>) returns (themes: seq<Theme>)
    ensures themes == ThemesFor([], cols)
  {
    themes := [];
    for i := 0 to |cols|
      invariant ThemesFor(themes, cols[i..]) == ThemesFor([], cols)
    {
      var c := cols[i];
      assert cols[i..][1..] == cols[i + 1..];
      assert ThemesFor(themes, cols[i..]) == ThemesFor(CollectionThemes(themes, c), cols[i + 1..]);
      if IsModeColorName(c.name) {
        themes := AddModeThemes(themes, c.modes);
      }
    }
  }

  /** The inner loop of the theme pass: a theme for each mode of one collection. */
  method AddModeThemes(t0: seq<Theme>, modes: seq<Mode>) returns (themes: seq<Theme>)
    ensures themes == AddModes(t0, modes)
  {
    themes := t0;
    for j := 0 to |modes|
      invariant AddModes(themes, modes[j..]) == AddModes(t0, modes)
    {
      var m := modes[j];
      assert modes[j..][1..] == modes[j + 1..];
      themes := SetTheme(themes, Theme(ThemeId(m.name), m.name, map[]));
    }
  }

  /** The inner loop of the last pass: one variable's colour for each mode of its collection. */
  method OverrideVariable(r: AliasResolver, themes0: seq<Theme>, v: Variable, fb: ModeId, modes: seq<Mode>)
    returns (res: Result<seq<Theme>>)
    requires r.Valid()
    requires forall m :: m in modes ==> AcyclicUnder(r.graph, m.modeId)
    modifies r
    ensures r.Valid()
    ensures res == OverrideModes(r.graph, themes0, v, fb, modes)
  {
    var key := Pathify(v.name);
    var themes := themes0;
    for j := 0 to |modes|
      invariant r.Valid()
      invariant OverrideModes(r.graph, themes, v, fb, modes[j..]) == OverrideModes(r.graph, themes0, v, fb, modes)
    {
      var m := modes[j];
      assert modes[j..][1..] == modes[j + 1..];
      var raw := Pick(v.valuesByMode, m.modeId, Some(fb));
      if raw.None? {
        continue;
      }
      var val := r.ResolveValue(raw.value, m.modeId, {});
      var hex := HexOf(val);
      if hex.Fault? {
        return Fault;
      }
      var k := ThemeIndex(themes, m.name);
      if k.None? {
        return Fault;
      }
      var theme := themes[k.value];
      themes := themes[k.value := theme.(overrides := theme.overrides[key := hex.value])];
    }
    return Ok(themes);
  }

  /** The last loop: every mode-colour variable's colour for each mode, written into that mode's theme. */
  method ApplyOverrides(r: AliasResolver, cols: seq<Collection>, themes0: seq<Theme>, variables: seq<Variable>)
    returns (res: Result<seq<Theme>>)
    requires r.Valid()
    requires forall v :: v in variables ==> OverridesAcyclic(r.graph, cols, v)
    modifies r
    ensures r.Valid()
    ensures res == OverrideAll(r.graph, cols, themes0, variables)
  {
    var themes := themes0;
    for i := 0 to |variables|
      invariant r.Valid()
      invariant OverrideAll(r.graph, cols, themes, variables[i..]) == OverrideAll(r.graph, cols, themes0, variables)
    {
      var v := variables[i];
      assert variables[i..][1..] == variables[i + 1..];
      var found := FindCollection(cols, v.collectionId);
      if found.None? {
        return Fault;
      }
      var col := found.value;
      if W3CGroupFor(col.name, v.name) != ModeColors || v.resolvedType != ColorType {
        continue;
      }
      assert forall m :: m in col.modes ==> AcyclicUnder(r.graph, m.modeId) by {
        assert v in variables && OverridesAcyclic(r.graph, cols, v);
      }
      var next := OverrideVariable(r, themes, v, FirstKeyOr(v.valuesByMode, FirstModeId(col)), col.modes);
      if next.Fault? {
        return Fault;
      }
      themes := next.value;
    }
    return Ok(themes);
  }

  /** `buildW3CFromVariables`; `Fault` is the `TypeError` it throws. */
  method BuildW3CFromVariables(r: AliasResolver, cols: seq<Collection>, variables: seq<Variable>)
    returns (res: Result<Document>)
    requires r.Valid()
    requires forall v :: v in variables ==> FirstModeAcyclic(r.graph, cols, v) && OverridesAcyclic(r.graph, cols, v)
    modifies r
    ensures r.Valid()
    ensures res == BuildW3C(r.graph, cols, variables)
  {
    var sheet := PlaceVariables(r, cols, variables);
    if sheet.Fault? {
      return Fault;
    }
    var themes := CollectThemes(cols);
    var overridden := ApplyOverrides(r, cols, themes, variables);
    if overridden.Fault? {
      return Fault;
    }
    return Ok(Document(sheet.value.core, sheet.value.modeColors, overridden.value));
  }
}
