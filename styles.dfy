/**
 * Local styles turned into tokens: the font-weight ladder `weightFromStyle`,
 * `buildShadows` over effect styles, `buildTypeStyles` over text styles (in
 * its typed and its older compiled form) and, from the plugin entry file,
 * `buildW3CTypography`, `dimRef` and the `bind` of `serializeTextStyle`.
 *
 * Style lists are given as values; the host calls that fetch them are not
 * part of this model. Numbers are integers, so `Number(x) || d` is `x`
 * unless `x` is 0 or missing.
 */
module Styles {
  import opened Options
  import opened Text
  import opened Naming
  import opened Colors
  import opened VariableData
  import opened Tables
  import opened Coercion

  // ---------------------------------------------------------------- weights

  /** `t` occurs inside `s` wherever a word containing it does. */
  lemma ContainsPart(s: string, w: string, i: int, j: int)
    requires Contains(s, w) && 0 <= i <= j <= |w|
    ensures Contains(s, w[i..j])
  {
    var p :| 0 <= p <= |s| - |w| && OccursAt(s, w, p);
    assert s[p..p + |w|] == w;
    forall k | 0 <= k < j - i ensures s[p + i..p + j][k] == w[i..j][k] {
      assert s[p + i + k] == s[p..p + |w|][i + k];
    }
    assert OccursAt(s, w[i..j], p + i);
  }

  /** "extrabold" and "ultrabold" both contain "bold". */
  lemma BoldInside(s: string)
    ensures Contains(s, "extrabold") || Contains(s, "ultrabold") ==> Contains(s, "bold")
  {
    assert "extrabold"[5..9] == "bold" && "ultrabold"[5..9] == "bold";
    if Contains(s, "extrabold") {
      ContainsPart(s, "extrabold", 5, 9);
    } else if Contains(s, "ultrabold") {
      ContainsPart(s, "ultrabold", 5, 9);
    }
  }

  /**
   * `weightFromStyle(style)` as written: the first rung whose word occurs in
   * the lower-cased style name. "bold" is checked before "extrabold" and
   * "ultrabold", so 800 is never returned.
   */
  function WeightFromStyle(style: string): (w: int)
    ensures w in {100, 200, 300, 400, 500, 600, 700, 900}
  {
    var s := Lower(style);
    BoldInside(s);
    if Contains(s, "thin") then 100
    else if Contains(s, "extralight") || Contains(s, "ultralight") then 200
    else if Contains(s, "light") then 300
    else if Contains(s, "regular") || Contains(s, "book") || Contains(s, "normal") then 400
    else if Contains(s, "medium") then 500
    else if Contains(s, "semibold") || Contains(s, "demibold") then 600
    else if Contains(s, "bold") then 700
    else if Contains(s, "extrabold") || Contains(s, "ultrabold") then 800
    else if Contains(s, "black") || Contains(s, "heavy") then 900
    else 400
  }

  /** A style name naming one of the rungs above "bold" in the ladder. */
  predicate EarlierRung(s: string) {
    Contains(s, "thin") || Contains(s, "extralight") || Contains(s, "ultralight") || Contains(s, "light") ||
    Contains(s, "regular") || Contains(s, "book") || Contains(s, "normal") || Contains(s, "medium") ||
    Contains(s, "semibold") || Contains(s, "demibold")
  }

  /** An "ExtraBold" or "UltraBold" face that no earlier rung claims gets 700 from the ladder as written. */
  lemma ExtraBoldShadowed(style: string)
    requires Contains(Lower(style), "extrabold") || Contains(Lower(style), "ultrabold")
    requires !EarlierRung(Lower(style))
    ensures WeightFromStyle(style) == 700
  {
    BoldInside(Lower(style));
  }

  /** The ladder with "extrabold" and "ultrabold" checked before "bold", as its 800 rung intends. */
  function Weight(style: string): (w: int)
    ensures w in {100, 200, 300, 400, 500, 600, 700, 800, 900}
  {
    var s := Lower(style);
    if Contains(s, "thin") then 100
    else if Contains(s, "extralight") || Contains(s, "ultralight") then 200
    else if Contains(s, "light") then 300
    else if Contains(s, "regular") || Contains(s, "book") || Contains(s, "normal") then 400
    else if Contains(s, "medium") then 500
    else if Contains(s, "semibold") || Contains(s, "demibold") then 600
    else if Contains(s, "extrabold") || Contains(s, "ultrabold") then 800
    else if Contains(s, "bold") then 700
    else if Contains(s, "black") || Contains(s, "heavy") then 900
    else 400
  }

  /**
   * The corrected ladder gives 800 exactly to the faces the written one
   * sends to 700 by mistake, and agrees with it on every other name.
   */
  lemma WeightCorrects(style: string)
    ensures var s := Lower(style);
      if (Contains(s, "extrabold") || Contains(s, "ultrabold")) && !EarlierRung(s)
      then Weight(style) == 800 && WeightFromStyle(style) == 700
      else Weight(style) == WeightFromStyle(style)
  {
    var s := Lower(style);
    if (Contains(s, "extrabold") || Contains(s, "ultrabold")) && !EarlierRung(s) {
      ExtraBoldShadowed(style);
    }
  }

  /** A word two of whose adjacent letters, at `k` and `k + 1`, never follow each other in `s` does not occur in it. */
  lemma NotContains(s: string, t: string, k: nat)
    requires k + 1 < |t|
    requires forall i :: 0 <= i < |s| - 1 ==> !(s[i] == t[k] && s[i + 1] == t[k + 1])
    ensures !Contains(s, t)
  {
    forall i | 0 <= i <= |s| - |t| ensures !OccursAt(s, t, i) {
      assert s[i..i + |t|][k] == s[i + k] && s[i..i + |t|][k + 1] == s[i + k + 1];
    }
  }

  /** No rung above "bold" names the face "extrabold". */
  lemma ExtraBoldNoEarlierRung()
    ensures !EarlierRung("extrabold")
  {
    var s := "extrabold";
    NotContains(s, "thin", 0);
    NotContains(s, "light", 0);
    NotContains(s, "extralight", 5);
    NotContains(s, "ultralight", 0);
    NotContains(s, "regular", 0);
    NotContains(s, "book", 1);
    NotContains(s, "normal", 0);
    NotContains(s, "medium", 0);
    NotContains(s, "semibold", 0);
    NotContains(s, "demibold", 0);
  }

  /** The face "ExtraBold": 700 from the ladder as written, 800 from the corrected one. */
  lemma ExtraBoldExample()
    ensures WeightFromStyle("ExtraBold") == 700
    ensures Weight("ExtraBold") == 800
  {
    assert Lower("ExtraBold") == "extrabold";
    assert OccursAt("extrabold", "extrabold", 0);
    ExtraBoldNoEarlierRung();
    ExtraBoldShadowed("ExtraBold");
  }

  /** The ladder ignores case. */
  lemma WeightCaseInsensitive(style: string)
    ensures Weight(Lower(style)) == Weight(style)
    ensures WeightFromStyle(Lower(style)) == WeightFromStyle(style)
  {
    assert Lower(Lower(style)) == Lower(style);
  }

  // ---------------------------------------------------------------- shadows

  datatype EffectKind = DropShadow | InnerShadow | LayerBlur | BackgroundBlur

  datatype Offset = Offset(x: int, y: int)

  /** An effect as `buildShadows` reads it; a missing number is `None`. */
  datatype Effect = Effect(kind: EffectKind, color: Rgba, offset: Option<Offset>, radius: Option<int>, spread: Option<int>)

  datatype EffectStyle = EffectStyle(name: string, effects: seq<Effect>)

  /** One entry of a shadow token's `$value`; every length is in px. */
  datatype Shadow = Shadow(color: string, offsetX: int, offsetY: int, blur: int, spread: int, inset: bool)

  /** `n || 0` on a number that may be missing. */
  function OrZero(n: Option<int>): int {
    if n.Some? then n.value else 0
  }

  predicate IsShadow(e: Effect) {
    e.kind == DropShadow || e.kind == InnerShadow
  }

  /**
   * The shadow entry of an effect: its colour with all four bytes, its
   * offsets, blur and spread (0 when missing), and `inset` exactly for an
   * inner shadow.
   */
  function ShadowOf(e: Effect): (s: Shadow)
    ensures s.inset <==> e.kind == InnerShadow
    ensures InRange(e.color) ==> |s.color| == 9
    ensures e.offset.None? ==> s.offsetX == 0 && s.offsetY == 0
    ensures e.radius.None? ==> s.blur == 0
    ensures e.spread.None? ==> s.spread == 0
  {
    var ox := if e.offset.Some? then e.offset.value.x else 0;
    var oy := if e.offset.Some? then e.offset.value.y else 0;
    Shadow(ShadowHex(e.color), ox, oy, OrZero(e.radius), OrZero(e.spread), e.kind == InnerShadow)
  }

  /** The inner loop of `buildShadows`: the shadow entries of the drop and inner shadows, in order. */
  function ShadowsOf(es: seq<Effect>): seq<Shadow>
    decreases |es|
  {
    if es == [] then []
    else
      var last := es[|es| - 1];
      ShadowsOf(es[..|es| - 1]) + (if IsShadow(last) then [ShadowOf(last)] else [])
  }

  /** Shadows are kept in order: the entries of two runs of effects are those of each, one after the other. */
  lemma {:induction false} ShadowsOfConcat(a: seq<Effect>, b: seq<Effect>)
    ensures ShadowsOf(a + b) == ShadowsOf(a) + ShadowsOf(b)
    decreases |b|
  {
    if b == [] {
      assert a + b == a;
    } else {
      var init := b[..|b| - 1];
      ShadowsOfConcat(a, init);
      assert (a + b)[..|a + b| - 1] == a + init;
      assert (a + b)[|a + b| - 1] == b[|b| - 1];
    }
  }

  /** A style has shadow entries exactly when one of its effects is a drop or inner shadow. */
  lemma {:induction false} ShadowsOfEmpty(es: seq<Effect>)
    ensures ShadowsOf(es) == [] <==> forall i :: 0 <= i < |es| ==> !IsShadow(es[i])
    decreases |es|
  {
    if es != [] {
      var init := es[..|es| - 1];
      ShadowsOfEmpty(init);
      assert forall i :: 0 <= i < |init| ==> init[i] == es[i];
    }
  }

  /** What the outer loop writes for one style: its `kebab` key, and its entries when there are any. */
  function ShadowWrite(st: EffectStyle): (string, Option<seq<Shadow>>) {
    var arr := ShadowsOf(st.effects);
    (Kebab(st.name), if arr != [] then Some(arr) else None)
  }

  function ShadowWrites(ss: seq<EffectStyle>): (r: seq<(string, Option<seq<Shadow>>)>)
    ensures |r| == |ss| && forall i :: 0 <= i < |ss| ==> r[i] == ShadowWrite(ss[i])
  {
    seq(|ss|, i requires 0 <= i < |ss| => ShadowWrite(ss[i]))
  }

  /** `buildShadows(effectStyles).shadows`: shadow entries by `kebab` style name. */
  function ShadowTable(ss: seq<EffectStyle>): map<string, seq<Shadow>> {
    Writes(ShadowWrites(ss))
  }

  /** A key is present exactly when a style of that `kebab` name has a drop or inner shadow. */
  lemma ShadowKeys(ss: seq<EffectStyle>, k: string)
    ensures k in ShadowTable(ss) <==>
            exists i, j :: 0 <= i < |ss| && 0 <= j < |ss[i].effects| && Kebab(ss[i].name) == k && IsShadow(ss[i].effects[j])
  {
    var ws := ShadowWrites(ss);
    WritesKeys(ws, k);
    forall i | 0 <= i < |ss| ensures ws[i].1.Some? <==> exists j :: 0 <= j < |ss[i].effects| && IsShadow(ss[i].effects[j]) {
      ShadowsOfEmpty(ss[i].effects);
    }
  }

  /** Of two styles with the same `kebab` name, the later one that has shadows wins. */
  lemma ShadowLastWins(ss: seq<EffectStyle>, i: int)
    requires 0 <= i < |ss| && ShadowsOf(ss[i].effects) != []
    requires forall j :: i < j < |ss| && Kebab(ss[j].name) == Kebab(ss[i].name) ==> ShadowsOf(ss[j].effects) == []
    ensures Kebab(ss[i].name) in ShadowTable(ss) && ShadowTable(ss)[Kebab(ss[i].name)] == ShadowsOf(ss[i].effects)
  {
    var ws := ShadowWrites(ss);
    forall j | i < j < |ws| && ws[j].0 == ws[i].0 ensures ws[j].1.None? {
      assert ws[j] == ShadowWrite(ss[j]);
    }
    WritesValue(ws, i);
  }

  lemma ShadowsOfStep(es: seq<Effect>, j: int)
    requires 0 <= j < |es|
    ensures ShadowsOf(es[..j + 1]) == ShadowsOf(es[..j]) + if IsShadow(es[j]) then [ShadowOf(es[j])] else []
  {
    assert es[..j + 1][..j] == es[..j];
  }

  /**
   * `buildShadows`: for each style the inner loop collects the entries of
   * its drop and inner shadows, and the outer one writes them under the
   * style's `kebab` name when there are any.
   */
  method BuildShadows(ss: seq<EffectStyle>) returns (out: map<string, seq<Shadow>>)
    ensures out == ShadowTable(ss)
  {
    ghost var ws := ShadowWrites(ss);
    out := map[];
    for i := 0 to |ss|
      invariant out == Writes(ws[..i])
    {
      var st := ss[i];
      var arr: seq<Shadow> := [];
      for j := 0 to |st.effects|
        invariant arr == ShadowsOf(st.effects[..j])
      {
        var ef := st.effects[j];
        ShadowsOfStep(st.effects, j);
        if IsShadow(ef) {
          arr := arr + [ShadowOf(ef)];
        }
      }
      assert st.effects[..|st.effects|] == st.effects;
      if |arr| > 0 {
        out := out[Kebab(st.name) := arr];
      }
      assert ws[i] == (Kebab(st.name), if arr != [] then Some(arr) else None);
      WritesStep(ws, i);
    }
    assert ws[..|ss|] == ws;
  }

  // ---------------------------------------------------------------- type styles

  /** A line height: `{unit: "AUTO"}`, a `{value, unit}` object, or a bare number. */
  datatype LineHeight = Auto | Sized(value: int) | Bare(n: int)

  /**
   * A text style. `bound` maps a property name to the id of the variable
   * bound to it by alias; `letterSpacing` is its value, `None` when absent.
   */
  datatype TextStyle = TextStyle(name: string, family: string, style: string, fontSize: int,
                                 lineHeight: LineHeight, letterSpacing: Option<int>, bound: map<string, Id>,
                                 description: string, paragraphSpacing: int, textCase: string, textDecoration: string)

  /**
   * A typography measure: a bare number, "<n>px" text, a `{value: n, unit:
   * "px"}` object, or a `{value: "{path}", unit: "px"}` reference.
   */
  datatype Measure = Unitless(n: int) | PxText(text: string) | Px(n: int) | PxRef(ref: string)

  /** The `$value` of a typography token. */
  datatype TypeValue = TypeValue(fontFamily: string, fontWeight: int, fontSize: Measure, lineHeight: Measure, letterSpacing: Measure)

  const FontFamilyRef: string := "{typography.font-family}"

  /** The typed and the older compiled `buildTypeStyles`. */
  datatype Edition = Typed | Compiled

  /** `toDim(n)` of `buildTypeStyles`: "<n>px". */
  function PxString(n: int): string {
    IntToString(n) + "px"
  }

  /** `Number(x) || 1`. */
  function OrOne(n: int): int {
    if n == 0 then 1 else n
  }

  /** The `$value` `buildTypeStyles` writes for a text style. */
  function TypeValueOf(t: TextStyle, ed: Edition): (r: TypeValue)
    ensures r.fontFamily == FontFamilyRef
    ensures r.fontWeight == WeightFromStyle(t.style)
    ensures t.lineHeight.Auto? ==> r.lineHeight == Unitless(1)
  {
    var lh := match t.lineHeight
      case Auto => Unitless(1)
      case Sized(v) => if ed == Typed then PxText(PxString(v)) else Px(v)
      case Bare(n) => Unitless(OrOne(n));
    match ed
    case Typed =>
      TypeValue(FontFamilyRef, WeightFromStyle(t.style), PxText(PxString(t.fontSize)), lh, Unitless(OrZero(t.letterSpacing)))
    case Compiled =>
      TypeValue(FontFamilyRef, WeightFromStyle(t.style), Px(t.fontSize), lh, Px(OrZero(t.letterSpacing)))
  }

  /**
   * The two editions carry the same numbers: the typed one writes the font
   * size and a sized line height as "<n>px" text, which reads back as the
   * compiled one's number, and the letter spacing without its unit.
   */
  lemma EditionsAgree(t: TextStyle)
    ensures var a, b := TypeValueOf(t, Typed), TypeValueOf(t, Compiled);
      a.fontFamily == b.fontFamily && a.fontWeight == b.fontWeight &&
      a.fontSize.PxText? && b.fontSize.Px? && ReadPx(a.fontSize.text) == Some(b.fontSize.n) &&
      (b.lineHeight.Px? ==> a.lineHeight.PxText? && ReadPx(a.lineHeight.text) == Some(b.lineHeight.n)) &&
      (!b.lineHeight.Px? ==> a.lineHeight == b.lineHeight) &&
      a.letterSpacing == Unitless(b.letterSpacing.n)
  {
    var a, b := TypeValueOf(t, Typed), TypeValueOf(t, Compiled);
    assert a.fontSize == PxText(PxString(t.fontSize)) && b.fontSize == Px(t.fontSize);
    PxRoundTrip(t.fontSize);
    match t.lineHeight
    case Sized(v) =>
      assert a.lineHeight == PxText(PxString(v)) && b.lineHeight == Px(v);
      PxRoundTrip(v);
    case Auto =>
    case Bare(n) =>
  }

  /** The number in "<n>px" text, if it is one. */
  function ReadPx(x: string): Option<int> {
    if |x| >= 2 && x[|x| - 2..] == "px" then NumberOfString(x[..|x| - 2]) else None
  }

  lemma PxRoundTrip(n: int)
    ensures ReadPx(PxString(n)) == Some(n)
  {
    var x := PxString(n);
    assert x[..|x| - 2] == IntToString(n);
    assert x[|x| - 2..] == "px";
    NumberOfIntToString(n);
  }

  /** What the loop writes for one style. */
  function TypeWrite(t: TextStyle, ed: Edition): (string, Option<TypeValue>) {
    (Kebab(t.name), Some(TypeValueOf(t, ed)))
  }

  function TypeWrites(ts: seq<TextStyle>, ed: Edition): (r: seq<(string, Option<TypeValue>)>)
    ensures |r| == |ts| && forall i :: 0 <= i < |ts| ==> r[i] == TypeWrite(ts[i], ed)
  {
    seq(|ts|, i requires 0 <= i < |ts| => TypeWrite(ts[i], ed))
  }

  /** `buildTypeStyles(textStyles)["type styles"]`: one token per `kebab` style name. */
  function TypeTable(ts: seq<TextStyle>, ed: Edition): map<string, TypeValue> {
    Writes(TypeWrites(ts, ed))
  }

  /** Every style has a token under its `kebab` name, and the last style of a name wins. */
  lemma TypeStylesKeys(ts: seq<TextStyle>, ed: Edition, k: string)
    ensures k in TypeTable(ts, ed) <==> exists i :: 0 <= i < |ts| && Kebab(ts[i].name) == k
  {
    var ws := TypeWrites(ts, ed);
    WritesKeys(ws, k);
    forall i | 0 <= i < |ts| ensures ws[i].0 == Kebab(ts[i].name) && ws[i].1.Some? {
      assert ws[i] == TypeWrite(ts[i], ed);
    }
  }

  lemma TypeStylesLastWins(ts: seq<TextStyle>, ed: Edition, i: int)
    requires 0 <= i < |ts|
    requires forall j :: i < j < |ts| ==> Kebab(ts[j].name) != Kebab(ts[i].name)
    ensures Kebab(ts[i].name) in TypeTable(ts, ed) && TypeTable(ts, ed)[Kebab(ts[i].name)] == TypeValueOf(ts[i], ed)
  {
    var ws := TypeWrites(ts, ed);
    forall j | i < j < |ws| ensures ws[j].0 != ws[i].0 {
      assert ws[j].0 == Kebab(ts[j].name);
    }
    WritesValue(ws, i);
  }

  /** `buildTypeStyles`: one write per style, under its `kebab` name. */
  method BuildTypeStyles(ts: seq<TextStyle>, ed: Edition) returns (out: map<string, TypeValue>)
    ensures out == TypeTable(ts, ed)
  {
    ghost var ws := TypeWrites(ts, ed);
    out := map[];
    for i := 0 to |ts|
      invariant out == Writes(ws[..i])
    {
      var t := ts[i];
      var value := TypeValueOf(t, ed);
      out := out[Kebab(t.name) := value];
      assert ws[i] == (Kebab(t.name), Some(value));
      WritesStep(ws, i);
    }
    assert ws[..|ts|] == ws;
  }

  // ---------------------------------------------------------------- typography of the plugin entry file

  /** `bind(prop, val)` of `serializeTextStyle`: a property bound by alias becomes a reference to the variable. */
  datatype Bound<T> = AliasOf(prop: string, variableId: Id) | Literal(value: T)

  function Bind<T>(t: TextStyle, prop: string, val: T): (r: Bound<T>)
    ensures r.AliasOf? <==> prop in t.bound
    ensures r.AliasOf? ==> r.prop == prop && r.variableId == t.bound[prop]
    ensures r.Literal? ==> r.value == val
  {
    if prop in t.bound then AliasOf(prop, t.bound[prop]) else Literal(val)
  }

  /** The record `serializeTextStyle` builds: name, description, and the six bindable properties. */
  datatype SerializedText = SerializedText(name: string, description: string, fontSize: Bound<int>,
                                           lineHeight: Bound<LineHeight>, letterSpacing: Bound<Option<int>>,
                                           paragraphSpacing: Bound<int>, textCase: Bound<string>,
                                           textDecoration: Bound<string>)

  /** The properties `serializeTextStyle` passes through `bind`. */
  const Bindable: set<string> := {"fontSize", "lineHeight", "letterSpacing", "paragraphSpacing", "textCase", "textDecoration"}

  function SerializeTextStyle(t: TextStyle): SerializedText {
    SerializedText(t.name, t.description, Bind(t, "fontSize", t.fontSize), Bind(t, "lineHeight", t.lineHeight),
                   Bind(t, "letterSpacing", t.letterSpacing), Bind(t, "paragraphSpacing", t.paragraphSpacing),
                   Bind(t, "textCase", t.textCase), Bind(t, "textDecoration", t.textDecoration))
  }

  /** The properties the record holds as alias references. */
  function AliasedProps(o: SerializedText): set<string> {
    (if o.fontSize.AliasOf? then {o.fontSize.prop} else {}) +
    (if o.lineHeight.AliasOf? then {o.lineHeight.prop} else {}) +
    (if o.letterSpacing.AliasOf? then {o.letterSpacing.prop} else {}) +
    (if o.paragraphSpacing.AliasOf? then {o.paragraphSpacing.prop} else {}) +
    (if o.textCase.AliasOf? then {o.textCase.prop} else {}) +
    (if o.textDecoration.AliasOf? then {o.textDecoration.prop} else {})
  }

  /**
   * The record holds an alias reference for exactly the bindable
   * properties the style binds, and every other property as the style's
   * own value.
   */
  lemma SerializeAliases(t: TextStyle)
    ensures AliasedProps(SerializeTextStyle(t)) == Bindable * t.bound.Keys
  {
    var o := SerializeTextStyle(t);
    forall p | p in Bindable * t.bound.Keys ensures p in AliasedProps(o) {
    }
  }

  /** Bindings of other properties, and the variables they name, do not change the record. */
  lemma SerializeIgnoresOtherBindings(t: TextStyle, extra: map<string, Id>)
    requires forall p :: p in extra ==> p !in Bindable
    ensures SerializeTextStyle(t.(bound := t.bound + extra)) == SerializeTextStyle(t)
  {
  }

  /** `getTokenPathByVarId(id)`: the dotted path of the variable, or `None` when it does not exist. */
  function TokenPath(g: Graph, id: Id): (r: Option<string>)
    ensures r.Some? <==> id in g
    ensures r.Some? ==> '/' !in r.value
  {
    if id in g then Some(Pathify(g[id].name)) else None
  }

  /** The path a bound property refers to; an empty path counts as none, being falsy. */
  function RefPath(g: Graph, t: TextStyle, prop: string): Option<string> {
    if prop in t.bound then
      var p := TokenPath(g, t.bound[prop]);
      if p.Some? && p.value != "" then p else None
    else None
  }

  /** `dimRef(path)`: `{value: "{path}", unit: "px"}`. */
  function DimRef(path: string): (r: Measure)
    ensures r.PxRef? && |r.ref| == |path| + 2
    ensures r.ref[0] == '{' && r.ref[|r.ref| - 1] == '}' && r.ref[1..|r.ref| - 1] == path
  {
    PxRef("{" + path + "}")
  }

  /** The `$value` `buildW3CTypography` writes for a text style. */
  function W3CTypeValue(g: Graph, t: TextStyle): TypeValue {
    var fs := RefPath(g, t, "fontSize");
    var lhp := RefPath(g, t, "lineHeight");
    var lsp := RefPath(g, t, "letterSpacing");
    var fontSize := if fs.Some? then DimRef(fs.value) else Px(t.fontSize);
    var lineHeight :=
      if lhp.Some? then DimRef(lhp.value)
      else match t.lineHeight
        case Auto => Unitless(1)
        case Sized(v) => Px(v)
        case Bare(_) => Px(0);
    var letterSpacing := if lsp.Some? then DimRef(lsp.value) else Px(OrZero(t.letterSpacing));
    var fontFamily := if t.family != "" then FontFamilyRef else t.family;
    TypeValue(fontFamily, WeightFromStyle(t.style), fontSize, lineHeight, letterSpacing)
  }

  /**
   * A property bound by alias to a variable with a non-empty path refers to
   * that path, read back from between the braces; otherwise the literal is
   * kept in px.
   */
  lemma W3CTypeRefs(g: Graph, t: TextStyle)
    ensures var r := W3CTypeValue(g, t);
      (RefPath(g, t, "fontSize").Some? <==> r.fontSize.PxRef?) &&
      (r.fontSize.PxRef? ==> r.fontSize.ref[1..|r.fontSize.ref| - 1] == Pathify(g[t.bound["fontSize"]].name)) &&
      (!r.fontSize.PxRef? ==> r.fontSize == Px(t.fontSize)) &&
      (RefPath(g, t, "letterSpacing").Some? <==> r.letterSpacing.PxRef?) &&
      (r.letterSpacing.PxRef? ==> r.letterSpacing.ref[1..|r.letterSpacing.ref| - 1] == Pathify(g[t.bound["letterSpacing"]].name)) &&
      (!r.letterSpacing.PxRef? ==> r.letterSpacing == Px(OrZero(t.letterSpacing))) &&
      (RefPath(g, t, "lineHeight").Some? <==> r.lineHeight.PxRef?) &&
      (r.lineHeight.PxRef? ==> r.lineHeight.ref[1..|r.lineHeight.ref| - 1] == Pathify(g[t.bound["lineHeight"]].name)) &&
      (!r.lineHeight.PxRef? && t.lineHeight.Auto? ==> r.lineHeight == Unitless(1)) &&
      (r.fontFamily == FontFamilyRef <==> t.family != "")
  {
  }

  /**
   * With nothing bound, a family and a line height that is not a bare
   * number, the entry file's typography writes what the compiled
   * `buildTypeStyles` does.
   */
  lemma W3CTypeAgreesWithCompiled(g: Graph, t: TextStyle)
    requires t.bound == map[] && t.family != "" && !t.lineHeight.Bare?
    ensures W3CTypeValue(g, t) == TypeValueOf(t, Compiled)
  {
  }

  function W3CTypeWrites(g: Graph, ts: seq<TextStyle>): (r: seq<(string, Option<TypeValue>)>)
    ensures |r| == |ts| && forall i :: 0 <= i < |ts| ==> r[i] == (ts[i].name, Some(W3CTypeValue(g, ts[i])))
  {
    seq(|ts|, i requires 0 <= i < |ts| => (ts[i].name, Some(W3CTypeValue(g, ts[i]))))
  }

  /** `buildW3CTypography(textStyles)["type styles"]`: keyed by the style's own name. */
  function W3CTypography(g: Graph, ts: seq<TextStyle>): map<string, TypeValue> {
    Writes(W3CTypeWrites(g, ts))
  }

  lemma W3CTypographyKeys(g: Graph, ts: seq<TextStyle>, k: string)
    ensures k in W3CTypography(g, ts) <==> exists i :: 0 <= i < |ts| && ts[i].name == k
  {
    WritesKeys(W3CTypeWrites(g, ts), k);
  }

  lemma W3CTypographyLastWins(g: Graph, ts: seq<TextStyle>, i: int)
    requires 0 <= i < |ts|
    requires forall j :: i < j < |ts| ==> ts[j].name != ts[i].name
    ensures ts[i].name in W3CTypography(g, ts) && W3CTypography(g, ts)[ts[i].name] == W3CTypeValue(g, ts[i])
  {
    var ws := W3CTypeWrites(g, ts);
    forall j | i < j < |ws| ensures ws[j].0 != ws[i].0 {
      assert ws[j].0 == ts[j].name;
    }
    WritesValue(ws, i);
  }

  /**
   * `buildW3CTypography`: one write per style, under its own name; the
   * variable lookups behind the references read the graph.
   */
  method BuildW3CTypography(g: Graph, ts: seq<TextStyle>) returns (out: map<string, TypeValue>)
    ensures out == W3CTypography(g, ts)
  {
    ghost var ws := W3CTypeWrites(g, ts);
    out := map[];
    for i := 0 to |ts|
      invariant out == Writes(ws[..i])
    {
      var t := ts[i];
      var value := W3CTypeValue(g, t);
      out := out[t.name := value];
      WritesStep(ws, i);
    }
    assert ws[..|ts|] == ws;
  }
}
