/**
 * The older `buildW3CFromVariables` of the compiled JavaScript sources. It
 * classifies by collection name alone, reads each variable's value under
 * its first key without resolving aliases, keys every token by
 * `pathify(name)`, stores dimensions as `{ value, unit: "px" }` (kept here
 * as the number), and derives one theme per mode name of the per-mode
 * token table, whose overrides are that mode's "color." tokens.
 */
module W3CLegacy {
  import opened Options
  import opened Text
  import opened Naming
  import opened VariableData
  import opened Coercion
  import opened Classify
  import opened TokenTable
  import Colors
  import W3C
  import Seqs

  /** `core.typography`; a dimension is the `value` of `{ value, unit: "px" }`. */
  datatype TypeScale = TypeScale(fontFamily: string, fontWeight: map<string, Option<int>>,
                                 fontSize: map<string, int>, lineHeight: map<string, int>,
                                 letterSpacing: map<string, int>)

  datatype Core = Core(palette: map<string, string>, radius: map<string, int>,
                       spacing: map<string, int>, typography: TypeScale)

  /** What the variable loop builds: `core` and `semantic.color`. */
  datatype Sheet = Sheet(core: Core, semantic: map<string, string>)

  /** An entry of `$themes`: `overrides.semantic.color` keeps each token's `$value`. */
  datatype Theme = Theme(id: string, name: string, overrides: map<string, Value>)

  datatype Document = Document(core: Core, semantic: map<string, string>, themes: seq<Theme>)

  const EmptySheet: Sheet :=
    Sheet(Core(map[], map[], map[], TypeScale("Inter", map[], map[], map[], map[])), map[])

  /** The category and leaf of a typography token: `p[1] || ""` and `p.slice(2).join(".") || "value"`. */
  function TypeCat(p: seq<string>): string {
    if |p| > 1 then p[1] else ""
  }

  function TypeLeaf(p: seq<string>): (r: string)
    ensures r != ""
  {
    var rest := if |p| > 2 then Join(p[2..], ".") else "";
    if rest != "" then rest else "value"
  }

  function Typeset(t: TypeScale, p: seq<string>, base: Value): TypeScale {
    var cat := TypeCat(p);
    var leaf := TypeLeaf(p);
    if cat == "font-family" && base.Str? then t.(fontFamily := base.s)
    else if cat == "font-weight" then t.(fontWeight := t.fontWeight[leaf := NumberOf(base)])
    else if cat == "font-size" then t.(fontSize := t.fontSize[leaf := NumberOr0(base)])
    else if cat == "line-height" then t.(lineHeight := t.lineHeight[leaf := NumberOr0(base)])
    else if cat == "letter-spacing" then t.(letterSpacing := t.letterSpacing[leaf := NumberOr0(base)])
    else t
  }

  /**
   * The colour text of the inline `H` digits: it reads `.r`, `.g`, `.b` and
   * `.a` off the unresolved value, so an alias or any other non-colour
   * gives "#NaNNaNNaN".
   */
  function LegacyHex(base: Value): (r: string)
    requires base != Null
    ensures base.Color? ==> r == Colors.RgbaToHex(base.c)
  {
    ToHex(base).value
  }

  /** Where one variable with a value goes. */
  function Put(s: Sheet, grp: Group, v: Variable, base: Value): Sheet
    requires base != Null
  {
    var key := Pathify(v.name);
    if grp == Palette && v.resolvedType == ColorType then
      s.(core := s.core.(palette := s.core.palette[key := LegacyHex(base)]))
    else if grp == ModeColors && v.resolvedType == ColorType then
      s.(semantic := s.semantic[key := LegacyHex(base)])
    else if grp == Radius && v.resolvedType == FloatType then
      s.(core := s.core.(radius := s.core.radius[key := NumberOr0(base)]))
    else if grp == Spacing && v.resolvedType == FloatType then
      s.(core := s.core.(spacing := s.core.spacing[key := NumberOr0(base)]))
    else if grp == Typography then
      s.(core := s.core.(typography := Typeset(s.core.typography, Split(key, '.'), base)))
    else s
  }

  /** `valuesByMode[ids[0] || ""]`, the only value this builder reads. */
  function BaseOf(v: Variable): Option<Value> {
    Lookup(v.valuesByMode, FirstKeyOr(v.valuesByMode, ""))
  }

  /** One variable: a missing collection throws in `groupFor`; a missing or `null` value is skipped. */
  function Place(cols: seq<Collection>, s: Sheet, v: Variable): Result<Sheet> {
    match FindCollection(cols, v.collectionId)
    case None => Fault
    case Some(col) =>
      match BaseOf(v)
      case None => Ok(s)
      case Some(base) => if base == Null then Ok(s) else Ok(Put(s, LegacyGroupFor(col.name), v, base))
  }

  function PlaceAll(cols: seq<Collection>, s: Sheet, vs: seq<Variable>): Result<Sheet>
    decreases |vs|
  {
    if vs == [] then Ok(s)
    else
      match Place(cols, s, vs[0])
      case Fault => Fault
      case Ok(s1) => PlaceAll(cols, s1, vs[1..])
  }

  /** The key a "color." token path is stored under. */
  const ColorPrefix: string := "color."

  /**
   * The overrides of one mode: every token of type "color" whose path starts
   * with "color.", under the path without that prefix.
   */
  function ColorOverridesOf(inner: map<string, Token>): map<string, Value> {
    OverrideKeysSound(inner);
    map s | s in OverrideKeys(inner) :: inner[ColorPrefix + s].value
  }

  /** The paths of "color" tokens under "color.", prefix dropped. */
  function OverrideKeys(inner: map<string, Token>): set<string> {
    set p | p in inner && StartsWith(p, ColorPrefix) && inner[p].ttype == "color" :: p[|ColorPrefix|..]
  }

  /** A key is an override exactly when "color." before it is the path of a "color" token, whose value it keeps. */
  lemma ColorOverridesOfIff(inner: map<string, Token>)
    ensures forall s :: s in ColorOverridesOf(inner) <==> ColorPrefix + s in inner && inner[ColorPrefix + s].ttype == "color"
    ensures forall s :: s in ColorOverridesOf(inner) ==> ColorOverridesOf(inner)[s] == inner[ColorPrefix + s].value
  {
    var keys := OverrideKeys(inner);
    forall s | ColorPrefix + s in inner && inner[ColorPrefix + s].ttype == "color"
      ensures s in keys
    {
      var p := ColorPrefix + s;
      assert p[..|ColorPrefix|] == ColorPrefix;
      assert p[|ColorPrefix|..] == s;
    }
    OverrideKeysSound(inner);
  }

  lemma OverrideKeysSound(inner: map<string, Token>)
    ensures forall s :: s in OverrideKeys(inner) ==> ColorPrefix + s in inner && inner[ColorPrefix + s].ttype == "color"
  {
    forall s | s in OverrideKeys(inner) ensures ColorPrefix + s in inner && inner[ColorPrefix + s].ttype == "color" {
      var p :| p in inner && StartsWith(p, ColorPrefix) && inner[p].ttype == "color" && p[|ColorPrefix|..] == s;
      assert p == p[..|ColorPrefix|] + p[|ColorPrefix|..];
    }
  }

  /** The token table of mode `n`, or none. */
  function TableOf(t: ModeTable, n: string): map<string, Token> {
    if n in t.tokens then t.tokens[n] else map[]
  }

  /** `Object.keys(tokensByMode).map(...)`: one theme per mode name, in the table's order. */
  function ThemesOf(t: ModeTable): (r: seq<Theme>)
    ensures |r| == |t.names|
    ensures forall k :: 0 <= k < |r| ==>
      r[k] == Theme(W3C.ThemeId(t.names[k]), t.names[k], ColorOverridesOf(TableOf(t, t.names[k])))
  {
    seq(|t.names|, k requires 0 <= k < |t.names| =>
      Theme(W3C.ThemeId(t.names[k]), t.names[k], ColorOverridesOf(TableOf(t, t.names[k]))))
  }

  /** The document the older builder returns, or `Fault` when it throws. */
  function LegacyW3C(cols: seq<Collection>, vs: seq<Variable>, t: ModeTable): Result<Document> {
    match PlaceAll(cols, EmptySheet, vs)
    case Fault => Fault
    case Ok(s) => Ok(Document(s.core, s.semantic, ThemesOf(t)))
  }

  // ---------------------------------------------------------------- properties

  /** The older builder throws exactly when some variable names a collection that is not there. */
  lemma {:induction false} PlaceAllFault(cols: seq<Collection>, s: Sheet, vs: seq<Variable>)
    ensures PlaceAll(cols, s, vs).Fault? <==> exists i :: 0 <= i < |vs| && W3C.MissingCollection(cols, vs[i])
    decreases |vs|
  {
    if vs != [] {
      var step := Place(cols, s, vs[0]);
      PlaceFault(cols, s, vs[0]);
      if step.Fault? {
        assert W3C.MissingCollection(cols, vs[0]);
      } else {
        assert PlaceAll(cols, s, vs) == PlaceAll(cols, step.value, vs[1..]);
        PlaceAllFault(cols, step.value, vs[1..]);
        Seqs.ExistsPastHead(v => W3C.MissingCollection(cols, v), vs);
      }
    }
  }

  /** One variable throws exactly when its collection is not there. */
  lemma PlaceFault(cols: seq<Collection>, s: Sheet, v: Variable)
    ensures Place(cols, s, v).Fault? <==> W3C.MissingCollection(cols, v)
  {
  }

  lemma LegacyW3CFault(cols: seq<Collection>, vs: seq<Variable>, t: ModeTable)
    ensures LegacyW3C(cols, vs, t).Fault? <==> exists i :: 0 <= i < |vs| && W3C.MissingCollection(cols, vs[i])
  {
    PlaceAllFault(cols, EmptySheet, vs);
  }

  /**
   * Built from a per-mode table of `buildTokensByMode`, the themes list each
   * mode name once, their ids hold no whitespace or upper-case letter, and
   * every override is a resolved value (no alias, no RGBA object).
   */
  lemma LegacyThemesFromTable(g: Graph, f: Flavor, cols: seq<Collection>, vs: seq<Variable>)
    ensures var ts := ThemesOf(TokensByMode(g, f, cols, vs));
      (forall a, b :: 0 <= a < b < |ts| ==> ts[a].name != ts[b].name) &&
      (forall k :: 0 <= k < |ts| ==> NoSpace(ts[k].id) && NoUpper(ts[k].id)) &&
      (forall k, s :: 0 <= k < |ts| && s in ts[k].overrides ==>
         !ts[k].overrides[s].Alias? && !ts[k].overrides[s].Color?)
  {
    var t := TokensByMode(g, f, cols, vs);
    var ts := ThemesOf(t);
    TokensByModeShape(g, f, cols, vs);
    forall k | 0 <= k < |ts| ensures NoSpace(ts[k].id) && NoUpper(ts[k].id) {
      W3C.ThemeIdShape(t.names[k]);
    }
    forall k, s | 0 <= k < |ts| && s in ts[k].overrides
      ensures !ts[k].overrides[s].Alias? && !ts[k].overrides[s].Color?
    {
      var n := t.names[k];
      assert n in t.tokens;
      ColorOverridesOfIff(t.tokens[n]);
      assert ColorPrefix + s in t.tokens[n];
    }
  }

  // ---------------------------------------------------------------- methods

  /** The variable loop of the older builder. */
  method PlaceVariables(cols: seq<Collection>, variables: seq<Variable>) returns (res: Result<Sheet>)
    ensures res == PlaceAll(cols, EmptySheet, variables)
  {
    var s := EmptySheet;
    for i := 0 to |variables|
      invariant PlaceAll(cols, s, variables[i..]) == PlaceAll(cols, EmptySheet, variables)
    {
      var v := variables[i];
      assert variables[i..][1..] == variables[i + 1..];
      var found := FindCollection(cols, v.collectionId);
      if found.None? {
        return Fault;
      }
      var grp := LegacyGroupFor(found.value.name);
      var key := Pathify(v.name);
      var base := Lookup(v.valuesByMode, FirstKeyOr(v.valuesByMode, ""));
      if base.None? || base.value == Null {
        continue;
      }
      var b := base.value;
      if grp == Palette && v.resolvedType == ColorType {
        s := s.(core := s.core.(palette := s.core.palette[key := LegacyHex(b)]));
      } else if grp == ModeColors && v.resolvedType == ColorType {
        s := s.(semantic := s.semantic[key := LegacyHex(b)]);
      } else if grp == Radius && v.resolvedType == FloatType {
        s := s.(core := s.core.(radius := s.core.radius[key := NumberOr0(b)]));
      } else if grp == Spacing && v.resolvedType == FloatType {
        s := s.(core := s.core.(spacing := s.core.spacing[key := NumberOr0(b)]));
      } else if grp == Typography {
        var p := Split(key, '.');
        var cat := TypeCat(p);
        var leaf := TypeLeaf(p);
        var t := s.core.typography;
        if cat == "font-family" && b.Str? {
          t := t.(fontFamily := b.s);
        } else if cat == "font-weight" {
          t := t.(fontWeight := t.fontWeight[leaf := NumberOf(b)]);
        } else if cat == "font-size" {
          t := t.(fontSize := t.fontSize[leaf := NumberOr0(b)]);
        } else if cat == "line-height" {
          t := t.(lineHeight := t.lineHeight[leaf := NumberOr0(b)]);
        } else if cat == "letter-spacing" {
          t := t.(letterSpacing := t.letterSpacing[leaf := NumberOr0(b)]);
        }
        s := s.(core := s.core.(typography := t));
      }
    }
    return Ok(s);
  }

  /** The `Object.entries` loop of one mode: its "color." tokens, prefix dropped. */
  method ColorOverrides(inner: map<string, Token>) returns (o: map<string, Value>)
    ensures o == ColorOverridesOf(inner)
  {
    o := map[];
    var todo := inner.Keys;
    while todo != {}
      invariant todo <= inner.Keys
      invariant forall s :: s in o <==>
        ColorPrefix + s in inner && ColorPrefix + s !in todo && inner[ColorPrefix + s].ttype == "color"
      invariant forall s :: s in o ==> o[s] == inner[ColorPrefix + s].value
      decreases |todo|
    {
      var path :| path in todo;
      var tok := inner[path];
      if tok.ttype == "color" && StartsWith(path, ColorPrefix) {
        var s := path[|ColorPrefix|..];
        assert ColorPrefix + s == path by {
          assert path == path[..|ColorPrefix|] + path[|ColorPrefix|..];
        }
        o := o[s := tok.value];
      }
      forall s | ColorPrefix + s == path ensures StartsWith(path, ColorPrefix) {
        assert path[..|ColorPrefix|] == ColorPrefix;
      }
      todo := todo - {path};
    }
    ColorOverridesOfIff(inner);
  }

  /** `Object.keys(tokensByMode).map(...)`. */
  method BuildThemes(t: ModeTable) returns (themes: seq<Theme>)
    ensures themes == ThemesOf(t)
  {
    ghost var want := ThemesOf(t);
    themes := [];
    for k := 0 to |t.names|
      invariant themes == want[..k]
    {
      var mode := t.names[k];
      var overrides := ColorOverrides(TableOf(t, mode));
      assert want[..k + 1] == want[..k] + [Theme(W3C.ThemeId(mode), mode, overrides)];
      themes := themes + [Theme(W3C.ThemeId(mode), mode, overrides)];
    }
    assert want[..|t.names|] == want;
  }

  /** The older `buildW3CFromVariables`; `Fault` is the `TypeError` it throws. */
  method BuildLegacyW3C(cols: seq<Collection>, variables: seq<Variable>, t: ModeTable) returns (res: Result<Document>)
    ensures res == LegacyW3C(cols, variables, t)
  {
    var sheet := PlaceVariables(cols, variables);
    if sheet.Fault? {
      return Fault;
    }
    var themes := BuildThemes(t);
    return Ok(Document(sheet.value.core, sheet.value.semantic, themes));
  }
}
