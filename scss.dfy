/**
 * `buildScssVariables`: one SCSS variable line per emitted token. Each
 * variable outside the "misc" group gets a base name from its dotted path;
 * a semantic (mode-colour) variable gets a line for every mode of its
 * collection, any other variable a line for its first mode only. An alias
 * value becomes a reference to the aliased variable's SCSS name when
 * aliases are preserved; every other value is resolved and formatted by
 * its `resolvedType`.
 */
module Scss {
  import opened Options
  import opened Text
  import opened Naming
  import opened VariableData
  import opened Resolution
  import opened Resolver
  import opened Coercion
  import opened Classify
  import opened Seqs

  // ---------------------------------------------------------------- string literals

  /** `replace(/"/g, '\\"')`: every double quote gets a backslash before it, and nothing else changes. */
  function EscapeQuotes(s: string): (r: string)
    decreases |s|
  {
    if s == [] then []
    else (if s[0] == '"' then ['\\', '"'] else [s[0]]) + EscapeQuotes(s[1..])
  }

  /** Escaping both backslashes and double quotes, so that a string literal reads back as its content. */
  function EscapeString(s: string): (r: string)
    decreases |s|
  {
    if s == [] then []
    else (if s[0] == '"' || s[0] == '\\' then ['\\', s[0]] else [s[0]]) + EscapeString(s[1..])
  }

  /**
   * How a Sass reader takes the body of a double-quoted string: a backslash
   * makes the next character literal, a double quote ends the string, and a
   * newline or the end of the text before the closing quote is an error.
   * It gives the content and what follows the closing quote. Hexadecimal
   * escapes and line continuations are not modelled.
   */
  function ReadBody(t: string): (r: Option<(string, string)>)
    decreases |t|
  {
    if t == [] || t[0] == '\n' then None
    else if t[0] == '"' then Some(([], t[1..]))
    else if t[0] == '\\' then
      if |t| < 2 || t[1] == '\n' then None
      else
        match ReadBody(t[2..])
        case None => None
        case Some(cr) => Some(([t[1]] + cr.0, cr.1))
    else
      match ReadBody(t[1..])
      case None => None
      case Some(cr) => Some(([t[0]] + cr.0, cr.1))
  }

  /** A double-quoted string literal at the start of `t`, read back. */
  function ReadQuoted(t: string): Option<(string, string)> {
    if t != [] && t[0] == '"' then ReadBody(t[1..]) else None
  }

  /** The quoted literal `formatValue` writes for a STRING token, with the escaping it applies. */
  function QuoteAsWritten(s: string): string {
    "\"" + EscapeQuotes(s) + "\""
  }

  /** The quoted literal with backslashes escaped too. */
  function Quote(s: string): string {
    "\"" + EscapeString(s) + "\""
  }

  /**
   * A STRING value ending in a backslash: the emitted `$x: "x\";` has its
   * closing quote escaped, so the literal never ends.
   */
  lemma QuoteAsWrittenUnterminated()
    ensures ReadQuoted(QuoteAsWritten("x\\") + ";") == None
  {
    assert EscapeQuotes("x\\") == "x\\" by {
      assert EscapeQuotes("\\") == "\\" by {
        assert "\\"[1..] == [];
      }
      assert "x\\"[1..] == "\\";
    }
    var t := QuoteAsWritten("x\\") + ";";
    assert t == "\"x\\\";";
    var b := t[1..];
    assert b == "x\\\";";
    assert ReadBody(";") == None by {
      assert ";"[1..] == [];
    }
    assert b[1..][2..] == ";";
    assert ReadBody(b[1..]) == None;
    assert ReadBody(b) == None;
  }

  /** A plain character of the body is kept, and reading goes on after it. */
  lemma ReadBodyPlain(c: char, tail: string)
    requires c != '\n' && c != '"' && c != '\\' && ReadBody(tail).Some?
    ensures ReadBody([c] + tail) == Some(([c] + ReadBody(tail).value.0, ReadBody(tail).value.1))
  {
    assert ([c] + tail)[1..] == tail;
  }

  /** A backslash and the character after it stand for that character. */
  lemma ReadBodyEscape(c: char, tail: string)
    requires c != '\n' && ReadBody(tail).Some?
    ensures ReadBody(['\\', c] + tail) == Some(([c] + ReadBody(tail).value.0, ReadBody(tail).value.1))
  {
    assert (['\\', c] + tail)[2..] == tail;
  }

  /** With backslashes escaped, every literal without a newline reads back as its content. */
  lemma {:induction false} ReadEscaped(s: string, rest: string)
    requires '\n' !in s
    ensures ReadBody(EscapeString(s) + "\"" + rest) == Some((s, rest))
    decreases |s|
  {
    if s == [] {
      assert EscapeString(s) + "\"" + rest == "\"" + rest;
      assert ("\"" + rest)[1..] == rest;
    } else {
      ReadEscaped(s[1..], rest);
      var tail := EscapeString(s[1..]) + "\"" + rest;
      var head := if s[0] == '"' || s[0] == '\\' then ['\\', s[0]] else [s[0]];
      assert EscapeString(s) == head + EscapeString(s[1..]);
      assert EscapeString(s) + "\"" + rest == head + tail;
      if s[0] == '"' || s[0] == '\\' {
        ReadBodyEscape(s[0], tail);
      } else {
        ReadBodyPlain(s[0], tail);
      }
      assert s == [s[0]] + s[1..];
    }
  }

  /** The corrected literal, followed by the line's ";", reads back as exactly the value. */
  lemma QuoteRoundTrip(s: string)
    requires '\n' !in s
    ensures ReadQuoted(Quote(s) + ";") == Some((s, ";"))
  {
    ReadEscaped(s, ";");
    assert (Quote(s) + ";")[1..] == EscapeString(s) + "\"" + ";";
  }

  /** Without backslashes in the text, escaping only quotes is the full escaping. */
  lemma {:induction false} EscapeQuotesPlain(s: string)
    requires '\\' !in s
    ensures EscapeQuotes(s) == EscapeString(s)
    decreases |s|
  {
    if s != [] {
      assert '\\' !in s[1..] by { assert forall k :: 0 <= k < |s[1..]| ==> s[1..][k] == s[k + 1]; }
      EscapeQuotesPlain(s[1..]);
    }
  }

  /** As written, a STRING literal reads back as its content when it holds no backslash and no newline. */
  lemma QuoteAsWrittenPlain(s: string)
    requires '\\' !in s && '\n' !in s
    ensures ReadQuoted(QuoteAsWritten(s) + ";") == Some((s, ";"))
  {
    EscapeQuotesPlain(s);
    QuoteRoundTrip(s);
  }

  // ---------------------------------------------------------------- values

  /** `formatValue(group, v, resolved, dotted)`: a colour throws when the value is `null`. */
  function FormatValue(t: VarType, resolved: Value, dotted: string): (r: Result<string>)
    ensures r.Fault? <==> t == ColorType && resolved == Null
  {
    match t
    case ColorType => HexOf(resolved)
    case FloatType =>
      if Contains(Lower(dotted), "font-weight") then Ok(IntToString(NumberOr0(resolved)))
      else Ok(IntToString(NumberOr0(resolved)) + "px")
    case StringType => Ok(QuoteAsWritten(JsString(resolved)))
    case BooleanType => Ok(if Truthy(resolved) then "true" else "false")
    case OtherType => Ok(JsString(resolved))
  }

  /**
   * What the formatted text means to a reader: a font weight reads back as
   * `Number(v) || 0`, any other number as that number followed by "px", a
   * boolean as the value's truthiness, a string without backslash or
   * newline as the value's text, a colour as its hex text and anything
   * else as `String(v)`.
   */
  lemma FormatValueReadsBack(t: VarType, resolved: Value, dotted: string)
    ensures var r := FormatValue(t, resolved, dotted);
      (t == FloatType && Contains(Lower(dotted), "font-weight") ==>
        r.Ok? && NumberOfString(r.value) == Some(NumberOr0(resolved))) &&
      (t == FloatType && !Contains(Lower(dotted), "font-weight") ==>
        r.Ok? && |r.value| >= 2 && r.value[|r.value| - 2..] == "px" &&
        NumberOfString(r.value[..|r.value| - 2]) == Some(NumberOr0(resolved))) &&
      (t == BooleanType ==> r.Ok? && (r.value == "true" <==> Truthy(resolved)) && (r.value == "false" <==> !Truthy(resolved))) &&
      (t == StringType && '\\' !in JsString(resolved) && '\n' !in JsString(resolved) ==>
        r.Ok? && ReadQuoted(r.value + ";") == Some((JsString(resolved), ";"))) &&
      (t == ColorType ==> r == HexOf(resolved)) &&
      (t == OtherType ==> r == Ok(JsString(resolved)))
  {
    match t
    case FloatType =>
      if Contains(Lower(dotted), "font-weight") {
        FormatWeightReadsBack(resolved, dotted);
      } else {
        FormatPxReadsBack(resolved, dotted);
      }
    case StringType =>
      if '\\' !in JsString(resolved) && '\n' !in JsString(resolved) {
        FormatStringReadsBack(resolved, dotted);
      }
    case _ =>
  }

  lemma FormatWeightReadsBack(resolved: Value, dotted: string)
    requires Contains(Lower(dotted), "font-weight")
    ensures var r := FormatValue(FloatType, resolved, dotted);
      r.Ok? && NumberOfString(r.value) == Some(NumberOr0(resolved))
  {
    var x := IntToString(NumberOr0(resolved));
    assert FormatValue(FloatType, resolved, dotted) == Ok(x);
    NumberOfIntToString(NumberOr0(resolved));
  }

  lemma FormatPxReadsBack(resolved: Value, dotted: string)
    requires !Contains(Lower(dotted), "font-weight")
    ensures var r := FormatValue(FloatType, resolved, dotted);
      r.Ok? && |r.value| >= 2 && r.value[|r.value| - 2..] == "px" &&
      NumberOfString(r.value[..|r.value| - 2]) == Some(NumberOr0(resolved))
  {
    PxReadsBack(NumberOr0(resolved));
  }

  lemma FormatStringReadsBack(resolved: Value, dotted: string)
    requires '\\' !in JsString(resolved) && '\n' !in JsString(resolved)
    ensures var r := FormatValue(StringType, resolved, dotted);
      r.Ok? && ReadQuoted(r.value + ";") == Some((JsString(resolved), ";"))
  {
    QuoteAsWrittenPlain(JsString(resolved));
  }

  /** A length in pixels: the number's text, then "px". */
  lemma PxReadsBack(n: int)
    ensures var x := IntToString(n) + "px";
      |x| >= 2 && x[|x| - 2..] == "px" && NumberOfString(x[..|x| - 2]) == Some(n)
  {
    var x := IntToString(n) + "px";
    NumberOfIntToString(n);
    assert x[..|x| - 2] == IntToString(n);
  }

  // ---------------------------------------------------------------- lines

  datatype ModeStrategy = Suffix | First

  /** The emitter's options, `{ preserveAliases = true, modeStrategy = "suffix" }` by default. */
  datatype ScssOptions = ScssOptions(preserveAliases: bool, modeStrategy: ModeStrategy)

  const DefaultOptions: ScssOptions := ScssOptions(true, Suffix)

  const Header: seq<string> := ["// Generated from Figma Variables", ""]

  const Placeholder: string := "/* (No variables emitted) */"

  /** `varPathById(id)`: the aliased variable's dotted path, or the id itself when it is missing. */
  function PathOf(g: Graph, id: Id): string {
    if id in g then Pathify(g[id].name) else id
  }

  /** The mode suffix of a semantic variable under the "suffix" strategy: "--" and the normalised mode name. */
  function ModeSuffix(grp: Group, opts: ScssOptions, m: Mode): string {
    if grp == ModeColors && opts.modeStrategy == Suffix then "--" + CollapseSpace(Norm(m.name)) else ""
  }

  /** `modes[0]?.modeId` when it is truthy: the fallback key of every mode. */
  function FirstModeFallback(col: Collection): Option<ModeId> {
    if |col.modes| > 0 && col.modes[0].modeId != "" then Some(col.modes[0].modeId) else None
  }

  /** A value line: `$name: value;`. */
  function ValueLine(name: string, value: string): (r: string)
    ensures Decl(r)
  {
    "$" + name + ": " + value + ";"
  }

  /** An alias line, `$name: $aliasName;`: a value line whose value is a reference to the aliased variable. */
  function AliasLine(name: string, target: string): (r: string)
    ensures Decl(r)
  {
    ValueLine(name, "$" + target)
  }

  /**
   * Reading a declaration line back: between the leading "$" and the final
   * ";", the name runs up to the first ':', which ": " follows, and the
   * value is the rest.
   */
  function ReadDecl(line: string): Option<(string, string)> {
    if |line| < 2 || line[0] != '$' || line[|line| - 1] != ';' then None
    else
      var body := line[1..|line| - 1];
      var name := Split(body, ':')[0];
      if |body| >= |name| + 2 && body[|name|..|name| + 2] == ": " then Some((name, body[|name| + 2..]))
      else None
  }

  /** A value line reads back as its name and value when the name has no ':'. */
  lemma ValueLineReadsBack(name: string, value: string)
    requires ':' !in name
    ensures ReadDecl(ValueLine(name, value)) == Some((name, value))
  {
    var line := ValueLine(name, value);
    var body := name + ": " + value;
    assert line[1..|line| - 1] == body;
    assert body == name + [':'] + (" " + value);
    SplitConcat(name, " " + value, ':');
    assert Split(body, ':')[0] == name;
    assert body[|name|..|name| + 2] == ": ";
    assert body[|name| + 2..] == value;
  }

  /** An alias line reads back as its name and a "$" reference to the target. */
  lemma AliasLineReadsBack(name: string, target: string)
    requires ':' !in name
    ensures ReadDecl(AliasLine(name, target)) == Some((name, "$" + target))
  {
    ValueLineReadsBack(name, "$" + target);
  }

  /**
   * The declaration of a variable's value `raw` in mode `m`: a reference to
   * the aliased variable when aliases are preserved, otherwise the
   * formatted resolved value; only a `null` colour throws.
   */
  function Render(g: Graph, opts: ScssOptions, grp: Group, v: Variable, m: Mode, raw: Value): (r: Result<string>)
    ensures r.Ok? ==> Decl(r.value)
    ensures r.Fault? <==> !(opts.preserveAliases && raw.Alias?) && v.resolvedType == ColorType &&
                          Resolve(g, raw, m.modeId) == Null
  {
    var dotted := Pathify(v.name);
    var name := NameFor(grp, dotted) + ModeSuffix(grp, opts, m);
    if opts.preserveAliases && raw.Alias? then
      var p := PathOf(g, raw.id);
      Ok(AliasLine(name, NameFor(GroupFromPath(p), p)))
    else
      match FormatValue(v.resolvedType, Resolve(g, raw, m.modeId), dotted)
      case Fault => Fault
      case Ok(text) => Ok(ValueLine(name, text))
  }

  /**
   * The line (if any) for the `j`-th mode of a variable's collection: none
   * without a value, none for a mode after the first unless the variable is
   * semantic; otherwise the value's declaration.
   */
  function ModeLine(g: Graph, opts: ScssOptions, grp: Group, v: Variable, col: Collection, j: int): (r: Result<Option<string>>)
    requires 0 <= j < |col.modes|
    ensures r.Ok? && r.value.Some? ==> Decl(r.value.value)
  {
    var m := col.modes[j];
    match Pick(v.valuesByMode, m.modeId, FirstModeFallback(col))
    case None => Ok(None)
    case Some(raw) =>
      if grp != ModeColors && j != 0 then Ok(None)
      else
        match Render(g, opts, grp, v, m, raw)
        case Fault => Fault
        case Ok(line) => Ok(Some(line))
  }

  /** What each mode of the collection gives, in the collection's order. */
  function ModeLines(g: Graph, opts: ScssOptions, grp: Group, v: Variable, col: Collection): (r: seq<Result<Option<string>>>)
    ensures |r| == |col.modes|
    ensures forall k :: 0 <= k < |r| ==> r[k] == ModeLine(g, opts, grp, v, col, k)
  {
    seq(|col.modes|, k requires 0 <= k < |col.modes| => ModeLine(g, opts, grp, v, col, k))
  }

  /** The lines among `outs` appended to `acc` in order, or `Fault` at the first throw. */
  function Gather(outs: seq<Result<Option<string>>>, acc: seq<string>): Result<seq<string>>
    decreases |outs|
  {
    if outs == [] then Ok(acc)
    else
      match outs[0]
      case Fault => Fault
      case Ok(None) => Gather(outs[1..], acc)
      case Ok(Some(line)) => Gather(outs[1..], acc + [line])
  }

  /** The mode loop of one variable: its lines appended to `acc`. */
  function EmitModes(g: Graph, opts: ScssOptions, grp: Group, v: Variable, col: Collection,
                     acc: seq<string>): Result<seq<string>>
  {
    Gather(ModeLines(g, opts, grp, v, col), acc)
  }

  /** One variable: its collection must exist; a "misc" variable writes nothing. */
  function EmitVar(g: Graph, opts: ScssOptions, cols: seq<Collection>, acc: seq<string>, v: Variable): Result<seq<string>> {
    match FindCollection(cols, v.collectionId)
    case None => Fault
    case Some(col) =>
      var grp := ScssGroupFor(col.name, v.name);
      if grp == Misc then Ok(acc) else EmitModes(g, opts, grp, v, col, acc)
  }

  function EmitAll(g: Graph, opts: ScssOptions, cols: seq<Collection>, acc: seq<string>, vs: seq<Variable>): Result<seq<string>>
    decreases |vs|
  {
    if vs == [] then Ok(acc)
    else
      match EmitVar(g, opts, cols, acc, vs[0])
      case Fault => Fault
      case Ok(acc1) => EmitAll(g, opts, cols, acc1, vs[1..])
  }

  /** The lines of the file: the header, the declarations, and the placeholder when there are none. */
  function ScssLines(g: Graph, opts: ScssOptions, cols: seq<Collection>, vs: seq<Variable>): Result<seq<string>> {
    match EmitAll(g, opts, cols, [], vs)
    case Fault => Fault
    case Ok(body) => Ok(Header + body + (if body == [] then [Placeholder] else []))
  }

  /** The file `buildScssVariables` returns, or `Fault` when it throws. */
  function BuildScss(g: Graph, opts: ScssOptions, cols: seq<Collection>, vs: seq<Variable>): Result<string> {
    match ScssLines(g, opts, cols, vs)
    case Fault => Fault
    case Ok(lines) => Ok(Join(lines, "\n") + "\n")
  }

  // ---------------------------------------------------------------- properties

  /** A declaration line: it starts with "$" and ends with ";". */
  predicate Decl(line: string) {
    |line| >= 2 && line[0] == '$' && line[|line| - 1] == ';'
  }

  /** Every line of `ls` is a declaration. */
  predicate AllDecl(ls: seq<string>) {
    forall k :: 0 <= k < |ls| ==> Decl(ls[k])
  }

  lemma AllDeclAppend(a: seq<string>, b: seq<string>)
    requires AllDecl(a) && AllDecl(b)
    ensures AllDecl(a + b)
  {
    forall k | 0 <= k < |a + b| ensures Decl((a + b)[k]) {
      if k >= |a| { assert (a + b)[k] == b[k - |a|]; }
    }
  }

  /** The lines `outs` carries, in order. */
  function LinesOf(outs: seq<Result<Option<string>>>): seq<string>
    decreases |outs|
  {
    if outs == [] then []
    else (if outs[0].Ok? && outs[0].value.Some? then [outs[0].value.value] else []) + LinesOf(outs[1..])
  }

  /** How many of `flags` hold. */
  function Count(flags: seq<bool>): nat
    decreases |flags|
  {
    if flags == [] then 0 else (if flags[0] then 1 else 0) + Count(flags[1..])
  }

  /** Gathering throws exactly when some outcome throws, and otherwise appends exactly the lines, in order. */
  lemma {:induction false} GatherSpec(outs: seq<Result<Option<string>>>, acc: seq<string>)
    ensures Gather(outs, acc).Fault? <==> exists k :: 0 <= k < |outs| && outs[k].Fault?
    ensures Gather(outs, acc).Ok? ==> Gather(outs, acc).value == acc + LinesOf(outs)
    decreases |outs|
  {
    if outs != [] {
      var next := if outs[0].Ok? && outs[0].value.Some? then acc + [outs[0].value.value] else acc;
      GatherSpec(outs[1..], next);
      assert forall k :: 1 <= k < |outs| ==> outs[1..][k - 1] == outs[k];
      if outs[0].Ok? && outs[0].value.Some? {
        assert acc + [outs[0].value.value] + LinesOf(outs[1..]) == acc + LinesOf(outs);
      }
    }
  }

  lemma {:induction false} LinesOfDecl(outs: seq<Result<Option<string>>>)
    requires forall k :: 0 <= k < |outs| && outs[k].Ok? && outs[k].value.Some? ==> Decl(outs[k].value.value)
    ensures AllDecl(LinesOf(outs))
    decreases |outs|
  {
    if outs != [] {
      assert forall k :: 1 <= k < |outs| ==> outs[1..][k - 1] == outs[k];
      LinesOfDecl(outs[1..]);
      var head := if outs[0].Ok? && outs[0].value.Some? then [outs[0].value.value] else [];
      AllDeclAppend(head, LinesOf(outs[1..]));
    }
  }

  /** Outcomes with a line exactly where `flags` holds carry `Count(flags)` lines. */
  lemma {:induction false} LinesOfCount(outs: seq<Result<Option<string>>>, flags: seq<bool>)
    requires |outs| == |flags|
    requires forall k :: 0 <= k < |outs| ==> outs[k].Ok? && (outs[k].value.Some? <==> flags[k])
    ensures |LinesOf(outs)| == Count(flags)
    decreases |outs|
  {
    if outs != [] {
      assert forall k :: 1 <= k < |outs| ==> outs[1..][k - 1] == outs[k] && flags[1..][k - 1] == flags[k];
      LinesOfCount(outs[1..], flags[1..]);
    }
  }

  /** Outcomes whose only possible line is the first carry at most one line. */
  lemma {:induction false} LinesOfFirstOnly(outs: seq<Result<Option<string>>>)
    requires forall k :: 1 <= k < |outs| ==> outs[k].Fault? || outs[k].value.None?
    ensures |LinesOf(outs)| <= 1
  {
    if outs != [] {
      LinesOfNone(outs[1..]);
    }
  }

  lemma {:induction false} LinesOfNone(outs: seq<Result<Option<string>>>)
    requires forall k :: 0 <= k < |outs| ==> outs[k].Fault? || outs[k].value.None?
    ensures LinesOf(outs) == []
    decreases |outs|
  {
    if outs != [] {
      assert forall k :: 1 <= k < |outs| ==> outs[1..][k - 1] == outs[k];
      LinesOfNone(outs[1..]);
    }
  }

  /** Which modes of the collection give the variable a value (its own or the first mode's). */
  function HasValue(v: Variable, col: Collection): (r: seq<bool>)
    ensures |r| == |col.modes|
    ensures forall k :: 0 <= k < |r| ==> (r[k] <==> Pick(v.valuesByMode, col.modes[k].modeId, FirstModeFallback(col)).Some?)
  {
    seq(|col.modes|, k requires 0 <= k < |col.modes| => Pick(v.valuesByMode, col.modes[k].modeId, FirstModeFallback(col)).Some?)
  }

  /** `ModeLine` throws exactly for a colour declaration, not written as an alias, whose value resolves to `null`. */
  lemma ModeLineFault(g: Graph, opts: ScssOptions, grp: Group, v: Variable, col: Collection, j: int)
    requires 0 <= j < |col.modes|
    ensures var raw := Pick(v.valuesByMode, col.modes[j].modeId, FirstModeFallback(col));
      ModeLine(g, opts, grp, v, col, j).Fault? <==>
        raw.Some? && (grp == ModeColors || j == 0) && !(opts.preserveAliases && raw.value.Alias?) &&
        v.resolvedType == ColorType && Resolve(g, raw.value, col.modes[j].modeId) == Null
  {
  }

  /** A mode gives a line exactly when the variable has a value there and is semantic or the mode is the first. */
  lemma ModeLineSome(g: Graph, opts: ScssOptions, grp: Group, v: Variable, col: Collection, j: int)
    requires 0 <= j < |col.modes|
    requires ModeLine(g, opts, grp, v, col, j).Ok?
    ensures ModeLine(g, opts, grp, v, col, j).value.Some? <==>
            Pick(v.valuesByMode, col.modes[j].modeId, FirstModeFallback(col)).Some? && (grp == ModeColors || j == 0)
  {
  }

  /** The mode loop throws exactly when one of the modes does. */
  lemma EmitModesFault(g: Graph, opts: ScssOptions, grp: Group, v: Variable, col: Collection, acc: seq<string>)
    ensures EmitModes(g, opts, grp, v, col, acc).Fault? <==>
            exists k :: 0 <= k < |col.modes| && ModeLine(g, opts, grp, v, col, k).Fault?
  {
    var outs := ModeLines(g, opts, grp, v, col);
    GatherSpec(outs, acc);
  }

  /**
   * The mode loop appends only declarations. A semantic variable gets one
   * for every mode with a value, whatever the mode strategy (so "first"
   * too writes every mode, without suffix); any other variable gets at most
   * the one of its first mode.
   */
  lemma EmitModesLines(g: Graph, opts: ScssOptions, grp: Group, v: Variable, col: Collection, acc: seq<string>)
    requires EmitModes(g, opts, grp, v, col, acc).Ok?
    ensures var r := EmitModes(g, opts, grp, v, col, acc).value;
      acc <= r && AllDecl(r[|acc|..]) &&
      (grp == ModeColors ==> |r| == |acc| + Count(HasValue(v, col))) &&
      (grp != ModeColors ==> |r| <= |acc| + 1)
  {
    var outs := ModeLines(g, opts, grp, v, col);
    GatherSpec(outs, acc);
    var r := EmitModes(g, opts, grp, v, col, acc).value;
    assert r[|acc|..] == LinesOf(outs);
    LinesOfDecl(outs);
    assert forall k :: 0 <= k < |outs| ==> outs[k].Ok?;
    if grp == ModeColors {
      forall k | 0 <= k < |outs| ensures outs[k].value.Some? <==> HasValue(v, col)[k] {
        ModeLineSome(g, opts, grp, v, col, k);
      }
      LinesOfCount(outs, HasValue(v, col));
    } else {
      forall k | 1 <= k < |outs| ensures outs[k].value.None? {
        ModeLineSome(g, opts, grp, v, col, k);
      }
      LinesOfFirstOnly(outs);
    }
  }

  /** A variable makes `buildScssVariables` throw: its collection is missing, or a colour it declares is `null`. */
  predicate ScssThrows(g: Graph, opts: ScssOptions, cols: seq<Collection>, v: Variable) {
    match FindCollection(cols, v.collectionId)
    case None => true
    case Some(col) =>
      var grp := ScssGroupFor(col.name, v.name);
      grp != Misc && exists k :: 0 <= k < |col.modes| && ModeLine(g, opts, grp, v, col, k).Fault?
  }

  lemma EmitVarFault(g: Graph, opts: ScssOptions, cols: seq<Collection>, acc: seq<string>, v: Variable)
    ensures EmitVar(g, opts, cols, acc, v).Fault? <==> ScssThrows(g, opts, cols, v)
  {
    match FindCollection(cols, v.collectionId)
    case None =>
    case Some(col) =>
      var grp := ScssGroupFor(col.name, v.name);
      if grp != Misc {
        EmitModesFault(g, opts, grp, v, col, acc);
      }
  }

  /** The emitter throws exactly when one of the variables does. */
  lemma {:induction false} EmitAllFault(g: Graph, opts: ScssOptions, cols: seq<Collection>, acc: seq<string>, vs: seq<Variable>)
    ensures EmitAll(g, opts, cols, acc, vs).Fault? <==> exists i :: 0 <= i < |vs| && ScssThrows(g, opts, cols, vs[i])
    decreases |vs|
  {
    if vs != [] {
      var step := EmitVar(g, opts, cols, acc, vs[0]);
      EmitVarFault(g, opts, cols, acc, vs[0]);
      if step.Fault? {
        assert ScssThrows(g, opts, cols, vs[0]);
      } else {
        assert EmitAll(g, opts, cols, acc, vs) == EmitAll(g, opts, cols, step.value, vs[1..]);
        EmitAllFault(g, opts, cols, step.value, vs[1..]);
        ExistsPastHead(v => ScssThrows(g, opts, cols, v), vs);
      }
    }
  }

  /** The mode loop keeps a list of declarations one. */
  lemma EmitModesDecls(g: Graph, opts: ScssOptions, grp: Group, v: Variable, col: Collection, acc: seq<string>)
    requires AllDecl(acc)
    ensures var r := EmitModes(g, opts, grp, v, col, acc);
      r.Ok? ==> AllDecl(r.value)
  {
    var outs := ModeLines(g, opts, grp, v, col);
    GatherSpec(outs, acc);
    LinesOfDecl(outs);
    AllDeclAppend(acc, LinesOf(outs));
  }

  lemma EmitVarDecls(g: Graph, opts: ScssOptions, cols: seq<Collection>, acc: seq<string>, v: Variable)
    requires AllDecl(acc)
    ensures var r := EmitVar(g, opts, cols, acc, v);
      r.Ok? ==> AllDecl(r.value)
  {
    var c := FindCollection(cols, v.collectionId);
    if c.Some? {
      var grp := ScssGroupFor(c.value.name, v.name);
      if grp != Misc {
        assert EmitVar(g, opts, cols, acc, v) == EmitModes(g, opts, grp, v, c.value, acc);
        EmitModesDecls(g, opts, grp, v, c.value, acc);
      }
    }
  }

  lemma {:induction false} EmitAllDecls(g: Graph, opts: ScssOptions, cols: seq<Collection>, acc: seq<string>, vs: seq<Variable>)
    requires AllDecl(acc)
    ensures var r := EmitAll(g, opts, cols, acc, vs);
      r.Ok? ==> AllDecl(r.value)
    decreases |vs|
  {
    if vs != [] {
      EmitVarDecls(g, opts, cols, acc, vs[0]);
      var e := EmitVar(g, opts, cols, acc, vs[0]);
      if e.Ok? {
        EmitAllDecls(g, opts, cols, e.value, vs[1..]);
      }
    }
  }

  /**
   * The file's lines: the two header lines, then only declarations, and
   * the placeholder comment exactly when no declaration was emitted.
   */
  lemma ScssLinesShape(g: Graph, opts: ScssOptions, cols: seq<Collection>, vs: seq<Variable>)
    requires ScssLines(g, opts, cols, vs).Ok?
    ensures var ls := ScssLines(g, opts, cols, vs).value;
      2 <= |ls| && ls[..2] == Header && AllDecl(ls[2..]) != (Placeholder in ls) &&
      (Placeholder in ls <==> !exists k :: 0 <= k < |ls| && Decl(ls[k]))
  {
    EmitAllDecls(g, opts, cols, [], vs);
    FileLines(EmitAll(g, opts, cols, [], vs).value);
  }

  /** The header, then declarations or else the placeholder. */
  lemma FileLines(body: seq<string>)
    requires AllDecl(body)
    ensures var ls := Header + body + (if body == [] then [Placeholder] else []);
      2 <= |ls| && ls[..2] == Header && AllDecl(ls[2..]) != (Placeholder in ls) &&
      (Placeholder in ls <==> !exists k :: 0 <= k < |ls| && Decl(ls[k]))
  {
    var ls := Header + body + (if body == [] then [Placeholder] else []);
    assert !Decl(Placeholder);
    assert !Decl(Header[0]) && !Decl(Header[1]);
    if body == [] {
      assert ls == Header + [Placeholder];
      assert ls[2..] == [Placeholder];
    } else {
      assert ls == Header + body;
      assert ls[2..] == body;
      assert Decl(ls[2]);
      forall k | 0 <= k < |ls| ensures ls[k] != Placeholder {
        if k >= 2 { assert ls[k] == body[k - 2]; }
      }
    }
  }

  /** `buildScssVariables` throws exactly when some variable's collection is missing or a colour it declares is `null`. */
  lemma BuildScssFault(g: Graph, opts: ScssOptions, cols: seq<Collection>, vs: seq<Variable>)
    ensures BuildScss(g, opts, cols, vs).Fault? <==> exists i :: 0 <= i < |vs| && ScssThrows(g, opts, cols, vs[i])
  {
    EmitAllFault(g, opts, cols, [], vs);
  }

  // ---------------------------------------------------------------- methods

  /**
   * The cache of alias paths by variable id. Each entry is the path the
   * variable with that id has in `graph`, or the id itself when there is no
   * such variable.
   */
  class AliasPathCache {
    const graph: Graph
    var paths: map<Id, string>

    ghost predicate Valid()
      reads this
    {
      forall id :: id in paths ==> paths[id] == PathOf(graph, id)
    }

    constructor (g: Graph)
      ensures graph == g && paths == map[]
      ensures Valid()
    {
      graph := g;
      paths := map[];
    }

    /** `varPathById(id)`: served from the cache when present, otherwise looked up and stored. */
    method VarPathById(id: Id) returns (p: string)
      requires Valid()
      modifies this
      ensures Valid()
      ensures p == PathOf(graph, id)
      ensures paths == old(paths)[id := p]
    {
      if id in paths {
        return paths[id];
      }
      p := if id in graph then Pathify(graph[id].name) else id;
      paths := paths[id := p];
    }
  }

  /** One step of the mode loop: the `j`-th outcome throws, skips, or appends its line. */
  lemma GatherStep(outs: seq<Result<Option<string>>>, j: int, lines: seq<string>)
    requires 0 <= j < |outs|
    ensures outs[j].Fault? ==> Gather(outs[j..], lines) == Fault
    ensures outs[j] == Ok(None) ==> Gather(outs[j..], lines) == Gather(outs[j + 1..], lines)
    ensures outs[j].Ok? && outs[j].value.Some? ==>
      Gather(outs[j..], lines) == Gather(outs[j + 1..], lines + [outs[j].value.value])
  {
    assert outs[j..][0] == outs[j];
    assert outs[j..][1..] == outs[j + 1..];
  }

  /** A mode with a value gives the value's declaration, or throws with it. */
  lemma ModeLineOfRender(g: Graph, opts: ScssOptions, grp: Group, v: Variable, col: Collection, j: int, raw: Value)
    requires 0 <= j < |col.modes|
    requires Pick(v.valuesByMode, col.modes[j].modeId, FirstModeFallback(col)) == Some(raw)
    requires grp == ModeColors || j == 0
    ensures var line := Render(g, opts, grp, v, col.modes[j], raw);
      ModeLine(g, opts, grp, v, col, j) == if line.Fault? then Fault else Ok(Some(line.value))
  {
  }

  /** With aliases preserved, an alias renders as a reference to the aliased variable's name. */
  lemma RenderAlias(g: Graph, opts: ScssOptions, grp: Group, v: Variable, m: Mode, raw: Value, name: string, p: string)
    requires opts.preserveAliases && raw.Alias?
    requires name == NameFor(grp, Pathify(v.name)) + ModeSuffix(grp, opts, m) && p == PathOf(g, raw.id)
    ensures Render(g, opts, grp, v, m, raw) == Ok(AliasLine(name, NameFor(GroupFromPath(p), p)))
  {
  }

  /** Otherwise the resolved value is formatted, and a formatting throw is the declaration's. */
  lemma RenderValue(g: Graph, opts: ScssOptions, grp: Group, v: Variable, m: Mode, raw: Value, name: string, text: Result<string>)
    requires !(opts.preserveAliases && raw.Alias?)
    requires name == NameFor(grp, Pathify(v.name)) + ModeSuffix(grp, opts, m)
    requires text == FormatValue(v.resolvedType, Resolve(g, raw, m.modeId), Pathify(v.name))
    ensures Render(g, opts, grp, v, m, raw) == if text.Fault? then Fault else Ok(ValueLine(name, text.value))
  {
  }

  /**
   * A STRING variable whose value is the text `x\` (not an alias) gets the
   * line `$name: "x\";`: its value reads back, but the quoted literal in it
   * never ends, so the file that holds it is not valid Sass.
   */
  lemma RenderUnterminatedString(g: Graph, opts: ScssOptions, grp: Group, v: Variable, m: Mode, name: string)
    requires v.resolvedType == StringType
    requires name == NameFor(grp, Pathify(v.name)) + ModeSuffix(grp, opts, m)
    ensures Render(g, opts, grp, v, m, Str("x\\")) == Ok(ValueLine(name, QuoteAsWritten("x\\")))
    ensures ':' !in name ==> ReadDecl(ValueLine(name, QuoteAsWritten("x\\"))) == Some((name, QuoteAsWritten("x\\")))
    ensures ReadQuoted(QuoteAsWritten("x\\") + ";") == None
  {
    assert Resolve(g, Str("x\\"), m.modeId) == Str("x\\");
    if ':' !in name {
      ValueLineReadsBack(name, QuoteAsWritten("x\\"));
    }
    QuoteAsWrittenUnterminated();
  }

  /** The body of the mode loop for the `j`-th mode: no line, a line, or a throw. */
  method EmitMode(r: AliasResolver, pc: AliasPathCache, opts: ScssOptions, grp: Group, v: Variable,
                  col: Collection, j: int) returns (out: Result<Option<string>>)
    requires 0 <= j < |col.modes|
    requires r.Valid() && (!opts.preserveAliases ==> AliasGraphAcyclic(r.graph))
    requires pc.Valid() && pc.graph == r.graph
    modifies r, pc
    ensures r.Valid() && pc.Valid()
    ensures out == ModeLine(r.graph, opts, grp, v, col, j)
  {
    var m := col.modes[j];
    var raw := Pick(v.valuesByMode, m.modeId, FirstModeFallback(col));
    if raw.None? || (grp != ModeColors && j != 0) {
      return Ok(None);
    }
    ModeLineOfRender(r.graph, opts, grp, v, col, j, raw.value);
    var line := EmitRender(r, pc, opts, grp, v, m, raw.value);
    if line.Fault? {
      return Fault;
    }
    return Ok(Some(line.value));
  }

  /** The declaration of the value `raw` in mode `m`: an alias reference, or the formatted resolved value. */
  method EmitRender(r: AliasResolver, pc: AliasPathCache, opts: ScssOptions, grp: Group, v: Variable,
                    m: Mode, raw: Value) returns (line: Result<string>)
    requires r.Valid() && (!opts.preserveAliases ==> AliasGraphAcyclic(r.graph))
    requires pc.Valid() && pc.graph == r.graph
    modifies r, pc
    ensures r.Valid() && pc.Valid()
    ensures line == Render(r.graph, opts, grp, v, m, raw)
  {
    var dotted := Pathify(v.name);
    var name := NameFor(grp, dotted) + ModeSuffix(grp, opts, m);
    if opts.preserveAliases && raw.Alias? {
      var aliasPath := pc.VarPathById(raw.id);
      var aliasName := NameFor(GroupFromPath(aliasPath), aliasPath);
      RenderAlias(r.graph, opts, grp, v, m, raw, name, aliasPath);
      return Ok(AliasLine(name, aliasName));
    }
    var resolved := r.ResolveValue(raw, m.modeId, {});
    var valueStr := FormatValue(v.resolvedType, resolved, dotted);
    RenderValue(r.graph, opts, grp, v, m, raw, name, valueStr);
    if valueStr.Fault? {
      return Fault;
    }
    return Ok(ValueLine(name, valueStr.value));
  }

  /** The loop over the modes of one variable's collection, appending its lines to `acc`. */
  method EmitVariable(r: AliasResolver, pc: AliasPathCache, opts: ScssOptions, grp: Group, v: Variable,
                      col: Collection, acc: seq<string>) returns (res: Result<seq<string>>)
    requires r.Valid() && (!opts.preserveAliases ==> AliasGraphAcyclic(r.graph))
    requires pc.Valid() && pc.graph == r.graph
    modifies r, pc
    ensures r.Valid() && pc.Valid()
    ensures res == EmitModes(r.graph, opts, grp, v, col, acc)
  {
    ghost var outs := ModeLines(r.graph, opts, grp, v, col);
    var lines := acc;
    for j := 0 to |col.modes|
      invariant r.Valid() && pc.Valid()
      invariant Gather(outs[j..], lines) == EmitModes(r.graph, opts, grp, v, col, acc)
    {
      GatherStep(outs, j, lines);
      var out := EmitMode(r, pc, opts, grp, v, col, j);
      if out.Fault? {
        return Fault;
      }
      if out.value.Some? {
        lines := lines + [out.value.value];
      }
    }
    return Ok(lines);
  }

  /** `buildScssVariables(collections, variables, opts)`. */
  method BuildScssVariables(r: AliasResolver, pc: AliasPathCache, opts: ScssOptions,
                            cols: seq<Collection>, variables: seq<Variable>) returns (res: Result<string>)
    requires r.Valid() && (!opts.preserveAliases ==> AliasGraphAcyclic(r.graph))
    requires pc.Valid() && pc.graph == r.graph
    modifies r, pc
    ensures r.Valid() && pc.Valid()
    ensures res == BuildScss(r.graph, opts, cols, variables)
  {
    var body: seq<string> := [];
    for i := 0 to |variables|
      invariant r.Valid() && pc.Valid()
      invariant EmitAll(r.graph, opts, cols, body, variables[i..]) == EmitAll(r.graph, opts, cols, [], variables)
    {
      assert variables[i..][1..] == variables[i + 1..];
      var v := variables[i];
      var found := FindCollection(cols, v.collectionId);
      if found.None? {
        return Fault;
      }
      var col := found.value;
      var grp := ScssGroupFor(col.name, v.name);
      if grp == Misc {
        continue;
      }
      var e := EmitVariable(r, pc, opts, grp, v, col, body);
      if e.Fault? {
        return Fault;
      }
      body := e.value;
    }
    var lines := Header + body + (if body == [] then [Placeholder] else []);
    return Ok(Join(lines, "\n") + "\n");
  }
}
