/**
 * Classification of variables into token groups and the names derived
 * from their paths: `norm`, `splitHead`, `groupFor`, `catMap` and
 * `joinRest` of the W3C builder; `groupFromPath`, `groupFor` and `nameFor`
 * of the SCSS emitter; and the regular-expression classifier of the older
 * W3C builder.
 */
module Classify {
  import opened Text
  import opened Naming

  /**
   * A token group. `ModeColors` is "mode-colors" in the W3C builder and
   * "semantic" in the SCSS emitter and the older builder.
   */
  datatype Group = ModeColors | Palette | Spacing | Radius | Typography | Misc

  /** `norm(s)`: lower-cased, then trimmed; a text already normalised is kept. */
  function Norm(s: string): (r: string)
    ensures NoUpper(r) && Trimmed(r)
    ensures NoUpper(s) && Trimmed(s) ==> r == s
  {
    TrimIsSlice(Lower(s));
    LowerKeeps(s);
    Trim(Lower(s))
  }

  /** The three parts `splitHead` takes from a variable name. */
  datatype Head = Head(head: string, sub: string, rest: seq<string>)

  function NormAll(parts: seq<string>): (r: seq<string>)
    ensures |r| == |parts|
    ensures forall i :: 0 <= i < |parts| ==> r[i] == Norm(parts[i])
  {
    seq(|parts|, i requires 0 <= i < |parts| => Norm(parts[i]))
  }

  /**
   * `splitHead(name)`: the "/" segments, each normalised; `head` is the
   * first, `sub` the second or "", `rest` the others. Empty segments are
   * kept, so `rest` has two parts fewer than the split.
   */
  function SplitHead(name: string): (r: Head)
    ensures NoUpper(r.head) && Trimmed(r.head) && '/' !in r.head
    ensures NoUpper(r.sub) && Trimmed(r.sub)
    ensures |r.rest| == if |Split(name, '/')| > 2 then |Split(name, '/')| - 2 else 0
  {
    var parts := Split(name, '/');
    var seg := NormAll(parts);
    NormAvoids(parts[0], '/');
    Head(seg[0], if |seg| > 1 then seg[1] else "", if |seg| > 2 then seg[2..] else [])
  }

  /** Normalising adds no character. */
  lemma NormAvoids(s: string, c: char)
    requires c !in s && !IsUpper(c) && !('a' <= c <= 'z')
    ensures c !in Norm(s)
  {
    LowerAvoids(s, c);
    TrimIsSlice(Lower(s));
    assert Norm(s) == Trim(Lower(s));
  }

  lemma LowerAvoids(s: string, c: char)
    requires c !in s && !IsUpper(c) && !('a' <= c <= 'z')
    ensures c !in Lower(s)
  {
  }

  /**
   * `splitHead` of segments joined by "/": the first three roles are the
   * normalised segments at those positions, empty ones included.
   */
  lemma SplitHeadOfParts(parts: seq<string>)
    requires |parts| >= 1
    requires forall k :: 0 <= k < |parts| ==> '/' !in parts[k]
    ensures SplitHead(Join(parts, "/")).head == Norm(parts[0])
    ensures SplitHead(Join(parts, "/")).sub == if |parts| > 1 then Norm(parts[1]) else ""
    ensures SplitHead(Join(parts, "/")).rest == if |parts| > 2 then NormAll(parts[2..]) else []
  {
    var name := Join(parts, "/");
    JoinSplit(parts, '/');
    var seg := NormAll(parts);
    assert SplitHead(name) == Head(seg[0], if |seg| > 1 then seg[1] else "", if |seg| > 2 then seg[2..] else []);
    if |parts| > 2 {
      NormAllDrop(parts, 2);
    }
  }

  lemma NormAllDrop(parts: seq<string>, n: nat)
    requires n <= |parts|
    ensures NormAll(parts)[n..] == NormAll(parts[n..])
  {
  }

  /** A trimmed word normalises to its lower-case form. */
  lemma NormWord(w: string, l: string)
    requires Trimmed(w) && l == Lower(w)
    ensures Norm(w) == l
  {
    LowerKeeps(w);
  }

  /** A collection name that, lower-cased and trimmed, mentions both "mode" and "color". */
  predicate IsModeColorName(cname: string) {
    Contains(Norm(cname), "mode") && Contains(Norm(cname), "color")
  }

  /** The group a normalised first segment selects. */
  function HeadGroup(head: string): (g: Group)
    ensures g != ModeColors
  {
    if head == "palette" then Palette
    else if head == "spacing" then Spacing
    else if head == "border radius" then Radius
    else if head == "typography" then Typography
    else Misc
  }

  /**
   * `groupFor` of the W3C builder: a mode-colour collection decides alone;
   * otherwise the variable's normalised first segment does.
   */
  function W3CGroupFor(cname: string, vname: string): (g: Group)
    ensures g == ModeColors <==> IsModeColorName(cname)
    ensures !IsModeColorName(cname) ==> g == HeadGroup(SplitHead(vname).head)
  {
    if IsModeColorName(cname) then ModeColors else HeadGroup(SplitHead(vname).head)
  }

  /**
   * `groupFor` of the SCSS emitter: the whole variable name is normalised
   * before splitting, so only its outer whitespace is trimmed, not that
   * around the first "/".
   */
  function ScssGroupFor(cname: string, vname: string): (g: Group)
    ensures g == ModeColors <==> IsModeColorName(cname)
    ensures !IsModeColorName(cname) ==> g == HeadGroup(Split(Norm(vname), '/')[0])
  {
    if IsModeColorName(cname) then ModeColors else HeadGroup(Split(Norm(vname), '/')[0])
  }

  /**
   * The two classifiers agree on mode-colour collections and whenever the
   * first "/" segment of the variable name has no whitespace at its ends.
   */
  lemma GroupForAgree(cname: string, vname: string)
    requires Trimmed(vname) && Trimmed(Split(vname, '/')[0])
    ensures W3CGroupFor(cname, vname) == ScssGroupFor(cname, vname)
  {
    if !IsModeColorName(cname) {
      W3CHeadLower(vname);
      ScssHeadLower(vname);
      assert SplitHead(vname).head == Split(Norm(vname), '/')[0];
    }
  }

  lemma W3CHeadLower(vname: string)
    requires Trimmed(Split(vname, '/')[0])
    ensures SplitHead(vname).head == Lower(Split(vname, '/')[0])
  {
    var seg0 := Split(vname, '/')[0];
    HeadIsFirst(vname);
    NormWord(seg0, Lower(seg0));
  }

  lemma ScssHeadLower(vname: string)
    requires Trimmed(vname)
    ensures Split(Norm(vname), '/')[0] == Lower(Split(vname, '/')[0])
  {
    NormWord(vname, Lower(vname));
    SplitLowerHead(vname, '/');
  }

  /** The head `splitHead` takes is the normalised first "/" segment. */
  lemma HeadIsFirst(name: string)
    ensures SplitHead(name).head == Norm(Split(name, '/')[0])
  {
  }

  /**
   * They differ when whitespace precedes the first "/": the W3C builder
   * trims each segment, the SCSS emitter only the whole name.
   */
  lemma GroupForDiffer(cname: string, vname: string)
    requires cname == "x" && vname == "palette /gray"
    ensures W3CGroupFor(cname, vname) == Palette
    ensures ScssGroupFor(cname, vname) == Misc
  {
    NotModeColor(cname);
    var seg0 := "palette ";
    PaletteSlashText(seg0, vname);
    SplitAtFirst(seg0, "gray", '/');
    HeadIsFirst(vname);
    NormWord(vname, vname);
    NormPaletteSpace(seg0);
  }

  /** The first part of a split is the text before the first separator. */
  lemma SplitAtFirst(a: string, b: string, sep: char)
    requires sep !in a
    ensures Split(a + [sep] + b, sep)[0] == a
  {
    SplitConcat(a, b, sep);
  }

  lemma NotModeColor(cname: string)
    requires cname == "x"
    ensures !IsModeColorName(cname)
  {
    NormWord(cname, cname);
  }

  lemma PaletteSlashText(seg0: string, vname: string)
    requires seg0 == "palette " && vname == "palette /gray"
    ensures seg0 + ['/'] + "gray" == vname && '/' !in seg0
    ensures Lower(vname) == vname && Trimmed(vname)
  {
  }

  lemma NormPaletteSpace(s: string)
    requires s == "palette "
    ensures Norm(s) == "palette"
    ensures HeadGroup(s) == Misc
  {
    var w := "palette";
    PaletteSpaceText(s, w);
    TrimEndOne(w);
    LowerKeeps(s);
  }

  lemma PaletteSpaceText(s: string, w: string)
    requires s == "palette " && w == "palette"
    ensures s == w + " " && NoUpper(s) && w != [] && Trimmed(w)
  {
  }

  /** One trailing space is trimmed from a trimmed word. */
  lemma TrimEndOne(w: string)
    requires w != [] && Trimmed(w)
    ensures Trim(w + " ") == w
  {
    var s := w + " ";
    assert s[0] == w[0];
    assert TrimStart(s) == s;
    assert s[..|s| - 1] == w;
    assert TrimEnd(s) == TrimEnd(w);
  }


  /** `catMap`: the spelled-out typography categories and their token names. */
  const CatMap: map<string, string> := map[
    "font family" := "font-family",
    "font weight" := "font-weight",
    "font size" := "font-size",
    "line height" := "line-height",
    "letter spacing" := "letter-spacing"
  ]

  /**
   * `catMap[sub] || sub.replace(/\s+/g, "-")`. A key of the object
   * prototype gives a function, which matches no category, just as its
   * own collapsed spelling does.
   */
  function Cat(sub: string): string {
    if sub in CatMap then CatMap[sub] else CollapseSpace(sub)
  }

  /** The table only spells out what collapsing whitespace would give anyway. */
  lemma CatIsCollapse(sub: string)
    ensures Cat(sub) == CollapseSpace(sub)
  {
    if sub == "font family" {
      CatFontFamily();
    } else if sub == "font weight" {
      CatFontWeight();
    } else if sub == "font size" {
      CatFontSize();
    } else if sub == "line height" {
      CatLineHeight();
    } else if sub == "letter spacing" {
      CatLetterSpacing();
    } else {
      assert sub !in CatMap;
    }
  }

  lemma CatFontFamily() ensures Cat("font family") == CollapseSpace("font family") {
    CollapseKey("font", "family", "font family");
  }

  lemma CatFontWeight() ensures Cat("font weight") == CollapseSpace("font weight") {
    CollapseKey("font", "weight", "font weight");
  }

  lemma CatFontSize() ensures Cat("font size") == CollapseSpace("font size") {
    CollapseKey("font", "size", "font size");
  }

  lemma CatLineHeight() ensures Cat("line height") == CollapseSpace("line height") {
    CollapseKey("line", "height", "line height");
  }

  lemma CatLetterSpacing() ensures Cat("letter spacing") == CollapseSpace("letter spacing") {
    CollapseKey("letter", "spacing", "letter spacing");
  }

  /** A key of the table is two words around a space, and its entry the same words around a hyphen. */
  lemma CollapseKey(a: string, b: string, sub: string)
    requires sub in CatMap && sub == a + " " + b && CatMap[sub] == a + "-" + b
    requires NoSpace(a) && NoSpace(b) && b != []
    ensures Cat(sub) == CollapseSpace(sub)
  {
    CollapseWords(a, b);
  }

  /** `CollapseSpace` on the two-word key `a + " " + b`. */
  lemma CollapseWords(a: string, b: string)
    requires NoSpace(a) && NoSpace(b) && b != []
    ensures CollapseSpace(a + [' '] + b) == a + ['-'] + b
  {
    assert a + [' '] + b == a + ([' '] + b);
    assert a + ['-'] + b == a + (['-'] + b);
    CollapsePrefix(a, [' '] + b);
    CollapseSpaceLead(b);
  }

  lemma CollapseSpaceLead(b: string)
    requires NoSpace(b) && b != []
    ensures CollapseSpace([' '] + b) == ['-'] + b
  {
    var s := [' '] + b;
    assert s[1..] == b;
    assert TrimStart(s) == TrimStart(b);
    assert TrimStart(b) == b;
  }

  /**
   * `joinRest(seg)`: each segment with whitespace runs turned into "-",
   * joined with "."; segments without whitespace are joined unchanged.
   */
  function JoinRest(seg: seq<string>): (r: string)
    ensures NoSpace(r)
    ensures (forall i :: 0 <= i < |seg| ==> NoSpace(seg[i])) ==> r == Join(seg, ".")
  {
    var parts := CollapseEach(seg);
    JoinNoSpace(parts, ".");
    assert (forall i :: 0 <= i < |seg| ==> NoSpace(seg[i])) ==> parts == seg;
    Join(parts, ".")
  }

  /** Collapsing part by part is collapsing the dotted join once. */
  lemma JoinRestCollapses(seg: seq<string>)
    ensures JoinRest(seg) == CollapseSpace(Join(seg, "."))
  {
    CollapseJoin(seg, '.');
  }

  lemma JoinRestLeaf(a: string, b: string)
    requires a == "gray" && b == "100"
    ensures JoinRest([a, b]) == "gray.100"
  {
    assert NoSpace(a) && NoSpace(b);
    JoinPair(a, b);
  }

  lemma JoinRestCategory(c: string)
    requires c == "font size"
    ensures JoinRest([c]) == "font-size"
  {
    FontSizeWords(c);
    JoinRestCollapses([c]);
    CollapseWords("font", "size");
  }

  lemma FontSizeWords(c: string)
    requires c == "font size"
    ensures "font" + [' '] + "size" == c && "font" + ['-'] + "size" == "font-size"
    ensures NoSpace("font") && NoSpace("size") && Join([c], ".") == c
  {
  }

  lemma {:induction false} JoinNoSpace(parts: seq<string>, sep: string)
    requires NoSpace(sep)
    requires forall i :: 0 <= i < |parts| ==> NoSpace(parts[i])
    ensures NoSpace(Join(parts, sep))
  {
    if |parts| > 1 {
      JoinNoSpace(parts[1..], sep);
      var j := Join(parts[1..], sep);
      var s := parts[0] + sep + j;
      forall i | 0 <= i < |s| ensures !IsSpace(s[i]) {
        if i < |parts[0]| { assert s[i] == parts[0][i]; }
        else if i < |parts[0]| + |sep| { assert s[i] == sep[i - |parts[0]|]; }
        else { assert s[i] == j[i - |parts[0]| - |sep|]; }
      }
    }
  }

  /**
   * `groupFromPath(dotted)`: the group an alias target's dotted path names.
   * It never names the mode-colour group.
   */
  function GroupFromPath(dotted: string): (g: Group)
    ensures g != ModeColors
  {
    var head := Split(dotted, '.')[0];
    if head == "palette" then Palette
    else if head == "spacing" then Spacing
    else if head == "border radius" || head == "border-radius" then Radius
    else if head == "typography" || head == "font" then Typography
    else Misc
  }

  /**
   * For a variable outside the mode-colour collections whose segments are
   * already clean, the group read back from its pathified name is the group
   * the SCSS emitter gave it, unless the first segment is "border-radius"
   * or "font".
   */
  lemma GroupFromPathAgrees(cname: string, parts: seq<string>)
    requires !IsModeColorName(cname)
    requires |parts| >= 1
    requires forall k :: 0 <= k < |parts| ==> parts[k] != [] && Trimmed(parts[k]) && NoUpper(parts[k])
    requires forall k :: 0 <= k < |parts| ==> '/' !in parts[k] && '.' !in parts[k]
    requires parts[0] != "border-radius" && parts[0] != "font"
    ensures GroupFromPath(Pathify(Join(parts, "/"))) == ScssGroupFor(cname, Join(parts, "/"))
  {
    PathHead(parts);
    ScssHead(parts);
    GroupFromHead(Pathify(Join(parts, "/")), parts[0]);
  }

  /** Apart from two spellings, the dotted path's head selects the group the SCSS classifier would. */
  lemma GroupFromHead(dotted: string, head: string)
    requires Split(dotted, '.')[0] == head
    requires head != "border-radius" && head != "font"
    ensures GroupFromPath(dotted) == HeadGroup(head)
  {
  }

  lemma PathHead(parts: seq<string>)
    requires |parts| >= 1
    requires forall k :: 0 <= k < |parts| ==> parts[k] != [] && Trimmed(parts[k])
    requires forall k :: 0 <= k < |parts| ==> '/' !in parts[k] && '.' !in parts[k]
    ensures Split(Pathify(Join(parts, "/")), '.')[0] == parts[0]
  {
    PathifyJoin(parts);
    JoinSplit(parts, '.');
  }

  lemma ScssHead(parts: seq<string>)
    requires |parts| >= 1
    requires forall k :: 0 <= k < |parts| ==> parts[k] != [] && Trimmed(parts[k]) && NoUpper(parts[k])
    requires forall k :: 0 <= k < |parts| ==> '/' !in parts[k]
    ensures Split(Norm(Join(parts, "/")), '/')[0] == parts[0]
  {
    SlashHead(parts);
    NormJoin(parts);
  }

  lemma SlashHead(parts: seq<string>)
    requires |parts| >= 1
    requires forall k :: 0 <= k < |parts| ==> '/' !in parts[k]
    ensures Split(Join(parts, "/"), '/')[0] == parts[0]
  {
    JoinSplit(parts, '/');
  }

  /** A join of clean lower-case parts is already normalised. */
  lemma NormJoin(parts: seq<string>)
    requires forall k :: 0 <= k < |parts| ==> parts[k] != [] && Trimmed(parts[k]) && NoUpper(parts[k])
    ensures Norm(Join(parts, "/")) == Join(parts, "/")
  {
    JoinTrimmed(parts, "/");
    JoinNoUpper(parts, "/");
  }

  /** The emitter puts "font/size" among the variables it skips, yet reads its path as typography. */
  lemma GroupFromPathDiffers(cname: string, dotted: string, slashed: string)
    requires cname == "x" && dotted == "font.size" && slashed == "font/size"
    ensures GroupFromPath(dotted) == Typography
    ensures ScssGroupFor(cname, slashed) == Misc
  {
    NotModeColor(cname);
    FontPathHead(dotted);
    FontSlashHead(slashed);
    FontGroups(cname, dotted, slashed, "font");
  }

  lemma FontGroups(cname: string, dotted: string, slashed: string, h: string)
    requires !IsModeColorName(cname) && h == "font"
    requires Split(dotted, '.')[0] == h && Split(Norm(slashed), '/')[0] == h
    ensures GroupFromPath(dotted) == Typography && ScssGroupFor(cname, slashed) == Misc
  {
  }

  lemma FontPathHead(dotted: string)
    requires dotted == "font.size"
    ensures Split(dotted, '.')[0] == "font"
  {
    FontSizeText(dotted, "font/size");
    SplitAtFirst("font", "size", '.');
  }

  lemma FontSlashHead(slashed: string)
    requires slashed == "font/size"
    ensures Split(Norm(slashed), '/')[0] == "font"
  {
    FontSizeText("font.size", slashed);
    SplitAtFirst("font", "size", '/');
    NormWord(slashed, slashed);
  }

  lemma FontSizeText(dotted: string, slashed: string)
    requires dotted == "font.size" && slashed == "font/size"
    ensures "font" + ['.'] + "size" == dotted && "font" + ['/'] + "size" == slashed
    ensures '.' !in "font" && '/' !in "font"
    ensures Lower(slashed) == slashed && Trimmed(slashed)
  {
  }

  /** A join of parts without upper-case letters, around a separator without any, has none. */
  lemma JoinNoUpper(parts: seq<string>, sep: string)
    requires NoUpper(sep)
    requires forall k :: 0 <= k < |parts| ==> NoUpper(parts[k])
    ensures NoUpper(Join(parts, sep))
  {
    var j := Join(parts, sep);
    forall i | 0 <= i < |j| ensures !IsUpper(j[i]) {
      if IsUpper(j[i]) {
        JoinAvoids(parts, sep, j[i]);
      }
    }
  }

  /** The dotted path's parts with whitespace runs turned into "-". */
  function NameParts(dotted: string): (r: seq<string>)
    ensures |r| == |Split(dotted, '.')| >= 1
    ensures forall i :: 0 <= i < |r| ==> NoSpace(r[i]) && '.' !in r[i]
    ensures NoSpace(dotted) ==> r == Split(dotted, '.')
  {
    var parts := Split(dotted, '.');
    NoSpaceParts(dotted);
    forall i | 0 <= i < |parts| ensures '.' !in CollapseSpace(parts[i]) {
      CollapseAvoids(parts[i], '.');
    }
    CollapseEach(parts)
  }

  /** Rejoining `NameParts` with "." is collapsing the whole path's whitespace runs. */
  lemma NamePartsJoin(dotted: string)
    ensures Join(NameParts(dotted), ".") == CollapseSpace(dotted)
  {
    CollapseJoin(Split(dotted, '.'), '.');
    SplitJoin(dotted, '.');
  }

  /** The parts of a text without whitespace have none. */
  lemma NoSpaceParts(s: string)
    ensures NoSpace(s) ==> forall k :: 0 <= k < |Split(s, '.')| ==> NoSpace(Split(s, '.')[k])
  {
    if NoSpace(s) {
      forall k, j | 0 <= k < |Split(s, '.')| && 0 <= j < |Split(s, '.')[k]| ensures !IsSpace(Split(s, '.')[k][j]) {
        SplitChars(s, '.', k, j);
      }
    }
  }

  /** Collapsing whitespace adds no character other than "-". */
  lemma {:induction false} CollapseAvoids(s: string, c: char)
    requires c !in s && c != '-'
    ensures c !in CollapseSpace(s)
    decreases |s|
  {
    if |s| > 0 {
      if IsSpace(s[0]) {
        TrimIsSuffix(s);
        CollapseAvoids(TrimStart(s), c);
      } else {
        CollapseAvoids(s[1..], c);
      }
    }
  }

  lemma TrimIsSuffix(s: string)
    ensures forall x :: x in TrimStart(s) ==> x in s
  {
    var t := TrimStart(s);
    forall x | x in t ensures x in s {
      var i :| 0 <= i < |t| && t[i] == x;
      assert s[|s| - |t| + i] == x;
    }
  }

  /** The prefix `nameFor` puts before a group's parts. */
  function GroupPrefix(g: Group): string {
    match g
    case Palette => "color-"
    case ModeColors => "color-"
    case Spacing => "spacing-"
    case Radius => "radius-"
    case _ => ""
  }

  /** A leading part that repeats the group's own name. */
  predicate GroupWord(g: Group, w: string) {
    match g
    case Palette => w == "palette"
    case Spacing => w == "spacing"
    case Radius => w == "border-radius" || w == "radius"
    case Typography => w == "typography"
    case _ => false
  }

  /** The two leading parts "border", "radius" of a radius path. */
  predicate BorderPair(g: Group, parts: seq<string>) {
    g == Radius && |parts| > 1 && parts[0] == "border" && parts[1] == "radius"
  }

  /**
   * The parts `nameFor` keeps: a suffix of the parts, from which the
   * leading "border", "radius" pair of a radius path, or else one leading
   * part repeating the group's name, is dropped.
   */
  function KeptParts(g: Group, parts: seq<string>): (r: seq<string>)
    requires |parts| >= 1
    ensures BorderPair(g, parts) ==> r == parts[2..]
    ensures !BorderPair(g, parts) && GroupWord(g, parts[0]) ==> r == parts[1..]
    ensures !BorderPair(g, parts) && !GroupWord(g, parts[0]) ==> r == parts
  {
    match g
    case Palette => if parts[0] == "palette" then parts[1..] else parts
    case Spacing => if parts[0] == "spacing" then parts[1..] else parts
    case Radius =>
      if parts[0] == "border" && |parts| > 1 && parts[1] == "radius" then parts[2..]
      else if parts[0] == "border-radius" || parts[0] == "radius" then parts[1..]
      else parts
    case Typography => if parts[0] == "typography" then parts[1..] else parts
    case _ => parts
  }

  /**
   * `nameFor(group, dottedPath)`: the SCSS variable name. It is the
   * group's prefix followed by the kept parts joined with "-", and it holds
   * no whitespace.
   */
  function NameFor(g: Group, dotted: string): (r: string)
    ensures StartsWith(r, GroupPrefix(g))
    ensures NoSpace(r)
  {
    var kept := KeptParts(g, NameParts(dotted));
    KeptNoSpace(g, NameParts(dotted));
    PrefixNoSpace(g);
    PrefixedNoSpace(GroupPrefix(g), kept);
    GroupPrefix(g) + Join(kept, "-")
  }

  lemma PrefixNoSpace(g: Group)
    ensures NoSpace(GroupPrefix(g))
  {
  }

  /** A prefix without whitespace before parts without whitespace joined by "-". */
  lemma PrefixedNoSpace(prefix: string, kept: seq<string>)
    requires NoSpace(prefix)
    requires forall i :: 0 <= i < |kept| ==> NoSpace(kept[i])
    ensures StartsWith(prefix + Join(kept, "-"), prefix)
    ensures NoSpace(prefix + Join(kept, "-"))
  {
    JoinNoSpace(kept, "-");
    NoSpaceConcat(prefix, Join(kept, "-"));
    assert (prefix + Join(kept, "-"))[..|prefix|] == prefix;
  }

  lemma KeptNoSpace(g: Group, parts: seq<string>)
    requires |parts| >= 1
    requires forall i :: 0 <= i < |parts| ==> NoSpace(parts[i])
    ensures forall i :: 0 <= i < |KeptParts(g, parts)| ==> NoSpace(KeptParts(g, parts)[i])
  {
    var r := KeptParts(g, parts);
    var n := |parts| - |r|;
    assert r == parts[n..];
    forall i | 0 <= i < |r| ensures NoSpace(r[i]) {
      assert r[i] == parts[n + i];
    }
  }

  /**
   * For parts without whitespace or ".", `nameFor` of their dotted join is
   * the group's prefix and the kept parts joined with "-".
   */
  lemma NameForParts(g: Group, parts: seq<string>)
    requires |parts| >= 1
    requires forall k :: 0 <= k < |parts| ==> NoSpace(parts[k]) && '.' !in parts[k]
    ensures NameFor(g, Join(parts, ".")) == GroupPrefix(g) + Join(KeptParts(g, parts), "-")
  {
    var dotted := Join(parts, ".");
    JoinSplit(parts, '.');
    CollapseJoin(parts, '.');
    assert CollapseEach(parts) == parts;
    assert NameParts(dotted) == CollapseEach(parts);
  }

  lemma NameForPalette(dotted: string)
    requires dotted == "palette.gray.100"
    ensures NameFor(Palette, dotted) == "color-gray-100"
  {
    PaletteName(["palette", "gray", "100"]);
    PaletteText();
  }

  lemma PaletteName(parts: seq<string>)
    requires parts == ["palette", "gray", "100"]
    ensures NameFor(Palette, Join(parts, ".")) == "color-" + Join(parts[1..], "-")
  {
    PaletteClean();
    NameForParts(Palette, parts);
  }

  lemma PaletteClean()
    ensures var parts := ["palette", "gray", "100"]; forall k :: 0 <= k < |parts| ==> NoSpace(parts[k]) && '.' !in parts[k]
  {
  }

  lemma PaletteText()
    ensures Join(["palette", "gray", "100"], ".") == "palette.gray.100"
    ensures ["palette", "gray", "100"][1..] == ["gray", "100"]
    ensures Join(["gray", "100"], "-") == "gray-100"
    ensures "color-" + "gray-100" == "color-gray-100"
  {
  }

  lemma NameForBorderRadius(dotted: string)
    requires dotted == "border radius.md"
    ensures NameFor(Radius, dotted) == "radius-md"
  {
    RadiusText(dotted);
    RadiusParts(dotted);
  }

  lemma RadiusParts(dotted: string)
    requires Split(dotted, '.') == ["border radius", "md"]
    requires CollapseSpace("border radius") == "border-radius" && CollapseSpace("md") == "md"
    ensures NameFor(Radius, dotted) == "radius-" + Join(["md"], "-")
  {
    var parts := NameParts(dotted);
    assert parts[0] == "border-radius" && parts[1] == "md";
    assert KeptParts(Radius, parts) == parts[1..] == ["md"];
  }

  lemma RadiusText(dotted: string)
    requires dotted == "border radius.md"
    ensures Split(dotted, '.') == ["border radius", "md"]
    ensures CollapseSpace("border radius") == "border-radius" && CollapseSpace("md") == "md"
    ensures Join(["md"], "-") == "md"
    ensures "radius-" + "md" == "radius-md"
  {
    RadiusSplit(dotted);
    RadiusCollapse();
    RadiusJoin();
  }

  lemma RadiusSplit(dotted: string)
    requires dotted == "border radius.md"
    ensures Split(dotted, '.') == ["border radius", "md"]
  {
    RadiusWords(dotted, "border radius");
    SplitConcat("border radius", "md", '.');
  }

  lemma RadiusCollapse()
    ensures CollapseSpace("border radius") == "border-radius" && CollapseSpace("md") == "md"
  {
    RadiusWords("border radius.md", "border radius");
    CollapseWords("border", "radius");
  }

  lemma RadiusJoin()
    ensures Join(["md"], "-") == "md"
    ensures "radius-" + "md" == "radius-md"
  {
  }

  lemma RadiusWords(dotted: string, head: string)
    requires dotted == "border radius.md" && head == "border radius"
    ensures head + ['.'] + "md" == dotted && '.' !in head && Split("md", '.') == ["md"]
    ensures "border" + [' '] + "radius" == head
    ensures "border" + ['-'] + "radius" == "border-radius"
    ensures NoSpace("border") && NoSpace("radius") && NoSpace("md")
  {
  }

  lemma NameForSemantic(dotted: string)
    requires dotted == "bg.primary"
    ensures NameFor(ModeColors, dotted) == "color-bg-primary"
  {
    SemanticName(["bg", "primary"]);
    SemanticText();
  }

  lemma SemanticName(parts: seq<string>)
    requires parts == ["bg", "primary"]
    ensures NameFor(ModeColors, Join(parts, ".")) == "color-" + Join(parts, "-")
  {
    SemanticClean();
    NameForParts(ModeColors, parts);
  }

  lemma SemanticClean()
    ensures var parts := ["bg", "primary"]; forall k :: 0 <= k < |parts| ==> NoSpace(parts[k]) && '.' !in parts[k]
  {
  }

  lemma SemanticText()
    ensures Join(["bg", "primary"], ".") == "bg.primary" && Join(["bg", "primary"], "-") == "bg-primary"
    ensures "color-" + "bg-primary" == "color-bg-primary"
  {
  }

  lemma NameForTypography(dotted: string)
    requires dotted == "typography.body"
    ensures NameFor(Typography, dotted) == "body"
  {
    TypographyName(["typography", "body"]);
    TypographyText();
  }

  lemma TypographyName(parts: seq<string>)
    requires parts == ["typography", "body"]
    ensures NameFor(Typography, Join(parts, ".")) == Join(parts[1..], "-")
  {
    TypographyClean();
    NameForParts(Typography, parts);
  }

  lemma TypographyClean()
    ensures var parts := ["typography", "body"]; forall k :: 0 <= k < |parts| ==> NoSpace(parts[k]) && '.' !in parts[k]
  {
  }

  lemma TypographyText()
    ensures Join(["typography", "body"], ".") == "typography.body"
    ensures ["typography", "body"][1..] == ["body"] && Join(["body"], "-") == "body"
  {
  }

  lemma NoSpaceConcat(a: string, b: string)
    requires NoSpace(a) && NoSpace(b)
    ensures NoSpace(a + b)
  {
    forall i | 0 <= i < |a + b| ensures !IsSpace((a + b)[i]) {
      if i >= |a| { assert (a + b)[i] == b[i - |a|]; }
    }
  }

  /** /palette/i, /(mode|semantic)/i, /radius/i, /spac(e|ing)/i and /typograph|font/i of the older builder. */
  predicate Mentions(n: string, word: string) {
    Contains(Lower(n), word)
  }

  /**
   * `groupFor` of the older W3C builder: the collection name alone,
   * checked case-insensitively in a fixed priority order.
   */
  function LegacyGroupFor(cname: string): Group {
    if Mentions(cname, "palette") then Palette
    else if Mentions(cname, "mode") || Mentions(cname, "semantic") then ModeColors
    else if Mentions(cname, "radius") then Radius
    else if Mentions(cname, "space") || Mentions(cname, "spacing") then Spacing
    else if Mentions(cname, "typograph") || Mentions(cname, "font") then Typography
    else Misc
  }

  /** Lower-casing twice is lower-casing once. */
  lemma LowerIdempotent(s: string)
    ensures Lower(Lower(s)) == Lower(s)
  {
  }

  /** The older classifier ignores case: a name and its lower-cased form fall in the same group. */
  lemma LegacyGroupForCaseInsensitive(cname: string)
    ensures LegacyGroupFor(Lower(cname)) == LegacyGroupFor(cname)
  {
    LowerIdempotent(cname);
  }
}
