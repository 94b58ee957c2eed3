/**
 * Variable-name normalisation shared by every builder: `pathify` (also
 * `normalizePath` in the plugin entry file) turns a slash-delimited
 * variable name into a dotted path, and `kebab` turns a style name into a
 * lower-case hyphenated key.
 */
module Naming {
  import opened Text

  /**
   * `parts.map(s => s.trim()).filter(Boolean)`: the trimmed parts that are
   * not empty, in order.
   */
  function KeepTrimmed(parts: seq<string>): (r: seq<string>)
    ensures forall k :: 0 <= k < |r| ==> r[k] != [] && Trimmed(r[k])
  {
    if |parts| == 0 then []
    else
      var t := Trim(parts[0]);
      var rest := KeepTrimmed(parts[1..]);
      if t == [] then rest else ConsTrimmed(t, rest); [t] + rest
  }

  lemma ConsTrimmed(t: string, rest: seq<string>)
    requires t != [] && Trimmed(t)
    requires forall k :: 0 <= k < |rest| ==> rest[k] != [] && Trimmed(rest[k])
    ensures forall k :: 0 <= k < |[t] + rest| ==> ([t] + rest)[k] != [] && Trimmed(([t] + rest)[k])
  {
    forall k | 0 <= k < |[t] + rest| ensures ([t] + rest)[k] != [] && Trimmed(([t] + rest)[k]) {
      if k > 0 { assert ([t] + rest)[k] == rest[k - 1]; }
    }
  }

  /** Only parts made entirely of whitespace are dropped. */
  lemma {:induction false} KeepTrimmedEmpty(parts: seq<string>)
    ensures KeepTrimmed(parts) == [] <==> forall j :: 0 <= j < |parts| ==> AllSpace(parts[j])
  {
    if |parts| > 0 {
      KeepTrimmedEmpty(parts[1..]);
      if AllSpace(parts[0]) && (forall j :: 0 <= j < |parts[1..]| ==> AllSpace(parts[1..][j])) {
        forall j | 0 <= j < |parts| ensures AllSpace(parts[j]) {
          if j > 0 { assert parts[j] == parts[1..][j - 1]; }
        }
      }
    }
  }

  /** A character absent from every part is absent from every kept part. */
  lemma {:induction false} KeepTrimmedAvoids(parts: seq<string>, c: char)
    requires forall j :: 0 <= j < |parts| ==> c !in parts[j]
    ensures forall k :: 0 <= k < |KeepTrimmed(parts)| ==> c !in KeepTrimmed(parts)[k]
  {
    if |parts| > 0 {
      TrimIsSlice(parts[0]);
      KeepTrimmedAvoids(parts[1..], c);
    }
  }

  /** One part is kept, trimmed, exactly when it is not all whitespace. */
  lemma KeepTrimmedOne(x: string)
    ensures KeepTrimmed([x]) == if AllSpace(x) then [] else [Trim(x)]
  {
    assert [x][1..] == [];
  }

  /** The filter works part by part: the kept parts of a concatenation, in order. */
  lemma {:induction false} KeepTrimmedConcat(a: seq<string>, b: seq<string>)
    ensures KeepTrimmed(a + b) == KeepTrimmed(a) + KeepTrimmed(b)
  {
    if a == [] {
      assert a + b == b;
    } else {
      assert (a + b)[0] == a[0] && (a + b)[1..] == a[1..] + b;
      KeepTrimmedConcat(a[1..], b);
    }
  }

  /** Parts already trimmed and not empty are all kept, unchanged. */
  lemma {:induction false} KeepTrimmedClean(parts: seq<string>)
    requires forall k :: 0 <= k < |parts| ==> parts[k] != [] && Trimmed(parts[k])
    ensures KeepTrimmed(parts) == parts
  {
    if parts != [] {
      KeepTrimmedClean(parts[1..]);
      assert [parts[0]] + parts[1..] == parts;
    }
  }

  /** The segments `pathify` keeps: split on "/", trimmed, empty ones dropped. */
  function Segments(name: string): (r: seq<string>)
    ensures forall k :: 0 <= k < |r| ==> r[k] != [] && Trimmed(r[k]) && '/' !in r[k]
  {
    KeepTrimmedAvoids(Split(name, '/'), '/');
    KeepTrimmed(Split(name, '/'))
  }

  /**
   * `pathify(name)`: "palette/gray/100" gives "palette.gray.100" and
   * "a//b" gives "a.b". The result never holds "/" and neither starts nor
   * ends with whitespace.
   */
  function Pathify(name: string): (r: string)
    ensures '/' !in r
    ensures Trimmed(r)
  {
    var segs := Segments(name);
    JoinAvoids(segs, ".", '/');
    JoinTrimmed(segs, ".");
    Join(segs, ".")
  }

  /**
   * `pathify` of parts joined by "/" joins the kept parts with ".": every
   * part trimmed, the empty ones dropped, order kept.
   */
  lemma PathifyOfParts(parts: seq<string>)
    requires |parts| >= 1
    requires forall k :: 0 <= k < |parts| ==> '/' !in parts[k]
    ensures Pathify(Join(parts, "/")) == Join(KeepTrimmed(parts), ".")
  {
    JoinSplit(parts, '/');
  }

  /** Clean segments pass through `pathify` with only the separator changed. */
  lemma PathifyJoin(parts: seq<string>)
    requires |parts| >= 1
    requires forall k :: 0 <= k < |parts| ==> parts[k] != [] && Trimmed(parts[k]) && '/' !in parts[k]
    ensures Pathify(Join(parts, "/")) == Join(parts, ".")
  {
    PathifyOfParts(parts);
    KeepTrimmedClean(parts);
  }

  lemma PathifyExample()
    ensures Pathify("palette/gray/100") == "palette.gray.100"
  {
    JoinThree();
    var parts := ["palette", "gray", "100"];
    assert forall k :: 0 <= k < |parts| ==> parts[k] != [] && Trimmed(parts[k]) && '/' !in parts[k];
    PathifyJoin(parts);
  }

  lemma JoinThree()
    ensures Join(["palette", "gray", "100"], "/") == "palette/gray/100"
    ensures Join(["palette", "gray", "100"], ".") == "palette.gray.100"
  {
  }

  /** A segment of whitespace only between two clean segments is dropped. */
  lemma PathifySkipsBlank(a: string, w: string, b: string)
    requires a != [] && Trimmed(a) && '/' !in a
    requires AllSpace(w) && '/' !in w
    requires b != [] && Trimmed(b) && '/' !in b
    ensures Pathify(a + "/" + w + "/" + b) == a + "." + b
  {
    var parts := [a, w, b];
    JoinTriple(a, w, b, parts);
    PathifyOfParts(parts);
    KeepBlankMiddle(a, w, b, parts);
    JoinPair(a, b);
  }

  lemma JoinTriple(a: string, w: string, b: string, parts: seq<string>)
    requires |parts| == 3 && parts[0] == a && parts[1] == w && parts[2] == b
    ensures Join(parts, "/") == a + "/" + w + "/" + b
  {
    var p1 := parts[1..];
    assert |p1| == 2 && p1[0] == w && p1[1..] == [b];
    assert Join(p1, "/") == w + "/" + b;
  }

  lemma JoinPair(a: string, b: string)
    ensures Join([a, b], ".") == a + "." + b
  {
    assert [a, b][1..] == [b];
  }

  lemma KeepBlankMiddle(a: string, w: string, b: string, parts: seq<string>)
    requires a != [] && Trimmed(a) && AllSpace(w) && b != [] && Trimmed(b)
    requires |parts| == 3 && parts[0] == a && parts[1] == w && parts[2] == b
    ensures KeepTrimmed(parts) == [a, b]
  {
    var p1 := parts[1..];
    var p2 := p1[1..];
    assert |p2| == 1 && p2[0] == b && p2[1..] == [];
    assert !IsSpace(a[0]) && !IsSpace(b[0]);
    assert KeepTrimmed(p2) == [b];
    assert KeepTrimmed(p1) == [b];
  }

  lemma PathifyDropsEmpty()
    ensures Pathify("a//b") == "a.b"
  {
    PathifySkipsBlank("a", "", "b");
    SlashedPair();
  }

  lemma SlashedPair()
    ensures "a" + "/" + "" + "/" + "b" == "a//b" && "a" + "." + "b" == "a.b"
  {
  }

  /** A word with one space on each side trims to the word. */
  lemma TrimWord(s: string, w: string)
    requires w != [] && Trimmed(w) && s == " " + w + " "
    ensures Trim(s) == w
  {
    var x := w + " ";
    assert s == " " + x;
    TrimStartSpace(x);
    assert x[0] == w[0];
    TrimEndSpace(w);
    assert Trim(s) == TrimEnd(TrimStart(s));
  }

  lemma TrimStartSpace(x: string)
    ensures TrimStart(" " + x) == TrimStart(x)
  {
    assert (" " + x)[1..] == x;
  }

  lemma TrimEndSpace(y: string)
    ensures TrimEnd(y + " ") == TrimEnd(y)
  {
    assert (y + " ")[..|y|] == y;
  }

  /** A name made only of "/" and whitespace. */
  predicate Blank(name: string) {
    forall i :: 0 <= i < |name| ==> name[i] == '/' || IsSpace(name[i])
  }

  /** Every character of every part of a split is a character of the input. */
  lemma {:induction false} SplitChars(s: string, sep: char, k: int, j: int)
    requires 0 <= k < |Split(s, sep)| && 0 <= j < |Split(s, sep)[k]|
    ensures Split(s, sep)[k][j] in s
  {
    if |s| == 0 {
    } else if s[0] == sep {
      if k > 0 {
        SplitChars(s[1..], sep, k - 1, j);
      }
    } else {
      if k == 0 && j == 0 {
      } else if k == 0 {
        SplitChars(s[1..], sep, 0, j - 1);
      } else {
        SplitChars(s[1..], sep, k, j);
      }
    }
  }

  /** A character other than the separator lies in some part of the split. */
  lemma {:induction false} SplitCovers(s: string, sep: char, i: int) returns (k: int, j: int)
    requires 0 <= i < |s| && s[i] != sep
    ensures 0 <= k < |Split(s, sep)| && 0 <= j < |Split(s, sep)[k]|
    ensures Split(s, sep)[k][j] == s[i]
  {
    var t := Split(s[1..], sep);
    if s[0] == sep {
      k, j := SplitCovers(s[1..], sep, i - 1);
      k := k + 1;
    } else if i == 0 {
      k, j := 0, 0;
    } else {
      k, j := SplitCovers(s[1..], sep, i - 1);
      if k == 0 {
        j := j + 1;
      }
    }
  }

  /** `pathify` gives "" exactly for the names made of "/" and whitespace only. */
  lemma PathifyEmptyIff(name: string)
    ensures Pathify(name) == [] <==> Blank(name)
  {
    var parts := Split(name, '/');
    var segs := Segments(name);
    if Blank(name) {
      forall k | 0 <= k < |parts| ensures AllSpace(parts[k]) {
        forall j | 0 <= j < |parts[k]| ensures IsSpace(parts[k][j]) {
          SplitChars(name, '/', k, j);
          var i :| 0 <= i < |name| && name[i] == parts[k][j];
        }
      }
      KeepTrimmedEmpty(parts);
    } else {
      var i :| 0 <= i < |name| && name[i] != '/' && !IsSpace(name[i]);
      var k, j := SplitCovers(name, '/', i);
      assert !AllSpace(parts[k]);
      KeepTrimmedEmpty(parts);
      JoinTrimmed(segs, ".");
    }
  }

  /** `pathify` is idempotent: a dotted path is already normalised. */
  lemma PathifyIdempotent(name: string)
    ensures Pathify(Pathify(name)) == Pathify(name)
  {
    var p := Pathify(name);
    assert Split(p, '/') == [p];
    if p == [] {
      assert KeepTrimmed([p]) == [];
    } else {
      assert KeepTrimmed([p]) == [p] + KeepTrimmed([]);
    }
  }

  /**
   * `kebab(s)`: trimmed, every whitespace run replaced by "-", lower-cased.
   * The result holds no whitespace and no upper-case letter.
   */
  function Kebab(s: string): (r: string)
    ensures NoSpace(r)
    ensures NoUpper(r)
  {
    Lower(CollapseSpace(Trim(s)))
  }

  /**
   * Between two words, a whitespace run becomes exactly one "-": the first
   * word is lower-cased and the rest is kebab-cased in turn.
   */
  lemma KebabWords(x: string, w: string, y: string)
    requires x != [] && NoSpace(x)
    requires w != [] && AllSpace(w)
    requires y != [] && Trimmed(y)
    ensures Kebab(x + w + y) == Lower(x) + "-" + Kebab(y)
  {
    var s := x + w + y;
    assert s[0] == x[0] && s[|s| - 1] == y[|y| - 1];
    assert Trim(s) == s;
    CollapseSpaceRun(x, w, y);
    LowerConcat(x, "-");
    LowerConcat(x + "-", CollapseSpace(y));
    assert Trim(y) == y;
  }

  lemma KebabExample()
    ensures Kebab("Heading  Large") == "heading-large"
  {
    HeadingWords();
    KebabWords("Heading", "  ", "Large");
    assert Kebab("Large") == Lower("Large");
  }

  lemma HeadingWords()
    ensures "Heading" + "  " + "Large" == "Heading  Large"
    ensures NoSpace("Heading") && AllSpace("  ") && Trimmed("Large") && NoSpace("Large")
    ensures Lower("Heading") + "-" + Lower("Large") == "heading-large"
  {
  }

  /** `kebab` is idempotent. */
  lemma KebabIdempotent(s: string)
    ensures Kebab(Kebab(s)) == Kebab(s)
  {
    var k := Kebab(s);
    assert Trimmed(k);
    assert Lower(k) == k;
  }
}
