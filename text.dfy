/**
 * ASCII string primitives that the token engine's JavaScript relies on:
 * `String.prototype.trim`, `toLowerCase`, `split` on one character,
 * `Array.prototype.join`, `replace(/\s+/g, "-")`, `includes` and
 * `startsWith`. Whitespace and case are the ASCII subsets of what a
 * JavaScript engine uses.
 */
module Text {

  /** The ASCII characters matched by `\s` and removed by `trim()`. */
  predicate IsSpace(c: char) {
    c == ' ' || c == '\t' || c == '\n' || c == '\r' || c as int == 11 || c as int == 12
  }

  predicate IsUpper(c: char) {
    'A' <= c <= 'Z'
  }

  function LowerChar(c: char): (r: char)
    ensures !IsUpper(r)
    ensures IsSpace(r) <==> IsSpace(c)
    ensures !IsUpper(c) ==> r == c
  {
    if IsUpper(c) then (c as int + 32) as char else c
  }

  /** `toLowerCase()` on ASCII letters. */
  function Lower(s: string): (r: string)
    ensures |r| == |s|
    ensures forall i :: 0 <= i < |s| ==> r[i] == LowerChar(s[i])
  {
    seq(|s|, i requires 0 <= i < |s| => LowerChar(s[i]))
  }

  /** Lower-casing works character by character, so it distributes over concatenation. */
  lemma LowerConcat(a: string, b: string)
    ensures Lower(a + b) == Lower(a) + Lower(b)
  {
  }

  /** A text with no upper-case letter is its own lower-case form, and lower-casing keeps a text trimmed. */
  lemma LowerKeeps(s: string)
    ensures NoUpper(s) ==> Lower(s) == s
    ensures Trimmed(s) ==> Trimmed(Lower(s))
  {
  }

  predicate NoSpace(s: string) {
    forall i :: 0 <= i < |s| ==> !IsSpace(s[i])
  }

  predicate AllSpace(s: string) {
    forall i :: 0 <= i < |s| ==> IsSpace(s[i])
  }

  predicate NoUpper(s: string) {
    forall i :: 0 <= i < |s| ==> !IsUpper(s[i])
  }

  /** Neither starts nor ends with whitespace. */
  predicate Trimmed(s: string) {
    s == [] || (!IsSpace(s[0]) && !IsSpace(s[|s| - 1]))
  }

  /** `t` occurs in `s` starting at index `i`. */
  predicate OccursAt(s: string, t: string, i: int) {
    0 <= i && i + |t| <= |s| && s[i..i + |t|] == t
  }

  /** `s.includes(t)`. */
  predicate Contains(s: string, t: string) {
    exists i :: 0 <= i <= |s| - |t| && OccursAt(s, t, i)
  }

  /** `s.startsWith(p)`. */
  predicate StartsWith(s: string, p: string) {
    |p| <= |s| && s[..|p|] == p
  }

  function TrimStart(s: string): (r: string)
    ensures |r| <= |s| && r == s[|s| - |r|..]
    ensures r == [] || !IsSpace(r[0])
    ensures AllSpace(s[..|s| - |r|])
    ensures |s| > 0 && IsSpace(s[0]) ==> |r| < |s|
    ensures |s| > 0 && !IsSpace(s[0]) ==> r == s
  {
    if |s| > 0 && IsSpace(s[0]) then
      var r := TrimStart(s[1..]);
      TrimStartStep(s, r);
      r
    else s
  }

  function TrimEnd(s: string): (r: string)
    ensures |r| <= |s| && r == s[..|r|]
    ensures r == [] || !IsSpace(r[|r| - 1])
    ensures AllSpace(s[|r|..])
    ensures |s| > 0 && !IsSpace(s[|s| - 1]) ==> r == s
  {
    if |s| > 0 && IsSpace(s[|s| - 1]) then
      var r := TrimEnd(s[..|s| - 1]);
      TrimEndStep(s, r);
      r
    else s
  }

  /** Leading whitespace after a whitespace character is leading whitespace of the whole. */
  lemma TrimStartStep(s: string, r: string)
    requires |s| > 0 && IsSpace(s[0]) && |r| < |s|
    requires r == s[1..][|s| - 1 - |r|..] && AllSpace(s[1..][..|s| - 1 - |r|])
    ensures r == s[|s| - |r|..] && AllSpace(s[..|s| - |r|])
  {
    assert s[1..][|s| - 1 - |r|..] == s[|s| - |r|..];
    assert s[..|s| - |r|] == [s[0]] + s[1..][..|s| - 1 - |r|];
  }

  /** Trailing whitespace before a whitespace character is trailing whitespace of the whole. */
  lemma TrimEndStep(s: string, r: string)
    requires |s| > 0 && IsSpace(s[|s| - 1]) && |r| < |s|
    requires r == s[..|s| - 1][..|r|] && AllSpace(s[..|s| - 1][|r|..])
    ensures r == s[..|r|] && AllSpace(s[|r|..])
  {
    var t := s[..|s| - 1];
    assert t[..|r|] == s[..|r|];
    assert s[|r|..] == t[|r|..] + [s[|s| - 1]];
  }

  /** `s.trim()`: the result is the slice of `s` between its leading and trailing whitespace. */
  function Trim(s: string): (r: string)
    ensures Trimmed(r)
    ensures r == [] <==> AllSpace(s)
    ensures Trimmed(s) ==> r == s
  {
    TrimEmpty(s);
    TrimTrimmed(s);
    TrimEnd(TrimStart(s))
  }

  /** `trim` keeps a contiguous slice of its input, so it adds no character. */
  lemma TrimIsSlice(s: string)
    ensures OccursAt(s, Trim(s), |s| - |TrimStart(s)|)
    ensures forall c :: c in Trim(s) ==> c in s
  {
    assert Trim(s) == TrimEnd(TrimStart(s));
    TrimSliceAt(s);
    OccursAtChars(s, Trim(s), |s| - |TrimStart(s)|);
  }

  lemma TrimSliceAt(s: string)
    ensures OccursAt(s, TrimEnd(TrimStart(s)), |s| - |TrimStart(s)|)
  {
    var a := TrimStart(s);
    var r := TrimEnd(a);
    assert |a| <= |s| && a == s[|s| - |a|..];
    assert |r| <= |a| && r == a[..|r|];
    SliceOfSuffix(s, a, r);
  }

  /** A prefix `r` of a suffix `a` of `s` occurs in `s` where `a` starts. */
  lemma SliceOfSuffix(s: string, a: string, r: string)
    requires |a| <= |s| && a == s[|s| - |a|..] && |r| <= |a| && r == a[..|r|]
    ensures OccursAt(s, r, |s| - |a|)
  {
    var i := |s| - |a|;
    assert s[i..i + |r|] == s[i..][..|r|];
  }

  lemma OccursAtChars(s: string, t: string, i: int)
    requires OccursAt(s, t, i)
    ensures forall c :: c in t ==> c in s
  {
    forall c | c in t ensures c in s {
      var j :| 0 <= j < |t| && t[j] == c;
      assert s[i + j] == t[j];
    }
  }

  /** Both ends trimmed, and a text already trimmed is kept. */
  lemma TrimTrimmed(s: string)
    ensures Trimmed(TrimEnd(TrimStart(s)))
    ensures Trimmed(s) ==> TrimEnd(TrimStart(s)) == s
  {
    var a := TrimStart(s);
    var r := TrimEnd(a);
    if r != [] {
      assert r[0] == a[0];
    }
    if s != [] && Trimmed(s) {
      assert a == s;
    }
  }

  lemma TrimEmpty(s: string)
    ensures TrimEnd(TrimStart(s)) == [] <==> AllSpace(s)
  {
    var a := TrimStart(s);
    var r := TrimEnd(a);
    if r == [] {
      assert AllSpace(a) by { assert a[|r|..] == a; }
      assert |a| == 0;
      assert s[..|s|] == s;
    } else {
      assert !IsSpace(s[|s| - |a|]);
    }
  }

  /**
   * `s.split(sep)` for a one-character separator: `""` gives `[""]` and
   * a separator at either end gives an empty first or last part.
   */
  function Split(s: string, sep: char): (r: seq<string>)
    ensures |r| >= 1
    ensures forall k :: 0 <= k < |r| ==> sep !in r[k]
    ensures sep !in s ==> r == [s]
  {
    if |s| == 0 then [""]
    else if s[0] == sep then [""] + Split(s[1..], sep)
    else
      var t := Split(s[1..], sep);
      assert sep !in s ==> [s[0]] + s[1..] == s;
      [[s[0]] + t[0]] + t[1..]
  }

  /** `parts.join(sep)`. */
  function Join(parts: seq<string>, sep: string): string {
    if |parts| == 0 then ""
    else if |parts| == 1 then parts[0]
    else parts[0] + sep + Join(parts[1..], sep)
  }

  /** Joining the parts of a split with the same separator gives the input back. */
  lemma {:induction false} SplitJoin(s: string, sep: char)
    ensures Join(Split(s, sep), [sep]) == s
  {
    if |s| == 0 {
    } else if s[0] == sep {
      SplitJoin(s[1..], sep);
      var t := Split(s[1..], sep);
      if |t| == 1 {
        assert Join([""] + t, [sep]) == "" + [sep] + Join(t, [sep]);
      } else {
        assert ([""] + t)[1..] == t;
      }
    } else {
      SplitJoin(s[1..], sep);
      var t := Split(s[1..], sep);
      var r := [[s[0]] + t[0]] + t[1..];
      if |t| == 1 {
      } else {
        assert r[1..] == t[1..];
        assert Join(t, [sep]) == t[0] + [sep] + Join(t[1..], [sep]);
      }
    }
  }

  /** A separator splits the text in two: the parts of each side, in order. */
  lemma {:induction false} SplitConcat(a: string, b: string, sep: char)
    ensures Split(a + [sep] + b, sep) == Split(a, sep) + Split(b, sep)
    decreases |a|
  {
    if |a| == 0 {
      var s := a + [sep] + b;
      assert s == [sep] + b && s[1..] == b;
    } else {
      SplitConcat(a[1..], b, sep);
      if a[0] == sep {
        SplitSepStep(a[1..], b, sep);
        assert [sep] + a[1..] == a;
      } else {
        SplitConsStep(a, b, sep, Split(a[1..], sep), Split(b, sep));
      }
    }
  }

  /** The step of `SplitConcat` for a text that starts with the separator. */
  lemma SplitSepStep(t: string, b: string, sep: char)
    requires Split(t + [sep] + b, sep) == Split(t, sep) + Split(b, sep)
    ensures Split([sep] + t + [sep] + b, sep) == Split([sep] + t, sep) + Split(b, sep)
  {
    var x := t + [sep] + b;
    assert [sep] + t + [sep] + b == [sep] + x;
    SplitSepFront(x, sep);
    SplitSepFront(t, sep);
    PrependEmpty(Split(t, sep), Split(b, sep));
  }

  lemma PrependEmpty(u: seq<string>, v: seq<string>)
    ensures [""] + (u + v) == ([""] + u) + v
  {
  }

  /** A leading separator gives an empty first part. */
  lemma SplitSepFront(x: string, sep: char)
    ensures Split([sep] + x, sep) == [""] + Split(x, sep)
  {
    assert ([sep] + x)[1..] == x;
  }

  /** The step of `SplitConcat` for a first character other than the separator. */
  lemma SplitConsStep(a: string, b: string, sep: char, t: seq<string>, u: seq<string>)
    requires a != [] && a[0] != sep && t != []
    requires t == Split(a[1..], sep) && u == Split(b, sep)
    requires Split(a[1..] + [sep] + b, sep) == t + u
    ensures Split(a + [sep] + b, sep) == Split(a, sep) + u
  {
    var s := a + [sep] + b;
    ConsRest(a, b, sep);
    SplitCons(s, sep);
    SplitCons(a, sep);
    ConsHead(a[0], t, u);
  }

  lemma ConsRest(a: string, b: string, sep: char)
    requires a != []
    ensures (a + [sep] + b)[0] == a[0] && (a + [sep] + b)[1..] == a[1..] + [sep] + b
  {
  }

  lemma ConsHead(c: char, t: seq<string>, u: seq<string>)
    requires t != []
    ensures [[c] + (t + u)[0]] + (t + u)[1..] == ([[c] + t[0]] + t[1..]) + u
  {
    var v := t + u;
    assert v[0] == t[0] && v[1..] == t[1..] + u;
  }

  lemma SplitCons(s: string, sep: char)
    requires s != [] && s[0] != sep
    ensures Split(s, sep) == [[s[0]] + Split(s[1..], sep)[0]] + Split(s[1..], sep)[1..]
  {
  }

  /**
   * Splitting the join of parts without the separator gives the parts back,
   * so `Split` and `Join` are inverse on one-character separators.
   */
  lemma {:induction false} JoinSplit(parts: seq<string>, sep: char)
    requires |parts| >= 1
    requires forall k :: 0 <= k < |parts| ==> sep !in parts[k]
    ensures Split(Join(parts, [sep]), sep) == parts
  {
    if |parts| > 1 {
      JoinSplit(parts[1..], sep);
      SplitConcat(parts[0], Join(parts[1..], [sep]), sep);
      assert [parts[0]] + parts[1..] == parts;
    }
  }

  /** The first part of a split of the lower-cased text is the lower-cased first part. */
  lemma {:induction false} SplitLowerHead(s: string, sep: char)
    requires !IsUpper(sep) && !('a' <= sep <= 'z')
    ensures Split(Lower(s), sep)[0] == Lower(Split(s, sep)[0])
    decreases |s|
  {
    if |s| > 0 {
      var l := Lower(s);
      assert l[1..] == Lower(s[1..]);
      SplitLowerHead(s[1..], sep);
      if s[0] != sep {
        assert l[0] != sep;
        LowerConcat([s[0]], Split(s[1..], sep)[0]);
      }
    }
  }

  /** A character absent from every part and from the separator is absent from the join. */
  lemma {:induction false} JoinAvoids(parts: seq<string>, sep: string, c: char)
    requires c !in sep
    requires forall k :: 0 <= k < |parts| ==> c !in parts[k]
    ensures c !in Join(parts, sep)
  {
    if |parts| > 1 {
      JoinAvoids(parts[1..], sep, c);
    }
  }

  /** The join of non-empty trimmed parts with a separator that has no whitespace at its ends is trimmed. */
  lemma {:induction false} JoinTrimmed(parts: seq<string>, sep: string)
    requires forall k :: 0 <= k < |parts| ==> parts[k] != [] && Trimmed(parts[k])
    ensures Trimmed(Join(parts, sep))
    ensures |parts| > 0 ==> Join(parts, sep) != [] && Join(parts, sep)[0] == parts[0][0]
  {
    if |parts| > 1 {
      JoinTrimmed(parts[1..], sep);
      var j := Join(parts[1..], sep);
      assert Join(parts, sep) == parts[0] + sep + j;
      assert (parts[0] + sep + j)[|parts[0] + sep + j| - 1] == j[|j| - 1];
    }
  }

  /**
   * `s.replace(/\s+/g, "-")`: every maximal run of whitespace becomes one
   * hyphen; other characters are kept in order.
   */
  function CollapseSpace(s: string): (r: string)
    ensures NoSpace(r)
    ensures NoSpace(s) ==> r == s
    ensures NoUpper(s) ==> NoUpper(r)
    decreases |s|
  {
    if |s| == 0 then ""
    else if IsSpace(s[0]) then "-" + CollapseSpace(TrimStart(s))
    else [s[0]] + CollapseSpace(s[1..])
  }

  /** A text without whitespace in front of another is kept as it is. */
  lemma {:induction false} CollapsePrefix(x: string, y: string)
    requires NoSpace(x)
    ensures CollapseSpace(x + y) == x + CollapseSpace(y)
    decreases |x|
  {
    if x == [] {
      assert x + y == y;
    } else {
      CollapsePrefix(x[1..], y);
      ConsSplit(x, y);
      ConsSplit(x, CollapseSpace(y));
      CollapseCons(x[0], x[1..] + y);
    }
  }

  lemma ConsSplit(x: string, y: string)
    requires x != []
    ensures x + y == [x[0]] + (x[1..] + y)
  {
  }

  lemma CollapseCons(c: char, s: string)
    requires !IsSpace(c)
    ensures CollapseSpace([c] + s) == [c] + CollapseSpace(s)
  {
    assert ([c] + s)[1..] == s;
  }


  /** Leading whitespace of a text followed by a non-space is leading whitespace of the whole. */
  lemma {:induction false} TrimStartSep(x: string, c: char, y: string)
    requires !IsSpace(c)
    ensures TrimStart(x + [c] + y) == TrimStart(x) + [c] + y
    decreases |x|
  {
    var v := x + [c] + y;
    if x == [] {
      assert v == [c] + y;
    } else if IsSpace(x[0]) {
      assert v[0] == x[0] && v[1..] == x[1..] + [c] + y;
      TrimStartSep(x[1..], c, y);
    } else {
      assert v[0] == x[0];
    }
  }

  /** A whitespace run followed by a non-space is dropped by `TrimStart`. */
  lemma {:induction false} TrimStartRun(w: string, y: string)
    requires AllSpace(w)
    requires y == [] || !IsSpace(y[0])
    ensures TrimStart(w + y) == y
    decreases |w|
  {
    if w == [] {
      assert w + y == y;
    } else {
      assert (w + y)[1..] == w[1..] + y;
      TrimStartRun(w[1..], y);
    }
  }

  /** A maximal whitespace run between two texts becomes exactly one "-". */
  lemma CollapseSpaceRun(x: string, w: string, y: string)
    requires NoSpace(x)
    requires w != [] && AllSpace(w)
    requires y == [] || !IsSpace(y[0])
    ensures CollapseSpace(x + w + y) == x + "-" + CollapseSpace(y)
  {
    var v := w + y;
    assert x + w + y == x + v;
    CollapsePrefix(x, v);
    RunCollapses(w, y);
  }

  lemma RunCollapses(w: string, y: string)
    requires w != [] && AllSpace(w)
    requires y == [] || !IsSpace(y[0])
    ensures CollapseSpace(w + y) == "-" + CollapseSpace(y)
  {
    var v := w + y;
    assert v[0] == w[0];
    TrimStartRun(w, y);
    CollapseLead(v);
  }

  /** A text starting with whitespace collapses to "-" and the collapse of the rest after the run. */
  lemma CollapseLead(v: string)
    requires v != [] && IsSpace(v[0])
    ensures CollapseSpace(v) == "-" + CollapseSpace(TrimStart(v))
  {
  }

  /** A non-space character separates the collapsing of what lies on either side of it. */
  lemma {:induction false} CollapseSpaceSep(x: string, c: char, y: string)
    requires !IsSpace(c)
    ensures CollapseSpace(x + [c] + y) == CollapseSpace(x) + [c] + CollapseSpace(y)
    decreases |x|
  {
    if x == [] {
      assert x + [c] + y == [c] + y;
      CollapseCons(c, y);
    } else if IsSpace(x[0]) {
      var t := TrimStart(x);
      CollapseSpaceSep(t, c, y);
      SepAfterSpace(x, c, y);
    } else {
      CollapseSpaceSep(x[1..], c, y);
      SepAfterChar(x[0], x[1..], c, y);
      assert [x[0]] + x[1..] == x;
    }
  }

  /** The step of `CollapseSpaceSep` for a text that starts with another character. */
  lemma SepAfterChar(h: char, t: string, c: char, y: string)
    requires !IsSpace(h) && !IsSpace(c)
    requires CollapseSpace(t + [c] + y) == CollapseSpace(t) + [c] + CollapseSpace(y)
    ensures CollapseSpace([h] + t + [c] + y) == CollapseSpace([h] + t) + [c] + CollapseSpace(y)
  {
    CollapseCons(h, t + [c] + y);
    CollapseCons(h, t);
    assert [h] + t + [c] + y == [h] + (t + [c] + y);
    Regroup([h], CollapseSpace(t), [c], CollapseSpace(y));
  }

  /** The step of `CollapseSpaceSep` for a text that starts with whitespace. */
  lemma SepAfterSpace(x: string, c: char, y: string)
    requires !IsSpace(c) && x != [] && IsSpace(x[0])
    requires CollapseSpace(TrimStart(x) + [c] + y) == CollapseSpace(TrimStart(x)) + [c] + CollapseSpace(y)
    ensures CollapseSpace(x + [c] + y) == CollapseSpace(x) + [c] + CollapseSpace(y)
  {
    var v := x + [c] + y;
    TrimStartSep(x, c, y);
    CollapseLead(v);
    CollapseLead(x);
    Regroup("-", CollapseSpace(TrimStart(x)), [c], CollapseSpace(y));
  }

  lemma Regroup(a: string, b: string, c: string, d: string)
    ensures a + (b + c + d) == (a + b) + c + d
  {
  }

  /** `parts.map(s => s.replace(/\s+/g, "-"))`. */
  function CollapseEach(parts: seq<string>): (r: seq<string>)
    ensures |r| == |parts|
    ensures forall k :: 0 <= k < |r| ==> r[k] == CollapseSpace(parts[k]) && NoSpace(r[k])
  {
    seq(|parts|, k requires 0 <= k < |parts| => CollapseSpace(parts[k]))
  }

  /**
   * Replacing whitespace runs part by part and joining with a non-space
   * separator is the same as joining first and replacing once.
   */
  lemma {:induction false} CollapseJoin(parts: seq<string>, c: char)
    requires !IsSpace(c)
    ensures Join(CollapseEach(parts), [c]) == CollapseSpace(Join(parts, [c]))
  {
    if |parts| > 1 {
      CollapseJoin(parts[1..], c);
      assert CollapseEach(parts)[1..] == CollapseEach(parts[1..]);
      CollapseSpaceSep(parts[0], c, Join(parts[1..], [c]));
    }
  }

  /** `"" + s` for a JavaScript integer: the decimal digits, with a minus sign when negative. */
  function IntToString(n: int): (r: string)
    ensures r != []
    ensures NoSpace(r)
    decreases if n < 0 then 1 - n else n
  {
    if n < 0 then "-" + IntToString(-n)
    else if n < 10 then [DecimalDigit(n)]
    else IntToString(n / 10) + [DecimalDigit(n % 10)]
  }

  function DecimalDigit(d: int): (c: char)
    requires 0 <= d < 10
    ensures '0' <= c <= '9'
  {
    ('0' as int + d) as char
  }
}
