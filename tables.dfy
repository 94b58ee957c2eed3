/**
 * Objects the builders fill with `out[key] = value` in a loop. A write is
 * a key and, when the loop writes at all for that element, a value: the
 * later of two writes to the same key wins, and a key is present exactly
 * when some write used it.
 */
module Tables {
  import opened Options

  /** The object after the writes `es`, in order; a `None` write leaves it as it is. */
  function Writes<T>(es: seq<(string, Option<T>)>): map<string, T>
    decreases |es|
  {
    if es == [] then map[]
    else
      var prev := Writes(es[..|es| - 1]);
      var e := es[|es| - 1];
      if e.1.Some? then prev[e.0 := e.1.value] else prev
  }

  /** A key is present exactly when some write used it. */
  lemma {:induction false} WritesKeys<T>(es: seq<(string, Option<T>)>, k: string)
    ensures k in Writes(es) <==> exists i :: 0 <= i < |es| && es[i].0 == k && es[i].1.Some?
    decreases |es|
  {
    if es != [] {
      var init := es[..|es| - 1];
      WritesKeys(init, k);
      if exists i :: 0 <= i < |es| && es[i].0 == k && es[i].1.Some? {
        var i :| 0 <= i < |es| && es[i].0 == k && es[i].1.Some?;
        if i < |es| - 1 {
          assert init[i] == es[i];
        }
      }
      if exists i :: 0 <= i < |init| && init[i].0 == k && init[i].1.Some? {
        var i :| 0 <= i < |init| && init[i].0 == k && init[i].1.Some?;
        assert es[i] == init[i];
      }
    }
  }

  /** The value under a key is the one of the last write to it. */
  lemma {:induction false} WritesValue<T>(es: seq<(string, Option<T>)>, i: int)
    requires 0 <= i < |es| && es[i].1.Some?
    requires forall j :: i < j < |es| && es[j].0 == es[i].0 ==> es[j].1.None?
    ensures es[i].0 in Writes(es) && Writes(es)[es[i].0] == es[i].1.value
    decreases |es|
  {
    if i < |es| - 1 {
      var init := es[..|es| - 1];
      assert init[i] == es[i];
      forall j | i < j < |init| && init[j].0 == init[i].0 ensures init[j].1.None? {
        assert init[j] == es[j];
      }
      WritesValue(init, i);
    }
  }

  /** The object after the first `i + 1` writes: the loop's step over a prefix. */
  lemma WritesStep<T>(es: seq<(string, Option<T>)>, i: int)
    requires 0 <= i < |es|
    ensures Writes(es[..i + 1]) == if es[i].1.Some? then Writes(es[..i])[es[i].0 := es[i].1.value] else Writes(es[..i])
  {
    assert es[..i + 1][..i] == es[..i];
  }
}
