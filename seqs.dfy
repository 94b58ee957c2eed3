/** Facts about sequences that the passes over variable lists share. */
module Seqs {
  /**
   * When the first element does not have the property, the elements that
   * do are among the rest.
   */
  lemma ExistsPastHead<T>(p: T -> bool, xs: seq<T>)
    requires xs != [] && !p(xs[0])
    ensures (exists i :: 0 <= i < |xs| && p(xs[i])) <==> (exists i :: 0 <= i < |xs[1..]| && p(xs[1..][i]))
  {
    if exists i :: 0 <= i < |xs| && p(xs[i]) {
      var i :| 0 <= i < |xs| && p(xs[i]);
      assert xs[1..][i - 1] == xs[i];
    }
  }
}
