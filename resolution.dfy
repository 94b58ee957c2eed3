/**
 * What resolving a value means, independent of any cache: an alias is
 * followed, for the caller's mode id at every hop, to the variable it
 * names, whose value for that mode (or for its first key) is resolved in
 * turn; an RGBA literal becomes its hex text; anything else is kept. An
 * alias whose id was already visited on the way, a missing target and a
 * target without a value all give `null`.
 */
module Resolution {
  import opened Options
  import opened Colors
  import opened VariableData

  /** The value variable `x` holds for mode `m` after the first-key fallback; `None` when `x` is missing or has neither. */
  function Hop(g: Graph, x: Id, m: ModeId): Option<Value> {
    if x in g then ValueForMode(g[x], m) else None
  }

  /** The id that `x`'s value for mode `m` aliases, if it is an alias. */
  function Next(g: Graph, x: Id, m: ModeId): Option<Id> {
    match Hop(g, x, m)
    case Some(Alias(y)) => Some(y)
    case _ => None
  }

  /** Following `n` aliases for mode `m` leads from `x` to `y`. */
  predicate ReachesIn(g: Graph, m: ModeId, x: Id, y: Id, n: nat)
    decreases n
  {
    if n == 0 then x == y
    else Next(g, x, m).Some? && ReachesIn(g, m, Next(g, x, m).value, y, n - 1)
  }

  /** `y` is reached from `x` by following one or more aliases. */
  ghost predicate ReachesPlus(g: Graph, m: ModeId, x: Id, y: Id) {
    exists n: nat :: 1 <= n && ReachesIn(g, m, x, y, n)
  }

  /** No alias chain followed for mode `m` leads from a variable back to itself. */
  ghost predicate AcyclicUnder(g: Graph, m: ModeId) {
    forall x :: !ReachesPlus(g, m, x, x)
  }

  /** No alias chain, for any mode, leads from a variable back to itself. */
  ghost predicate AliasGraphAcyclic(g: Graph) {
    forall m :: AcyclicUnder(g, m)
  }

  lemma CardinalityShrinks(keys: set<Id>, seen: set<Id>, x: Id)
    requires x in keys && x !in seen
    ensures |keys - (seen + {x})| < |keys - seen|
  {
    assert (keys - seen) == (keys - (seen + {x})) + {x};
  }

  /** Following one more alias from `x` to `z` keeps every id of `seen`, and `x` itself, behind `z`. */
  lemma SeenExtends(g: Graph, m: ModeId, seen: set<Id>, x: Id, z: Id)
    requires Next(g, x, m) == Some(z)
    requires forall s :: s in seen ==> ReachesPlus(g, m, s, x)
    ensures forall s :: s in seen + {x} ==> ReachesPlus(g, m, s, z)
  {
    assert ReachesIn(g, m, z, z, 0);
    assert ReachesIn(g, m, x, z, 1);
    forall s | s in seen + {x} ensures ReachesPlus(g, m, s, z) {
      if s in seen {
        var n: nat :| 1 <= n && ReachesIn(g, m, s, x, n);
        ReachesSnoc(g, m, s, x, z, n);
      }
    }
  }

  /**
   * Resolution with the ids already visited in `seen`: the semantics of the
   * guarded resolver of the plugin entry file.
   */
  function ResolveFrom(g: Graph, v: Value, m: ModeId, seen: set<Id>): (r: Value)
    ensures !r.Alias? && !r.Color?
    decreases |g.Keys - seen|
  {
    match v
    case Alias(x) =>
      if x in seen || x !in g then Null
      else
        CardinalityShrinks(g.Keys, seen, x);
        (match Hop(g, x, m)
         case None => Null
         case Some(raw) => ResolveFrom(g, raw, m, seen + {x}))
    case Color(c) => Str(RgbaToHex(c))
    case _ => v
  }

  /** The resolution of a value for mode `m`: no alias and no RGBA object is left in it. */
  function Resolve(g: Graph, v: Value, m: ModeId): (r: Value)
    ensures !r.Alias? && !r.Color?
  {
    ResolveFrom(g, v, m, {})
  }

  /** Following one more alias at the end of a chain. */
  lemma {:induction false} ReachesSnoc(g: Graph, m: ModeId, x: Id, y: Id, z: Id, n: nat)
    requires ReachesIn(g, m, x, y, n) && Next(g, y, m) == Some(z)
    ensures ReachesIn(g, m, x, z, n + 1)
    decreases n
  {
    if n > 0 {
      ReachesSnoc(g, m, Next(g, x, m).value, y, z, n - 1);
    }
  }

  /** An alias whose chain reaches an id already in `seen` resolves to `null`. */
  lemma {:induction false} ReachSeenNull(g: Graph, m: ModeId, x: Id, y: Id, n: nat, seen: set<Id>)
    requires ReachesIn(g, m, x, y, n) && y in seen
    ensures ResolveFrom(g, Alias(x), m, seen) == Null
    decreases n
  {
    if n > 0 && x !in seen {
      var z := Next(g, x, m).value;
      ReachSeenNull(g, m, z, y, n - 1, seen + {x});
    }
  }

  /** An alias on a cycle resolves to `null`: the guard stops the walk when it comes back. */
  lemma OnCycleNull(g: Graph, m: ModeId, x: Id)
    requires ReachesPlus(g, m, x, x)
    ensures Resolve(g, Alias(x), m) == Null
  {
    var n: nat :| 1 <= n && ReachesIn(g, m, x, x, n);
    var z := Next(g, x, m).value;
    ReachSeenNull(g, m, z, x, n - 1, {x});
    assert x in g && Hop(g, x, m) == Some(Alias(z));
    assert ResolveFrom(g, Alias(x), m, {}) == ResolveFrom(g, Alias(z), m, {} + {x});
    assert {} + {x} == {x};
  }

  /**
   * Ids in `seen` from which the alias is reachable do not change its
   * resolution: they can only be met again on a cycle, where both walks
   * give `null`.
   */
  lemma {:induction false} SeenIrrelevant(g: Graph, m: ModeId, v: Value, s: set<Id>, t: set<Id>)
    requires s <= t
    requires v.Alias? ==> forall u :: u in t && u !in s ==> ReachesPlus(g, m, u, v.id)
    ensures ResolveFrom(g, v, m, s) == ResolveFrom(g, v, m, t)
    decreases |g.Keys - s|
  {
    if v.Alias? {
      var x := v.id;
      if x in t && x !in s {
        var n: nat :| 1 <= n && ReachesIn(g, m, x, x, n);
        var z := Next(g, x, m).value;
        ReachSeenNull(g, m, z, x, n - 1, s + {x});
      } else if x !in s && x in g && Hop(g, x, m).Some? {
        var raw := Hop(g, x, m).value;
        if raw.Alias? {
          forall u | u in t + {x} && u !in s + {x} ensures ReachesPlus(g, m, u, raw.id) {
            var n: nat :| 1 <= n && ReachesIn(g, m, u, x, n);
            ReachesSnoc(g, m, u, x, raw.id, n);
          }
        }
        CardinalityShrinks(g.Keys, s, x);
        SeenIrrelevant(g, m, raw, s + {x}, t + {x});
      }
    }
  }

  /**
   * One hop: an alias to a missing variable, or to one with no value for
   * the mode or its first key, resolves to `null`; otherwise it resolves
   * exactly as the value it points to does.
   */
  lemma ResolveStep(g: Graph, m: ModeId, x: Id)
    ensures x !in g ==> Resolve(g, Alias(x), m) == Null
    ensures Hop(g, x, m).None? ==> Resolve(g, Alias(x), m) == Null
    ensures Hop(g, x, m).Some? ==> Resolve(g, Alias(x), m) == Resolve(g, Hop(g, x, m).value, m)
  {
    if Hop(g, x, m).Some? {
      var raw := Hop(g, x, m).value;
      if raw.Alias? {
        assert ReachesIn(g, m, raw.id, raw.id, 0);
        assert ReachesIn(g, m, x, raw.id, 1);
      }
      SeenIrrelevant(g, m, raw, {}, {x});
      assert ResolveFrom(g, Alias(x), m, {}) == ResolveFrom(g, raw, m, {} + {x});
      assert {} + {x} == {x};
    }
  }

  /** Every hop keeps the caller's mode: an alias resolves as the end of any chain it starts. */
  lemma {:induction false} ChainResolves(g: Graph, m: ModeId, x: Id, y: Id, n: nat)
    requires ReachesIn(g, m, x, y, n)
    ensures Resolve(g, Alias(x), m) == Resolve(g, Alias(y), m)
    decreases n
  {
    if n > 0 {
      var z := Next(g, x, m).value;
      ResolveStep(g, m, x);
      ChainResolves(g, m, z, y, n - 1);
    }
  }

  /** A chain that ends at a literal resolves to that literal's resolution under the same mode. */
  lemma ChainToLiteral(g: Graph, m: ModeId, x: Id, y: Id, n: nat, lit: Value)
    requires ReachesIn(g, m, x, y, n) && Hop(g, y, m) == Some(lit) && !lit.Alias?
    ensures Resolve(g, Alias(x), m) == (if lit.Color? then Str(RgbaToHex(lit.c)) else lit)
  {
    ChainResolves(g, m, x, y, n);
    ResolveStep(g, m, y);
  }
}
