/**
 * The two `resolveValueAsync` implementations with their module-level
 * `aliasCache`. The cache key `id + "::" + modeId` is the pair
 * `(id, modeId)`, and `getVariableByIdAsync` is a read of `graph`.
 */
module Resolver {
  import opened Options
  import opened Colors
  import opened VariableData
  import opened Resolution

  class AliasResolver {
    /** The variables the host can look up by id. */
    const graph: Graph
    /** `aliasCache`. */
    var cache: map<(Id, ModeId), Value>

    /** Every cached entry is the resolution of its alias under its mode. */
    ghost predicate Valid()
      reads this
    {
      forall k :: k in cache ==> cache[k] == Resolve(graph, Alias(k.0), k.1)
    }

    constructor (g: Graph)
      ensures graph == g && cache == map[]
      ensures Valid()
    {
      graph := g;
      cache := map[];
    }

    /** `aliasCache.set(key, result)` for a result that is the alias's resolution. */
    method Remember(x: Id, m: ModeId, r: Value)
      requires Valid() && r == Resolve(graph, Alias(x), m)
      modifies this
      ensures Valid() && cache == old(cache)[(x, m) := r]
    {
      cache := cache[(x, m) := r];
    }

    /**
     * `resolveValueAsync` of the variable module. Its `seen` set is only
     * added to, never read, so on an alias it terminates only when no
     * alias chain followed for the mode comes back to where it started; a
     * value that is not an alias returns at once on any graph.
     */
    method ResolveValue(v: Value, m: ModeId, seen: set<Id>) returns (r: Value)
      requires Valid()
      requires v.Alias? ==> AcyclicUnder(graph, m)
      requires v.Alias? ==> forall s :: s in seen ==> ReachesPlus(graph, m, s, v.id)
      modifies this
      ensures Valid()
      ensures r == Resolve(graph, v, m)
      ensures v.Alias? && (v.id, m) in old(cache) ==> r == old(cache)[(v.id, m)] && cache == old(cache)
      ensures v.Alias? && Hop(graph, v.id, m).Some? ==> (v.id, m) in cache
      ensures old(cache).Keys <= cache.Keys
      decreases |graph.Keys - seen|
    {
      match v {
        case Alias(x) =>
          if (x, m) in cache {
            return cache[(x, m)];
          }
          if x !in graph {
            ResolveStep(graph, m, x);
            return Null;
          }
          var vbm := graph[x].valuesByMode;
          var fallback := FirstKeyOr(vbm, "");
          var raw := Pick(vbm, m, Some(fallback));
          assert raw == Hop(graph, x, m);
          if raw.None? {
            ResolveStep(graph, m, x);
            return Null;
          }
          if x in seen {
            assert false;
          }
          if raw.value.Alias? {
            SeenExtends(graph, m, seen, x, raw.value.id);
          }
          CardinalityShrinks(graph.Keys, seen, x);
          r := ResolveValue(raw.value, m, seen + {x});
          ResolveStep(graph, m, x);
          assert r == Resolve(graph, Alias(x), m);
          Remember(x, m, r);
        case Color(c) =>
          r := Str(RgbaToHex(c));
        case _ =>
          r := v;
      }
    }

    /**
     * `resolveValueAsync` of the plugin entry file: the cache is consulted
     * first, then an id already in `seen` gives `null` (not cached), then
     * the target is looked up. It terminates on every graph.
     */
    method ResolveValueGuarded(v: Value, m: ModeId, seen: set<Id>) returns (r: Value)
      requires Valid()
      requires v.Alias? ==> forall s :: s in seen ==> ReachesPlus(graph, m, s, v.id)
      modifies this
      ensures Valid()
      ensures r == Resolve(graph, v, m)
      ensures v.Alias? && (v.id, m) in old(cache) ==> r == old(cache)[(v.id, m)] && cache == old(cache)
      ensures v.Alias? && (v.id, m) !in old(cache) && v.id in seen ==> r == Null && cache == old(cache)
      ensures v.Alias? && v.id !in seen && Hop(graph, v.id, m).Some? ==> (v.id, m) in cache
      ensures old(cache).Keys <= cache.Keys
      decreases |graph.Keys - seen|, 1
    {
      match v {
        case Alias(x) =>
          if (x, m) in cache {
            return cache[(x, m)];
          }
          if x in seen {
            assert ReachesPlus(graph, m, x, x);
            OnCycleNull(graph, m, x);
            return Null;
          }
          r := FollowGuarded(x, m, seen);
        case Color(c) =>
          r := Str(RgbaToHexPadded(c));
          RgbaToHexPaddedAgrees(c);
        case _ =>
          r := v;
      }
    }

    /**
     * The rest of the entry file's `resolveValueAsync` for an alias that is
     * neither cached nor in `seen`: look the target up, resolve what it
     * holds with the target added to `seen`, and cache the result.
     */
    method FollowGuarded(x: Id, m: ModeId, seen: set<Id>) returns (r: Value)
      requires Valid() && (x, m) !in cache && x !in seen
      requires forall s :: s in seen ==> ReachesPlus(graph, m, s, x)
      modifies this
      ensures Valid()
      ensures r == Resolve(graph, Alias(x), m)
      ensures Hop(graph, x, m).Some? ==> (x, m) in cache
      ensures old(cache).Keys <= cache.Keys
      decreases |graph.Keys - seen|, 0
    {
      var seen' := seen + {x};
      if x !in graph {
        ResolveStep(graph, m, x);
        return Null;
      }
      var vbm := graph[x].valuesByMode;
      var fallback := if |vbm| > 0 then vbm[0].0 else "";
      var here := Lookup(vbm, m);
      var hasMode := here.Some? && here.value != Null;
      var aliased := if hasMode then here else Lookup(vbm, fallback);
      PickHasMode(vbm, m);
      assert aliased == Hop(graph, x, m);
      if aliased.None? {
        ResolveStep(graph, m, x);
        return Null;
      }
      if aliased.value.Alias? {
        SeenExtends(graph, m, seen, x, aliased.value.id);
      }
      CardinalityShrinks(graph.Keys, seen, x);
      r := ResolveValueGuarded(aliased.value, m, seen');
      ResolveStep(graph, m, x);
      assert r == Resolve(graph, Alias(x), m);
      Remember(x, m, r);
    }
  }
}
