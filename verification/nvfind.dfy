/** `List.Find`, the depth-first lookup over a decoded nvlist. Packages
    `zfs/nvlist` and `zfs/internal/nvlist` carry the same code, modelled once
    here over the value type the XDR scanner produces. Only values that are
    themselves lists (`NVList` pairs) are descended into; list arrays,
    strings and numbers are not. */
module NvFind {
  import opened Wrappers
  import opened Nvlist

  /** `target` is a key of `l` or of a list reachable from `l` through
      list-valued entries only. */
  predicate Reaches(l: List, target: string)
    decreases Sub(l)
  {
    || target in l
    || exists k :: k in l && l[k].Sub? && Reaches(l[k].entries, target)
  }

  /** `target` maps to `x` in `l` or in a list reachable through list-valued
      entries. */
  predicate Binds(l: List, target: string, x: Value)
    decreases Sub(l)
  {
    || (target in l && l[target] == x)
    || exists k :: k in l && l[k].Sub? && Binds(l[k].entries, target, x)
  }

  /** Some list-valued entry of `l` reaches `target`. */
  predicate NestedReaches(l: List, target: string)
  {
    exists k :: k in l && l[k].Sub? && Reaches(l[k].entries, target)
  }

  /** Some list-valued entry of `l` binds `target` to `x`. */
  predicate NestedBinds(l: List, target: string, x: Value)
  {
    exists k :: k in l && l[k].Sub? && Binds(l[k].entries, target, x)
  }

  /** `List.Find`: first every list-valued entry, in the map's (unspecified)
      iteration order, is searched recursively and the first hit returned;
      only then is `target` looked up at this level. The iteration order is
      left open: each step picks any key not yet visited. */
  method Find(l: List, target: string) returns (r: Option<Value>)
    ensures r.Some? ==> Binds(l, target, r.value)
    ensures r.None? <==> !Reaches(l, target)
    ensures NestedReaches(l, target) ==> r.Some? && NestedBinds(l, target, r.value)
    ensures !NestedReaches(l, target) ==> r == (if target in l then Some(l[target]) else None)
    decreases Sub(l)
  {
    var todo := l.Keys;
    while todo != {}
      invariant todo <= l.Keys
      invariant forall k :: k in l && k !in todo && l[k].Sub? ==> !Reaches(l[k].entries, target)
      decreases todo
    {
      var k :| k in todo;
      todo := todo - {k};
      if l[k].Sub? {
        var v := Find(l[k].entries, target);
        if v.Some? {
          return v;
        }
      }
    }
    // The second loop of the source visits the keys until it meets
    // `target`; with unique keys that is a plain lookup.
    if target in l {
      return Some(l[target]);
    }
    return None;
  }

  /** Whatever is bound is reachable. */
  lemma {:induction false} BindsReaches(l: List, target: string, x: Value)
    requires Binds(l, target, x)
    ensures Reaches(l, target)
    decreases Sub(l)
  {
    if !(target in l && l[target] == x) {
      var k :| k in l && l[k].Sub? && Binds(l[k].entries, target, x);
      BindsReaches(l[k].entries, target, x);
    }
  }

  /** Whatever is reachable is bound to something. */
  lemma {:induction false} ReachesBinds(l: List, target: string)
    requires Reaches(l, target)
    ensures exists x :: Binds(l, target, x)
    decreases Sub(l)
  {
    if target in l {
      assert Binds(l, target, l[target]);
    } else {
      var k :| k in l && l[k].Sub? && Reaches(l[k].entries, target);
      ReachesBinds(l[k].entries, target);
      var x :| Binds(l[k].entries, target, x);
      assert Binds(l, target, x);
    }
  }
}
