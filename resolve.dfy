/**
  Lazy, cached resolution of a pointer's location object
  (`getLocationObject`, forcing or not), the cache reset-and-resolve of
  `_refreshRoot`, and the in-order delivery of a `'changed'` emission to the
  hooks registered on a pointer.
 */
module Resolution {
  import opened Values
  import opened ObjectTree
  import opened PointerTable

  /** The new store, the new pointer table, and what the operation returned. */
  datatype Effect<T> = Effect(t: Tree, ps: Table, value: T)

  ghost predicate Wf(t: Tree, ps: Table, rank: Ranks) {
    Valid(t) && TableOk(t, ps, rank)
  }

  /** `retrieveChild(base, this._loc, force)`, then keep the result in the
      cache when it is an object. */
  function Settle(t: Tree, ps: Table, rank: Ranks, p: PtrId, base: ObjId, force: bool): (r: Effect<Option<ObjId>>)
    requires Wf(t, ps, rank) && p in ps && base in t.objs && ps[p].cache.None?
    ensures Wf(r.t, r.ps, rank) && CachesFilled(ps, r.ps) && Extends(t, r.t)
    ensures forall x :: x in ps && x != p ==> r.ps[x] == ps[x]
    ensures r.ps[p].cache == r.value
    ensures r.value == AsObject(if force then Force(t, base, ps[p].loc).v else Walk(t, base, ps[p].loc))
    ensures !force ==> r.t == t
    ensures r.value.None? ==> r.ps == ps
    ensures Layered(t) ==> Layered(r.t)
  {
    ForceLayeredIf(t, base, ps[p].loc);
    var f := if force then Force(t, base, ps[p].loc) else Forced(t, Walk(t, base, ps[p].loc));
    var ps2 := if f.v.Ref? then ps[p := ps[p].(cache := Some(f.v.id))] else ps;
    CacheOk(t, f.t, ps, rank, p, f.v);
    Effect(f.t, ps2, AsObject(f.v))
  }

  /** Caching an object of a grown store in an empty cache keeps the table
      consistent and changes no other record. */
  lemma CacheOk(t: Tree, t2: Tree, ps: Table, rank: Ranks, p: PtrId, v: Val)
    requires Wf(t, ps, rank) && p in ps && ps[p].cache.None?
    requires Valid(t2) && t.objs.Keys <= t2.objs.Keys && Closed(t2, v)
    ensures var ps2 := if v.Ref? then ps[p := ps[p].(cache := Some(v.id))] else ps;
            && Wf(t2, ps2, rank) && CachesFilled(ps, ps2)
            && (forall x :: x in ps && x != p ==> ps2[x] == ps[x])
  {
    var ps2 := if v.Ref? then ps[p := ps[p].(cache := Some(v.id))] else ps;
    ReshapeOk(t, t2, ps, ps2, rank);
  }

  lemma ForceLayeredIf(t: Tree, id: ObjId, path: seq<string>)
    requires Valid(t) && id in t.objs
    ensures Layered(t) ==> Layered(Force(t, id, path).t)
  {
    if Layered(t) {
      ForceLayered(t, id, path);
    }
  }

  /** `getLocationObject(force)`: a set cache is returned as it is; otherwise
      the location is resolved against the raw root, or against the root
      pointer's own location object (resolved first, with the same `force`),
      and an object result is cached.  A missing location object of the root
      pointer gives `undefined`. */
  function Resolve(t: Tree, ps: Table, rank: Ranks, p: PtrId, force: bool): (r: Effect<Option<ObjId>>)
    requires Wf(t, ps, rank) && p in ps
    ensures Wf(r.t, r.ps, rank) && CachesFilled(ps, r.ps) && Extends(t, r.t)
    ensures forall x :: x in ps && !InChain(ps, rank, x, p) ==> r.ps[x] == ps[x]
    ensures r.ps[p].cache == r.value
    ensures ps[p].cache.Some? ==> r == Effect(t, ps, ps[p].cache)
    ensures !force ==> r.t == t
    ensures Layered(t) ==> Layered(r.t)
    decreases rank[p]
  {
    assert RecOk(t, ps, p);
    var rec := ps[p];
    if rec.cache.Some? then Effect(t, ps, rec.cache)
    else if rec.chained then
      var q := rec.root.parent;
      var up := Resolve(t, ps, rank, q, force);
      NotInOwnParentChain(ps, rank, p);
      if up.value.None? then Effect(up.t, up.ps, None)
      else
        var r := Settle(up.t, up.ps, rank, p, up.value.value, force);
        FilledTransitive(ps, up.ps, r.ps);
        ExtendsTransitive(t, up.t, r.t);
        OffChain(ps, rank, p);
        r
    else Settle(t, ps, rank, p, rec.root.obj, force)
  }

  lemma NotInOwnParentChain(ps: Table, rank: Ranks, p: PtrId)
    requires Ranked(ps, rank) && p in ps && ps[p].root.Chained?
    ensures !InChain(ps, rank, p, ps[p].root.parent)
  {
    if InChain(ps, rank, p, ps[p].root.parent) {
      InChainRank(ps, rank, p, ps[p].root.parent);
    }
  }

  lemma OffChain(ps: Table, rank: Ranks, p: PtrId)
    requires Ranked(ps, rank) && p in ps && ps[p].root.Chained?
    ensures forall x :: x in ps && !InChain(ps, rank, x, p) ==> x != p && !InChain(ps, rank, x, ps[p].root.parent)
  {
  }

  lemma FilledTransitive(ps1: Table, ps2: Table, ps3: Table)
    requires CachesFilled(ps1, ps2) && CachesFilled(ps2, ps3)
    ensures CachesFilled(ps1, ps3)
  {
    forall p | p in ps1 ensures SameBinding(ps1[p], ps3[p]) && ps3[p].listeners == ps1[p].listeners {
      assert SameBinding(ps2[p], ps3[p]);
    }
  }

  /** The location object of `p` computed from the store alone, ignoring
      every cache: the walk of the raw root along the locations of the whole
      chain. */
  ghost function Fresh(t: Tree, ps: Table, rank: Ranks, p: PtrId): (r: Option<ObjId>)
    requires Wf(t, ps, rank) && p in ps
    ensures r.Some? ==> r.value in t.objs
    decreases rank[p]
  {
    assert RecOk(t, ps, p);
    match ps[p].root
    case Raw(o) => AsObject(Walk(t, o, ps[p].loc))
    case Chained(q) =>
      var up := Fresh(t, ps, rank, q);
      if up.None? then None else AsObject(Walk(t, up.value, ps[p].loc))
  }

  /** Every cache on the chain of `p` that is set holds the cache-free
      resolution. */
  ghost predicate Current(t: Tree, ps: Table, rank: Ranks, p: PtrId)
    requires Wf(t, ps, rank) && p in ps
    decreases rank[p]
  {
    && (ps[p].cache.Some? ==> ps[p].cache == Fresh(t, ps, rank, p))
    && (ps[p].root.Chained? ==> Current(t, ps, rank, ps[p].root.parent))
  }

  /** With current caches, a non-forcing `getLocationObject` returns the
      cache-free resolution: `undefined` exactly when some level along the
      chain is missing or is not an object. */
  lemma {:induction false} ResolveCurrent(t: Tree, ps: Table, rank: Ranks, p: PtrId)
    requires Wf(t, ps, rank) && p in ps && Current(t, ps, rank, p)
    ensures Resolve(t, ps, rank, p, false).value == Fresh(t, ps, rank, p)
    decreases rank[p]
  {
    assert RecOk(t, ps, p);
    if ps[p].cache.None? {
      match ps[p].root
      case Raw(o) =>
        assert Resolve(t, ps, rank, p, false) == Settle(t, ps, rank, p, o, false);
      case Chained(q) =>
        var up := Resolve(t, ps, rank, q, false);
        ResolveCurrent(t, ps, rank, q);
        NotInOwnParentChain(ps, rank, p);
        assert up.ps[p] == ps[p];
        if up.value.Some? {
          assert Resolve(t, ps, rank, p, false) == Settle(up.t, up.ps, rank, p, up.value.value, false);
        }
    }
  }

  /** The cache-free resolution depends on roots and locations only, and a
      grown store keeps every resolution that was defined. */
  lemma {:induction false} FreshStable(t: Tree, ps: Table, t2: Tree, ps2: Table, rank: Ranks, p: PtrId)
    requires Wf(t, ps, rank) && Wf(t2, ps2, rank) && SameShape(ps, ps2) && Extends(t, t2) && p in ps
    requires Fresh(t, ps, rank, p).Some?
    ensures Fresh(t2, ps2, rank, p) == Fresh(t, ps, rank, p)
    decreases rank[p]
  {
    assert RecOk(t, ps, p);
    assert ps2[p].root == ps[p].root && ps2[p].loc == ps[p].loc;
    match ps[p].root
    case Raw(o) =>
      WalkExtends(t, t2, o, ps[p].loc);
    case Chained(q) =>
      FreshStable(t, ps, t2, ps2, rank, q);
      WalkExtends(t, t2, Fresh(t, ps, rank, q).value, ps[p].loc);
  }

  /** With current caches, a forcing `getLocationObject` that returns an
      object returns the object a later cache-free resolution finds: the
      missing levels now exist. */
  lemma {:induction false} ResolveForceCurrent(t: Tree, ps: Table, rank: Ranks, p: PtrId)
    requires Wf(t, ps, rank) && p in ps && Current(t, ps, rank, p)
    ensures var r := Resolve(t, ps, rank, p, true);
            r.value.Some? ==> Fresh(r.t, r.ps, rank, p) == r.value
    decreases rank[p]
  {
    assert RecOk(t, ps, p);
    var r := Resolve(t, ps, rank, p, true);
    if ps[p].cache.None? {
      match ps[p].root
      case Raw(o) =>
        ForceThenWalk(t, o, ps[p].loc);
      case Chained(q) =>
        var up := Resolve(t, ps, rank, q, true);
        ResolveForceCurrent(t, ps, rank, q);
        if up.value.Some? {
          ForceThenWalk(up.t, up.value.value, ps[p].loc);
          FreshStable(up.t, up.ps, r.t, r.ps, rank, q);
        }
    }
  }

  /** A forcing `getLocationObject` on a raw root whose location has no
      primitive in the way always yields an object. */
  lemma ResolveForceRaw(t: Tree, ps: Table, rank: Ranks, p: PtrId)
    requires Wf(t, ps, rank) && p in ps && ps[p].root.Raw? && ps[p].root.obj in t.objs
    requires ps[p].cache.None? && Open(t, ps[p].root.obj, ps[p].loc)
    ensures Resolve(t, ps, rank, p, true).value.Some?
  {
    assert RecOk(t, ps, p);
    ForceOpen(t, ps[p].root.obj, ps[p].loc);
  }

  /** The table with the cache of `x` reset (`this._pointerRoot = undefined`). */
  function Reset(ps: Table, x: PtrId): Table
    requires x in ps
  {
    ps[x := ps[x].(cache := None)]
  }

  lemma ResetOk(t: Tree, ps: Table, rank: Ranks, x: PtrId)
    requires Wf(t, ps, rank) && x in ps
    ensures Wf(t, Reset(ps, x), rank) && SameShape(ps, Reset(ps, x))
  {
    var ps2 := Reset(ps, x);
    ResetShape(ps, x);
    forall y | y in ps2 && ps2[y].cache.Some? ensures ps2[y].cache.value in t.objs {
      assert RecOk(t, ps, y);
    }
    ReshapeOk(t, t, ps, ps2, rank);
  }

  lemma ResetShape(ps: Table, x: PtrId)
    requires x in ps
    ensures SameShape(ps, Reset(ps, x))
    ensures forall y :: y in ps && Reset(ps, x)[y].cache.Some? ==> y != x && Reset(ps, x)[y] == ps[y]
  {
  }

  /** Chains depend on roots only. */
  lemma {:induction false} InChainShape(ps: Table, ps2: Table, rank: Ranks, a: PtrId, x: PtrId)
    requires Ranked(ps, rank) && Ranked(ps2, rank) && SameShape(ps, ps2) && x in ps
    ensures InChain(ps2, rank, a, x) == InChain(ps, rank, a, x)
    decreases rank[x]
  {
    assert ps2[x].root == ps[x].root;
    if a != x && ps[x].root.Chained? {
      InChainShape(ps, ps2, rank, a, ps[x].root.parent);
    }
  }

  /** `_refreshRoot`: reset the cache, then resolve without forcing. */
  function Refresh(t: Tree, ps: Table, rank: Ranks, x: PtrId): (r: Table)
    requires Wf(t, ps, rank) && x in ps
    ensures Wf(t, r, rank) && SameShape(ps, r)
    ensures forall y :: y in ps && y != x && ps[y].cache.Some? ==> r[y].cache == ps[y].cache
  {
    ResetOk(t, ps, rank, x);
    var r := Resolve(t, Reset(ps, x), rank, x, false);
    ShapeTransitive(ps, Reset(ps, x), r.ps);
    r.ps
  }

  lemma ShapeTransitive(ps1: Table, ps2: Table, ps3: Table)
    requires SameShape(ps1, ps2) && SameShape(ps2, ps3)
    ensures SameShape(ps1, ps3)
  {
    forall p | p in ps1 ensures SameBinding(ps1[p], ps3[p]) && ps3[p].listeners == ps1[p].listeners {
      assert SameBinding(ps2[p], ps3[p]);
    }
  }

  /** The emission of `'changed'`: every hook, in registration order, calls
      `_refreshRoot` on the pointer it is bound to. */
  function RefreshAll(t: Tree, ps: Table, rank: Ranks, hooks: seq<Hook>): (r: Table)
    requires Wf(t, ps, rank) && forall h :: h in hooks ==> h.owner in ps
    ensures Wf(t, r, rank) && SameShape(ps, r)
    decreases |hooks|
  {
    if hooks == [] then ps
    else
      var before := RefreshAll(t, ps, rank, hooks[..|hooks| - 1]);
      var r := Refresh(t, before, rank, hooks[|hooks| - 1].owner);
      ShapeTransitive(ps, before, r);
      r
  }

  /** `emit('changed')` on `p`. */
  function Emit(t: Tree, ps: Table, rank: Ranks, p: PtrId): (r: Table)
    requires Wf(t, ps, rank) && p in ps
    ensures Wf(t, r, rank) && SameShape(ps, r)
  {
    assert RecOk(t, ps, p);
    RefreshAll(t, ps, rank, ps[p].listeners)
  }

  /** A non-forcing `getLocationObject` repeated at once returns the same
      and changes nothing more: what the first call left uncached resolves
      to `undefined` again. */
  lemma {:induction false} ResolveIdempotent(t: Tree, ps: Table, rank: Ranks, p: PtrId)
    requires Wf(t, ps, rank) && p in ps
    ensures var r := Resolve(t, ps, rank, p, false);
            Resolve(t, r.ps, rank, p, false) == r
    decreases rank[p]
  {
    assert RecOk(t, ps, p);
    if ps[p].cache.None? && ps[p].root.Chained? {
      ResolveIdempotent(t, ps, rank, ps[p].root.parent);
      ResolveIdempotentStep(t, ps, rank, p);
    }
  }

  lemma ResolveIdempotentStep(t: Tree, ps: Table, rank: Ranks, p: PtrId)
    requires Wf(t, ps, rank) && p in ps && ps[p].cache.None? && ps[p].root.Chained?
    requires var up := Resolve(t, ps, rank, ps[p].root.parent, false);
             Resolve(t, up.ps, rank, ps[p].root.parent, false) == up
    ensures var r := Resolve(t, ps, rank, p, false);
            Resolve(t, r.ps, rank, p, false) == r
  {
    var r := Resolve(t, ps, rank, p, false);
    var up := Resolve(t, ps, rank, ps[p].root.parent, false);
    NotInOwnParentChain(ps, rank, p);
    if r.value.None? {
      assert r.ps == up.ps;
    }
  }

  /** The cache of `c` holds what one resolution step computes from the
      table as it is: the object at its location below its raw root, or
      below the set cache of its root pointer. */
  ghost predicate Pinned(t: Tree, ps: Table, rank: Ranks, c: PtrId)
    requires Wf(t, ps, rank) && c in ps
  {
    assert RecOk(t, ps, c);
    match ps[c].root
    case Raw(o) => ps[c].cache == AsObject(Walk(t, o, ps[c].loc))
    case Chained(q) =>
      assert RecOk(t, ps, q);
      ps[q].cache.Some? && ps[c].cache == AsObject(Walk(t, ps[q].cache.value, ps[c].loc))
  }

  /** A non-forcing resolution of any pointer leaves a pinned record alone:
      were it re-resolved, it would compute the very same cache. */
  lemma {:induction false} ResolveKeepsPinned(t: Tree, ps: Table, rank: Ranks, y: PtrId, c: PtrId)
    requires Wf(t, ps, rank) && y in ps && c in ps && Pinned(t, ps, rank, c)
    ensures Resolve(t, ps, rank, y, false).ps[c] == ps[c]
    decreases rank[y]
  {
    assert RecOk(t, ps, y);
    if ps[y].cache.None? && ps[y].root.Chained? {
      ResolveKeepsPinned(t, ps, rank, ps[y].root.parent, c);
      ResolveKeepsPinnedStep(t, ps, rank, y, c);
    }
  }

  lemma ResolveKeepsPinnedStep(t: Tree, ps: Table, rank: Ranks, y: PtrId, c: PtrId)
    requires Wf(t, ps, rank) && y in ps && c in ps && Pinned(t, ps, rank, c)
    requires ps[y].cache.None? && ps[y].root.Chained?
    requires Resolve(t, ps, rank, ps[y].root.parent, false).ps[c] == ps[c]
    ensures Resolve(t, ps, rank, y, false).ps[c] == ps[c]
  {
    var up := Resolve(t, ps, rank, ps[y].root.parent, false);
    NotInOwnParentChain(ps, rank, y);
  }

  /** `_refreshRoot` on `c` pins it, once its root pointer (if any) has a set
      cache. */
  lemma RefreshPins(t: Tree, ps: Table, rank: Ranks, c: PtrId)
    requires Wf(t, ps, rank) && c in ps
    requires ps[c].root.Chained? ==> ps[ps[c].root.parent].cache.Some?
    ensures Pinned(t, Refresh(t, ps, rank, c), rank, c)
  {
    assert RecOk(t, ps, c);
    ResetOk(t, ps, rank, c);
    var ps1 := Reset(ps, c);
    var r := Refresh(t, ps, rank, c);
    if ps[c].root.Chained? {
      var q := ps[c].root.parent;
      assert ps1[q] == ps[q];
      assert r[q].cache == ps[q].cache;
    }
  }

  /** `_refreshRoot` in general: the refreshed pointer ends pinned, unless its
      root pointer has no location object, in which case both are left
      uncached. */
  lemma RefreshPinsOrUnresolved(t: Tree, ps: Table, rank: Ranks, c: PtrId)
    requires Wf(t, ps, rank) && c in ps
    ensures var r := Refresh(t, ps, rank, c);
      || Pinned(t, r, rank, c)
      || (ps[c].root.Chained? && r[ps[c].root.parent].cache.None? && r[c].cache.None?)
  {
    if ps[c].root.Raw? || ps[ps[c].root.parent].cache.Some? {
      RefreshPins(t, ps, rank, c);
    } else {
      RefreshUncachedParent(t, ps, rank, c);
    }
  }

  lemma RefreshUncachedParent(t: Tree, ps: Table, rank: Ranks, c: PtrId)
    requires Wf(t, ps, rank) && c in ps && ps[c].root.Chained? && ps[ps[c].root.parent].cache.None?
    ensures var r := Refresh(t, ps, rank, c);
      Pinned(t, r, rank, c) || (r[ps[c].root.parent].cache.None? && r[c].cache.None?)
  {
    assert RecOk(t, ps, c);
    var q := ps[c].root.parent;
    ResetOk(t, ps, rank, c);
    var ps1 := Reset(ps, c);
    var up := Resolve(t, ps1, rank, q, false);
    NotInOwnParentChain(ps1, rank, c);
    assert up.ps[c] == ps1[c];
    if up.value.Some? {
      var st := Settle(up.t, up.ps, rank, c, up.value.value, false);
      assert Resolve(t, ps1, rank, c, false) == st;
    } else {
      assert Resolve(t, ps1, rank, c, false) == Effect(up.t, up.ps, None);
    }
  }

  /** `_refreshRoot` on another pointer than `c` or its root pointer keeps a
      pinned `c` pinned and unchanged. */
  lemma RefreshKeepsPinned(t: Tree, ps: Table, rank: Ranks, x: PtrId, c: PtrId)
    requires Wf(t, ps, rank) && x in ps && c in ps && x != c && Pinned(t, ps, rank, c)
    requires ps[c].root.Chained? ==> x != ps[c].root.parent
    ensures var r := Refresh(t, ps, rank, x); r[c] == ps[c] && Pinned(t, r, rank, c)
  {
    assert RecOk(t, ps, c);
    ResetOk(t, ps, rank, x);
    var ps1 := Reset(ps, x);
    assert ps1[c] == ps[c];
    if ps[c].root.Chained? {
      assert ps1[ps[c].root.parent] == ps[ps[c].root.parent];
    }
    ResolveKeepsPinned(t, ps1, rank, x, c);
  }

  /** Refreshing the owners of a list of hooks keeps every set cache of a
      pointer that owns none of them. */
  lemma {:induction false} RefreshAllKeepsSet(t: Tree, ps: Table, rank: Ranks, hooks: seq<Hook>, x: PtrId)
    requires Wf(t, ps, rank) && (forall h :: h in hooks ==> h.owner in ps)
    requires x in ps && ps[x].cache.Some? && forall h :: h in hooks ==> h.owner != x
    ensures RefreshAll(t, ps, rank, hooks)[x].cache == ps[x].cache
    decreases |hooks|
  {
    if hooks != [] {
      RefreshAllKeepsSet(t, ps, rank, hooks[..|hooks| - 1], x);
    }
  }

  lemma {:induction false} RefreshAllKeepsPinned(t: Tree, ps: Table, rank: Ranks, hooks: seq<Hook>, c: PtrId)
    requires Wf(t, ps, rank) && (forall h :: h in hooks ==> h.owner in ps)
    requires c in ps && Pinned(t, ps, rank, c)
    requires forall h :: h in hooks ==> h.owner != c && (ps[c].root.Chained? ==> h.owner != ps[c].root.parent)
    ensures var r := RefreshAll(t, ps, rank, hooks); r[c] == ps[c] && Pinned(t, r, rank, c)
    decreases |hooks|
  {
    if hooks != [] {
      var before := RefreshAll(t, ps, rank, hooks[..|hooks| - 1]);
      RefreshAllKeepsPinned(t, ps, rank, hooks[..|hooks| - 1], c);
      RefreshKeepsPinned(t, before, rank, hooks[|hooks| - 1].owner, c);
    }
  }

  /** The last hook of a list is refreshed after all the others. */
  lemma RefreshAllLast(t: Tree, ps: Table, rank: Ranks, hs: seq<Hook>)
    requires Wf(t, ps, rank) && (forall h :: h in hs ==> h.owner in ps) && hs != []
    ensures var before := RefreshAll(t, ps, rank, hs[..|hs| - 1]);
            hs[|hs| - 1].owner in before &&
            RefreshAll(t, ps, rank, hs) == Refresh(t, before, rank, hs[|hs| - 1].owner)
  {
  }

  lemma {:induction false} RefreshAllPins(t: Tree, ps: Table, rank: Ranks, hooks: seq<Hook>, p: PtrId, c: PtrId, h: Hook)
    requires Wf(t, ps, rank) && (forall g :: g in hooks ==> g.owner in ps && g.owner != p)
    requires c in ps && ps[c].root == Chained(p) && ps[p].cache.Some?
    requires h in hooks && h.owner == c
    ensures var r := RefreshAll(t, ps, rank, hooks); r[p].cache == ps[p].cache && Pinned(t, r, rank, c)
    decreases |hooks|
  {
    var last := hooks[|hooks| - 1];
    var pre := hooks[..|hooks| - 1];
    assert hooks == pre + [last];
    var before := RefreshAll(t, ps, rank, pre);
    RefreshAllKeepsSet(t, ps, rank, pre, p);
    RefreshAllKeepsSet(t, ps, rank, hooks, p);
    if last.owner == c {
      RefreshPins(t, before, rank, c);
    } else {
      assert h in pre;
      RefreshAllPins(t, ps, rank, pre, p, c, h);
      RefreshKeepsPinned(t, before, rank, last.owner, c);
    }
  }

  /** When `p` emits `'changed'` with its location object resolved, every
      pointer currently rooted on `p` ends up caching the object at its own
      location below that object (if there is one): the hook resets and
      re-resolves the child against the parent's new location object. */
  lemma EmitRefreshesChild(t: Tree, ps: Table, rank: Ranks, p: PtrId, c: PtrId)
    requires Wf(t, ps, rank) && p in ps && c in ps
    requires ps[c].root == Chained(p) && ps[p].cache.Some?
    ensures Emit(t, ps, rank, p)[c].cache == AsObject(Walk(t, ps[p].cache.value, ps[c].loc))
  {
    assert RecOk(t, ps, c);
    assert RecOk(t, ps, p);
    RefreshAllPins(t, ps, rank, ps[p].listeners, p, c, ps[c].hook.value);
  }

  /** An emission never touches a pinned record of a pointer that owns none
      of the emitter's hooks, nor whose root pointer does. */
  lemma EmitKeepsPinned(t: Tree, ps: Table, rank: Ranks, p: PtrId, c: PtrId)
    requires Wf(t, ps, rank) && p in ps && c in ps && Pinned(t, ps, rank, c)
    requires forall h :: h in ps[p].listeners ==> h.owner != c && (ps[c].root.Chained? ==> h.owner != ps[c].root.parent)
    ensures Emit(t, ps, rank, p)[c] == ps[c]
  {
    assert RecOk(t, ps, p);
    RefreshAllKeepsPinned(t, ps, rank, ps[p].listeners, c);
  }
}
