/**
  The public operations of `Pointer` as transitions of the whole state: the
  constructor, `setRoot`, `setLocation`, `create`, `set`, `get` and `clear`.
  Each gives the store and pointer table it leaves and what it returns or
  raises; an operation that raises half way leaves what was done before the
  throw.
 */
module Operations {
  import opened Values
  import opened Location
  import opened ObjectTree
  import opened PointerTable
  import opened Resolution

  /** A root argument: another pointer, or any value. */
  datatype RootArg = PtrArg(ptr: PtrId) | ValArg(v: Val)

  /** `obj instanceof Object`: pointers and plain objects. */
  predicate IsObjectArg(root: RootArg) {
    root.PtrArg? || root.v.Ref?
  }

  /** A pointer argument belongs to the table and does not have `p` on its own
      chain; a value argument belongs to the store.  Chaining `p` onto itself
      or onto a pointer below it closes a cycle of root pointers, on which
      `getLocationObject` of an uncached pointer and `getRoot` recurse
      without end (`p.setRoot(p)` already does so inside the call); such
      calls are outside the model. */
  ghost predicate RootArgOk(t: Tree, ps: Table, rank: Ranks, p: PtrId, root: RootArg)
    requires Ranked(ps, rank) && p in ps
  {
    match root
    case PtrArg(q) => q in ps && !InChain(ps, rank, p, q)
    case ValArg(v) => Closed(t, v)
  }

  /** The `_root` an object argument becomes. */
  function RootOf(root: RootArg): (r: Root)
    requires IsObjectArg(root)
    ensures r.Chained? <==> root.PtrArg?
    ensures r.Chained? ==> r.parent == root.ptr
    ensures r.Raw? ==> root.v == Ref(r.obj)
  {
    match root
    case PtrArg(q) => Chained(q)
    case ValArg(v) => Raw(v.id)
  }

  /** Ranks once `p` has its new root. */
  ghost function RankAfter(ps: Table, rank: Ranks, p: PtrId, root: Root): Ranks
    requires Ranked(ps, rank) && (root.Chained? ==> root.parent in ps)
  {
    if root.Chained? then Rerank(ps, rank, p, root.parent) else rank
  }

  lemma RebindWf(t: Tree, ps: Table, rank: Ranks, p: PtrId, root: Root, serial: nat)
    requires Wf(t, ps, rank) && p in ps
    requires root.Raw? ==> root.obj in t.objs
    requires root.Chained? ==> root.parent in ps && !InChain(ps, rank, p, root.parent)
    ensures root.Chained? ==> root.parent != p
    ensures Wf(t, Rebind(ps, p, root, serial), RankAfter(ps, rank, p, root))
    ensures Rebind(ps, p, root, serial)[p].listeners == ps[p].listeners
  {
    assert RecOk(t, ps, p);
    if ps[p].chained {
      assert ps[p].root.parent != p;
    }
    RebindRanked(ps, rank, p, root, serial);
    RebindOk(t, ps, rank, p, root, serial);
  }

  /** `this._loc = path`. */
  function Relocate(ps: Table, p: PtrId, path: seq<string>): (r: Table)
    requires p in ps
    ensures r.Keys == ps.Keys && r[p].loc == path
  {
    ps[p := ps[p].(loc := path)]
  }

  lemma RelocateSteady(ps: Table, p: PtrId, path: seq<string>)
    requires p in ps
    ensures Steady(ps, Relocate(ps, p, path), p)
  {
  }

  lemma RelocateOk(t: Tree, ps: Table, rank: Ranks, p: PtrId, path: seq<string>)
    requires Wf(t, ps, rank) && p in ps
    ensures Wf(t, Relocate(ps, p, path), rank)
  {
    var r := Relocate(ps, p, path);
    forall x | x in ps ensures r[x] == ps[x].(loc := r[x].loc) {
      if x == p {
        assert r[x] == ps[p].(loc := path);
      }
    }
    RelinkOk(t, ps, r, rank);
  }

  /** `setLocation(loc, suppress)`: store the path (a falsy specifier gives
      `[]`), refresh the cache, and emit `'changed'` unless suppressed.  A
      specifier `_parseLocation` refuses raises before anything changes. */
  function SetLocationSpec(t: Tree, ps: Table, rank: Ranks, p: PtrId, k: Key, suppress: bool): (r: Result<Table>)
    requires Wf(t, ps, rank) && p in ps
    ensures r.Err? <==> SetLocationPath(k).Err?
    ensures r.Err? ==> r.error == InvalidLocation
    ensures r.Ok? ==> Wf(t, r.value, rank) && SameShape(Relocate(ps, p, SetLocationPath(k).value), r.value)
  {
    match SetLocationPath(k)
    case Err(e) => Err(e)
    case Ok(path) =>
      RelocateOk(t, ps, rank, p, path);
      var ps1 := Refresh(t, Relocate(ps, p, path), rank, p);
      if suppress then Ok(ps1)
      else
        var ps2 := Emit(t, ps1, rank, p);
        ShapeTransitive(Relocate(ps, p, path), ps1, ps2);
        Ok(ps2)
  }

  /** `setRoot(obj, loc)`: refuse a non-object; hook onto a pointer root
      (after unhooking a previous pointer root) or clear the chained flag;
      store the root; then `AfterRoot`.  An unusable location raises after
      the root has been replaced. */
  ghost function SetRootSpec(t: Tree, ps: Table, rank: Ranks, p: PtrId, root: RootArg, k: Key, serial: nat): (r: Effect<Outcome>)
    requires Wf(t, ps, rank) && p in ps && RootArgOk(t, ps, rank, p, root)
    ensures r.t == t
    ensures !IsObjectArg(root) ==> r == Effect(t, ps, Fail(InvalidRoot))
    ensures IsObjectArg(root) ==>
              && r.value == (if SetLocationPath(k).Err? then Fail(InvalidLocation) else Pass)
              && Wf(t, r.ps, RankAfter(ps, rank, p, RootOf(root)))
              && r.ps.Keys == ps.Keys
              && r.ps[p].root == RootOf(root)
              && r.ps[p].chained == root.PtrArg?
              && Steady(ps, r.ps, p)
    ensures r.value.Pass? ==> p in r.ps && r.ps[p].loc == SetLocationPath(k).value
  {
    if !IsObjectArg(root) then Effect(t, ps, Fail(InvalidRoot))
    else
      var nr := RootOf(root);
      var rank1 := RankAfter(ps, rank, p, nr);
      assert RecOk(t, ps, p);
      RebindWf(t, ps, rank, p, nr, serial);
      RebindSteady(ps, p, nr, serial);
      var ps1 := Rebind(ps, p, nr, serial);
      var r := AfterRoot(t, ps1, rank1, p, k);
      SteadyTransitive(ps, ps1, r.ps, p);
      r
  }

  /** The rest of `setRoot` once the root is stored: `setLocation(loc,
      true)`, `_refreshRoot()` and `emit('changed')`. */
  function AfterRoot(t: Tree, ps: Table, rank: Ranks, p: PtrId, k: Key): (r: Effect<Outcome>)
    requires Wf(t, ps, rank) && p in ps
    ensures r.t == t && Wf(t, r.ps, rank) && r.ps.Keys == ps.Keys
    ensures r.value == (if SetLocationPath(k).Err? then Fail(InvalidLocation) else Pass)
    ensures r.value.Fail? ==> r.ps == ps
    ensures r.value.Pass? ==> SameShape(Relocate(ps, p, SetLocationPath(k).value), r.ps)
    ensures Steady(ps, r.ps, p) && r.ps[p].root == ps[p].root && r.ps[p].chained == ps[p].chained
  {
    match SetLocationSpec(t, ps, rank, p, k, true)
    case Err(e) => Effect(t, ps, Fail(e))
    case Ok(ps2) =>
      var ps3 := Refresh(t, ps2, rank, p);
      var ps4 := Emit(t, ps3, rank, p);
      ShapeTransitive(ps2, ps3, ps4);
      ShapeTransitive(Relocate(ps, p, SetLocationPath(k).value), ps2, ps4);
      RelocateSteady(ps, p, SetLocationPath(k).value);
      SteadyShape(ps, Relocate(ps, p, SetLocationPath(k).value), ps4, p);
      Effect(t, ps4, Pass)
  }

  /** A fresh instance as `setRoot` finds it: no hook, no listeners, not
      chained, nothing cached. Its root is a stand-in object that `setRoot`
      replaces before anything reads it. */
  function Placeholder(base: ObjId): PtrRec {
    PtrRec(Raw(base), [], None, false, None, [])
  }

  ghost predicate NewArgOk(t: Tree, ps: Table, root: RootArg) {
    match root
    case PtrArg(q) => q in ps
    case ValArg(v) => Closed(t, v)
  }

  /** No chain of the table reaches a pointer outside it. */
  lemma {:induction false} ChainAvoidsFresh(ps: Table, ps0: Table, rank0: Ranks, p: PtrId, x: PtrId)
    requires Ranked(ps0, rank0) && x in ps && p !in ps
    requires forall y :: y in ps ==> y in ps0 && ps0[y] == ps[y] && (ps[y].root.Chained? ==> ps[y].root.parent in ps)
    ensures !InChain(ps0, rank0, p, x)
    decreases rank0[x]
  {
    if ps[x].root.Chained? {
      ChainAvoidsFresh(ps, ps0, rank0, p, ps[x].root.parent);
    }
  }

  lemma PlaceholderOk(t: Tree, ps: Table, rank: Ranks, p: PtrId, base: ObjId, root: RootArg)
    requires Wf(t, ps, rank) && p !in ps && base in t.objs && NewArgOk(t, ps, root)
    ensures var ps0 := ps[p := Placeholder(base)];
            Wf(t, ps0, rank[p := 0]) && RootArgOk(t, ps0, rank[p := 0], p, root)
  {
    var ps0 := ps[p := Placeholder(base)];
    var rank0 := rank[p := 0];
    assert Ranked(ps0, rank0);
    forall x | x in ps0 ensures RecOk(t, ps0, x) {
      if x != p {
        assert RecOk(t, ps, x);
      }
    }
    if root.PtrArg? {
      ChainAvoidsFresh(ps, ps0, rank0, p, root.ptr);
    }
  }

  /** Ranks after construction: one above the root pointer, or 0. */
  ghost function NewRank(rank: Ranks, p: PtrId, root: RootArg): Ranks
    requires root.PtrArg? ==> root.ptr in rank
  {
    if root.PtrArg? then rank[p := rank[root.ptr] + 1] else rank[p := 0]
  }

  /** The constructor `new Pointer(root, loc)`: a fresh instance on which
      `setRoot(root, loc)` runs.  A primitive root raises before the instance
      is reachable; a refused location raises after it has been hooked. */
  ghost function NewPointerSpec(t: Tree, ps: Table, rank: Ranks, p: PtrId, root: RootArg, k: Key, serial: nat): (r: Effect<Outcome>)
    requires Wf(t, ps, rank) && p !in ps && NewArgOk(t, ps, root)
    ensures r.t == t
    ensures !IsObjectArg(root) ==> r == Effect(t, ps, Fail(InvalidRoot))
    ensures IsObjectArg(root) ==>
              && r.value == (if SetLocationPath(k).Err? then Fail(InvalidLocation) else Pass)
              && r.ps.Keys == ps.Keys + {p}
              && Wf(t, r.ps, NewRank(rank, p, root))
              && r.ps[p].root == RootOf(root)
              && r.ps[p].chained == root.PtrArg?
    ensures r.value.Pass? ==> p in r.ps && r.ps[p].loc == SetLocationPath(k).value
    ensures IsObjectArg(root) ==> Steady(ps, r.ps, p)
  {
    if !IsObjectArg(root) then Effect(t, ps, Fail(InvalidRoot))
    else
      var base := if root.PtrArg? then TopRoot(ps, rank, root.ptr) else root.v.id;
      TopRootStoredIf(t, ps, rank, root);
      var ps0 := ps[p := Placeholder(base)];
      PlaceholderOk(t, ps, rank, p, base, root);
      NewRankAgrees(ps, rank, p, base, root);
      assert ps0.Keys == ps.Keys + {p};
      var r := SetRootSpec(t, ps0, rank[p := 0], p, root, k, serial);
      SteadyExtend(ps, p, Placeholder(base), r.ps);
      r
  }

  lemma TopRootStoredIf(t: Tree, ps: Table, rank: Ranks, root: RootArg)
    requires Wf(t, ps, rank) && NewArgOk(t, ps, root)
    ensures root.PtrArg? ==> TopRoot(ps, rank, root.ptr) in t.objs
  {
    if root.PtrArg? {
      TopRootStored(t, ps, rank, root.ptr);
    }
  }

  lemma NewRankAgrees(ps: Table, rank: Ranks, p: PtrId, base: ObjId, root: RootArg)
    requires Ranked(ps, rank) && p !in ps && IsObjectArg(root) && (root.PtrArg? ==> root.ptr in ps)
    ensures Ranked(ps[p := Placeholder(base)], rank[p := 0])
    ensures RankAfter(ps[p := Placeholder(base)], rank[p := 0], p, RootOf(root)) == NewRank(rank, p, root)
  {
    var ps0 := ps[p := Placeholder(base)];
    var rank0 := rank[p := 0];
    assert Ranked(ps0, rank0);
    if root.PtrArg? {
      var r2 := Rerank(ps0, rank0, p, root.ptr);
      forall x | x in r2 ensures r2[x] == NewRank(rank, p, root)[x] {
        if x in ps {
          ChainAvoidsFresh(ps, ps0, rank0, p, x);
        }
      }
    }
  }

  /** `retrieveChild(this.getLocationObject(true), path, true)`: force the
      location object, then force the path below it.  With no location
      object (a primitive in the way) the result is `undefined`. */
  function CreateAt(t: Tree, ps: Table, rank: Ranks, p: PtrId, path: seq<string>): (r: Effect<Val>)
    requires Wf(t, ps, rank) && p in ps
    ensures Wf(r.t, r.ps, rank) && CachesFilled(ps, r.ps) && Extends(t, r.t) && Closed(r.t, r.value)
    ensures Layered(t) ==> Layered(r.t)
  {
    var b := Resolve(t, ps, rank, p, true);
    if b.value.None? then Effect(b.t, b.ps, Undefined)
    else
      var f := Force(b.t, b.value.value, path);
      ForceLayeredIf(b.t, b.value.value, path);
      ReshapeOk(b.t, f.t, b.ps, b.ps, rank);
      ExtendsTransitive(t, b.t, f.t);
      Effect(f.t, b.ps, f.v)
  }

  /** `create(loc)`. */
  function CreateSpec(t: Tree, ps: Table, rank: Ranks, p: PtrId, k: Key): (r: Effect<Result<Val>>)
    requires Wf(t, ps, rank) && p in ps
    ensures Wf(r.t, r.ps, rank) && CachesFilled(ps, r.ps) && Extends(t, r.t)
    ensures r.value.Err? <==> ParseLocation(k).Err?
    ensures r.value.Err? ==> r == Effect(t, ps, Err(InvalidLocation))
  {
    match ParseLocation(k)
    case Err(e) => Effect(t, ps, Err(e))
    case Ok(path) =>
      var c := CreateAt(t, ps, rank, p, path);
      Effect(c.t, c.ps, Ok(c.value))
  }

  /** Where `set` writes: the container `create` returns for the prefix of a
      longer path, or the forced location object for a single key. */
  function SetTarget(t: Tree, ps: Table, rank: Ranks, p: PtrId, path: seq<string>): (r: Effect<Val>)
    requires Wf(t, ps, rank) && p in ps && path != []
    ensures Wf(r.t, r.ps, rank) && CachesFilled(ps, r.ps) && Extends(t, r.t) && Closed(r.t, r.value)
  {
    if |path| > 1 then CreateAt(t, ps, rank, p, path[..|path| - 1])
    else
      var b := Resolve(t, ps, rank, p, true);
      Effect(b.t, b.ps, if b.value.Some? then Ref(b.value.value) else Undefined)
  }

  /** `set(loc, value)`: a path of one key writes into the forced location
      object; a longer path `create`s its prefix and writes the final key
      there; the empty path raises.  Writing into something that is not an
      object is a TypeError in strict mode, raised after the forcing. */
  function SetSpec(t: Tree, ps: Table, rank: Ranks, p: PtrId, k: Key, v: Val): (r: Effect<Outcome>)
    requires Wf(t, ps, rank) && p in ps && Closed(t, v)
    ensures Wf(r.t, r.ps, rank) && CachesFilled(ps, r.ps)
    ensures ParseLocation(k).Err? ==> r == Effect(t, ps, Fail(InvalidLocation))
    ensures ParseLocation(k) == Ok([]) ==> r == Effect(t, ps, Fail(EmptyLocation))
    ensures r.value.Fail? && ParseLocation(k).Ok? && ParseLocation(k).value != [] ==>
              r.value.error == PropertyOfNonObject && Extends(t, r.t)
  {
    match ParseLocation(k)
    case Err(e) => Effect(t, ps, Fail(e))
    case Ok(path) =>
      if path == [] then Effect(t, ps, Fail(EmptyLocation))
      else
        var c := SetTarget(t, ps, rank, p, path);
        if c.value.Ref? then
          var t2 := Assign(c.t, c.value.id, path[|path| - 1], v);
          ReshapeOk(c.t, t2, c.ps, c.ps, rank);
          Effect(t2, c.ps, Pass)
        else Effect(c.t, c.ps, Fail(PropertyOfNonObject))
  }

  /** A `set` past the parsing: the assignment into an object container,
      otherwise a TypeError once the container has been computed. */
  lemma SetUnfold(t: Tree, ps: Table, rank: Ranks, p: PtrId, k: Key, v: Val)
    requires Wf(t, ps, rank) && p in ps && Closed(t, v)
    requires ParseLocation(k).Ok? && ParseLocation(k).value != []
    ensures var path := ParseLocation(k).value;
            var c := SetTarget(t, ps, rank, p, path);
            && (c.value.Ref? ==> (c.value.id in c.t.objs && Closed(c.t, v) &&
                 SetSpec(t, ps, rank, p, k, v) == Effect(Assign(c.t, c.value.id, path[|path| - 1], v), c.ps, Pass)))
            && (!c.value.Ref? ==> SetSpec(t, ps, rank, p, k, v) == Effect(c.t, c.ps, Fail(PropertyOfNonObject)))
  {
  }

  /** `get(loc, defaultValue)`: without a location object the default;
      otherwise the lookup below it.  Only caches change. */
  function GetSpec(t: Tree, ps: Table, rank: Ranks, p: PtrId, k: Key, default: Val): (r: Effect<Result<Val>>)
    requires Wf(t, ps, rank) && p in ps
    ensures r.t == t && Wf(t, r.ps, rank) && CachesFilled(ps, r.ps)
    ensures r.value.Err? <==> ParseLocation(k).Err?
    ensures r.value.Err? ==> r == Effect(t, ps, Err(InvalidLocation))
  {
    match ParseLocation(k)
    case Err(e) => Effect(t, ps, Err(e))
    case Ok(path) =>
      var b := Resolve(t, ps, rank, p, false);
      if b.value.None? then Effect(t, b.ps, Ok(default))
      else Effect(t, b.ps, Ok(Lookup(t, b.value.value, path, default)))
  }

  /** `clear(loc)`: a specifier `_parseLocation` refuses raises; otherwise
      `ClearPath` on the normalised path. */
  function ClearSpec(t: Tree, ps: Table, rank: Ranks, p: PtrId, k: Key): (r: Effect<Outcome>)
    requires Wf(t, ps, rank) && p in ps
    ensures Wf(r.t, r.ps, rank) && CachesFilled(ps, r.ps) && r.t.objs.Keys == t.objs.Keys
    ensures ParseLocation(k).Err? ==> r == Effect(t, ps, Fail(InvalidLocation))
    ensures ParseLocation(k) == Ok([]) ==> r == Effect(t, ps, Fail(EmptyClear))
    ensures ParseLocation(k).Ok? && ParseLocation(k).value != [] ==> r.value == Pass
  {
    match ParseLocation(k)
    case Err(e) => Effect(t, ps, Fail(e))
    case Ok(path) => ClearPath(t, ps, rank, p, path)
  }

  /** `clear` of a normalised path: the empty path raises; otherwise the
      delete-and-prune recursion below the location object, which the first
      non-forcing resolution has cached for every recursive call. */
  function ClearPath(t: Tree, ps: Table, rank: Ranks, p: PtrId, path: seq<string>): (r: Effect<Outcome>)
    requires Wf(t, ps, rank) && p in ps
    ensures Wf(r.t, r.ps, rank) && CachesFilled(ps, r.ps) && r.t.objs.Keys == t.objs.Keys
    ensures path == [] ==> r == Effect(t, ps, Fail(EmptyClear))
    ensures path != [] ==> r.value == Pass
  {
    if path == [] then Effect(t, ps, Fail(EmptyClear))
    else
      var b := Resolve(t, ps, rank, p, false);
      if b.value.None? then Effect(t, b.ps, Pass)
      else
        var t2 := Prune(t, b.value.value, path);
        ReshapeOk(t, t2, b.ps, b.ps, rank);
        Effect(t2, b.ps, Pass)
  }
}
