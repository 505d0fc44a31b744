/**
  What the operations promise across calls: `set` then `get`, `create` then
  `get`, `clear` then `get`, `get` against the cache-free resolution, and
  what `setLocation` and `setRoot` leave in the caches, hooks and roots.
 */
module Properties {
  import opened Values
  import opened Location
  import opened ObjectTree
  import opened PointerTable
  import opened Resolution
  import opened Operations

  /** After a successful `set(loc, v)` in a layered store, `get(loc, d)`
      returns `v` (or `d`, when `v` is `undefined`). */
  lemma SetThenGet(t: Tree, ps: Table, rank: Ranks, p: PtrId, k: Key, v: Val, d: Val)
    requires Wf(t, ps, rank) && p in ps && Closed(t, v) && Layered(t)
    requires ParseLocation(k).Ok? && ParseLocation(k).value != []
    requires SetSpec(t, ps, rank, p, k, v).value == Pass
    ensures var s := SetSpec(t, ps, rank, p, k, v);
            GetSpec(s.t, s.ps, rank, p, k, d).value == Ok(if v == Undefined then d else v)
  {
    if |ParseLocation(k).value| > 1 {
      SetThenGetDeep(t, ps, rank, p, k, v, d);
    } else {
      SetThenGetOne(t, ps, rank, p, k, v, d);
    }
  }

  lemma SetThenGetOne(t: Tree, ps: Table, rank: Ranks, p: PtrId, k: Key, v: Val, d: Val)
    requires Wf(t, ps, rank) && p in ps && Closed(t, v) && Layered(t)
    requires ParseLocation(k).Ok? && |ParseLocation(k).value| == 1
    requires SetSpec(t, ps, rank, p, k, v).value == Pass
    ensures var s := SetSpec(t, ps, rank, p, k, v);
            GetSpec(s.t, s.ps, rank, p, k, d).value == Ok(if v == Undefined then d else v)
  {
    var b := Resolve(t, ps, rank, p, true);
    var s := SetSpec(t, ps, rank, p, k, v);
    SetOneLookup(t, ps, rank, p, k, v, d);
    SetOneKeepsBase(t, ps, rank, p, k, v);
    GetThroughCache(s.t, s.ps, rank, p, k, d, b.value.value);
  }

  /** After a one-key `set`, looking the key up below the object it wrote
      into finds the value written (`undefined` reads as the default). */
  lemma SetOneLookup(t: Tree, ps: Table, rank: Ranks, p: PtrId, k: Key, v: Val, d: Val)
    requires Wf(t, ps, rank) && p in ps && Closed(t, v) && Layered(t)
    requires ParseLocation(k).Ok? && |ParseLocation(k).value| == 1
    requires SetSpec(t, ps, rank, p, k, v).value == Pass
    ensures var b := Resolve(t, ps, rank, p, true);
            && b.value.Some?
            && Lookup(SetSpec(t, ps, rank, p, k, v).t, b.value.value, ParseLocation(k).value, d) ==
                 if v == Undefined then d else v
  {
    var key := ParseLocation(k).value[0];
    var b := Resolve(t, ps, rank, p, true);
    SetOneUnfold(t, ps, rank, p, k, v);
    var base := b.value.value;
    assert Walk(b.t, base, []) == Ref(base);
    assert [] + [key] == ParseLocation(k).value;
    AssignThenLookup(b.t, base, [], key, v, d);
  }

  /** `get(loc, default)` on a pointer that resolves, unchanged, to `base`
      is the lookup of the normalised path below `base`. */
  lemma GetThroughCache(t: Tree, ps: Table, rank: Ranks, p: PtrId, k: Key, d: Val, base: ObjId)
    requires Wf(t, ps, rank) && p in ps && ParseLocation(k).Ok?
    requires Resolve(t, ps, rank, p, false) == Effect(t, ps, Some(base))
    ensures GetSpec(t, ps, rank, p, k, d).value == Ok(Lookup(t, base, ParseLocation(k).value, d))
  {
  }

  /** After a one-key `set`, the location object it wrote into is still the
      pointer's cache. */
  lemma SetOneKeepsBase(t: Tree, ps: Table, rank: Ranks, p: PtrId, k: Key, v: Val)
    requires Wf(t, ps, rank) && p in ps && Closed(t, v)
    requires ParseLocation(k).Ok? && |ParseLocation(k).value| == 1
    requires SetSpec(t, ps, rank, p, k, v).value == Pass
    ensures var b := Resolve(t, ps, rank, p, true);
            var s := SetSpec(t, ps, rank, p, k, v);
            && b.value.Some?
            && Resolve(s.t, s.ps, rank, p, false) == Effect(s.t, s.ps, b.value)
  {
    SetOneUnfold(t, ps, rank, p, k, v);
    var b := Resolve(t, ps, rank, p, true);
    var s := SetSpec(t, ps, rank, p, k, v);
    assert s.ps == b.ps && s.ps[p].cache == b.value;
  }

  /** A successful `set` of one key writes into the forced location object. */
  lemma SetOneUnfold(t: Tree, ps: Table, rank: Ranks, p: PtrId, k: Key, v: Val)
    requires Wf(t, ps, rank) && p in ps && Closed(t, v)
    requires ParseLocation(k).Ok? && |ParseLocation(k).value| == 1
    requires SetSpec(t, ps, rank, p, k, v).value == Pass
    ensures var b := Resolve(t, ps, rank, p, true);
            && b.value.Some? && b.value.value in b.t.objs && Closed(b.t, v)
            && SetSpec(t, ps, rank, p, k, v) ==
                 Effect(Assign(b.t, b.value.value, ParseLocation(k).value[0], v), b.ps, Pass)
  {
    var b := Resolve(t, ps, rank, p, true);
    assert RecOk(b.t, b.ps, p);
  }

  lemma SetThenGetDeep(t: Tree, ps: Table, rank: Ranks, p: PtrId, k: Key, v: Val, d: Val)
    requires Wf(t, ps, rank) && p in ps && Closed(t, v) && Layered(t)
    requires ParseLocation(k).Ok? && |ParseLocation(k).value| > 1
    requires SetSpec(t, ps, rank, p, k, v).value == Pass
    ensures var s := SetSpec(t, ps, rank, p, k, v);
            GetSpec(s.t, s.ps, rank, p, k, d).value == Ok(if v == Undefined then d else v)
  {
    var path := ParseLocation(k).value;
    var key := path[|path| - 1];
    var prefix := path[..|path| - 1];
    SplitLast(path);
    var b := Resolve(t, ps, rank, p, true);
    assert b.value.Some?;
    var base := b.value.value;
    var f := Force(b.t, base, prefix);
    ForceLayered(b.t, base, prefix);
    ForceThenWalk(b.t, base, prefix);
    AssignThenLookup(f.t, base, prefix, key, v, d);
    var s := SetSpec(t, ps, rank, p, k, v);
    assert s.t == Assign(f.t, f.v.id, key, v);
    assert Resolve(s.t, s.ps, rank, p, false) == Effect(s.t, s.ps, Some(base));
  }

  /** A successful `set(loc, v)` stores `v` under the final key of the
      container `create` finds for the prefix, and every other defined entry
      of the store keeps its value: forcing the prefix only fills in
      `undefined` levels. */
  lemma SetFrame(t: Tree, ps: Table, rank: Ranks, p: PtrId, k: Key, v: Val)
    requires Wf(t, ps, rank) && p in ps && Closed(t, v)
    requires ParseLocation(k).Ok? && ParseLocation(k).value != []
    requires SetSpec(t, ps, rank, p, k, v).value == Pass
    ensures var path := ParseLocation(k).value;
            var key := path[|path| - 1];
            var c := SetTarget(t, ps, rank, p, path);
            var s := SetSpec(t, ps, rank, p, k, v);
            && c.value.Ref? && c.value.id in s.t.objs && Read(s.t, c.value.id, key) == v
            && forall o, j :: o in t.objs && j in t.objs[o] && t.objs[o][j] != Undefined && (o != c.value.id || j != key) ==>
                 o in s.t.objs && Read(s.t, o, j) == t.objs[o][j]
  {
    var path := ParseLocation(k).value;
    var key := path[|path| - 1];
    var c := SetTarget(t, ps, rank, p, path);
    var s := SetSpec(t, ps, rank, p, k, v);
    assert s.t == Assign(c.t, c.value.id, key, v);
    forall o, j | o in t.objs && j in t.objs[o] && t.objs[o][j] != Undefined && (o != c.value.id || j != key)
      ensures o in s.t.objs && Read(s.t, o, j) == t.objs[o][j]
    {
      assert Read(c.t, o, j) == t.objs[o][j];
    }
  }

  /** After `create(loc)` has returned something, `get(loc, d)` returns the
      same: every missing level now exists. */
  lemma CreateThenGet(t: Tree, ps: Table, rank: Ranks, p: PtrId, k: Key, d: Val)
    requires Wf(t, ps, rank) && p in ps && ParseLocation(k).Ok?
    requires CreateSpec(t, ps, rank, p, k).value != Ok(Undefined)
    ensures var c := CreateSpec(t, ps, rank, p, k);
            GetSpec(c.t, c.ps, rank, p, k, d).value == c.value
  {
    var path := ParseLocation(k).value;
    var b := Resolve(t, ps, rank, p, true);
    assert b.value.Some?;
    var f := Force(b.t, b.value.value, path);
    ForceThenWalk(b.t, b.value.value, path);
    assert Resolve(f.t, b.ps, rank, p, false) == Effect(f.t, b.ps, b.value);
    LookupIsWalk(f.t, b.value.value, path, d);
  }

  /** No primitive stands between the pointer and `path` below its location:
      below the cached location object, or, uncached on a raw root, along
      the pointer's own location followed by `path`. */
  ghost predicate OpenBelow(t: Tree, ps: Table, rank: Ranks, p: PtrId, path: seq<string>)
    requires Wf(t, ps, rank) && p in ps
  {
    assert RecOk(t, ps, p);
    if ps[p].cache.Some? then Open(t, ps[p].cache.value, path)
    else ps[p].root.Raw? && Open(t, ps[p].root.obj, ps[p].loc + path)
  }

  /** `create(loc)` returns an object whenever no primitive is in the way:
      every missing level is created as `{}`. */
  lemma CreateOpenObject(t: Tree, ps: Table, rank: Ranks, p: PtrId, k: Key)
    requires Wf(t, ps, rank) && p in ps && ParseLocation(k).Ok?
    requires OpenBelow(t, ps, rank, p, ParseLocation(k).value)
    ensures var c := CreateSpec(t, ps, rank, p, k); c.value.Ok? && c.value.value.Ref?
  {
    assert RecOk(t, ps, p);
    var path := ParseLocation(k).value;
    var b := Resolve(t, ps, rank, p, true);
    if ps[p].cache.Some? {
      ForceOpen(t, ps[p].cache.value, path);
    } else {
      var o := ps[p].root.obj;
      ForceOpenSplit(t, o, ps[p].loc, path);
      var f := Force(t, o, ps[p].loc);
      assert b == Settle(t, ps, rank, p, o, true);
      assert b.t == f.t && b.value == Some(f.v.id);
      ForceOpen(f.t, f.v.id, path);
    }
  }

  /** The store of a `create` scenario: one empty object. */
  function EmptyFixture(): (t: Tree)
    ensures Valid(t) && Layered(t)
  {
    Tree(map[0 := map[]], 1)
  }

  /** `new Pointer({}, ['test']).create(['location'])` returns a new empty
      object and leaves the store as `{test: {location: {}}}`. */
  lemma CreateScenario(ps: Table, rank: Ranks, p: PtrId)
    requires Wf(EmptyFixture(), ps, rank) && p in ps
    requires ps[p].root == Raw(0) && ps[p].loc == ["test"] && ps[p].cache.None?
    ensures var c := CreateSpec(EmptyFixture(), ps, rank, p, Keys(["location"]));
            && c.value == Ok(Ref(2))
            && c.t.objs == map[0 := map["test" := Ref(1)], 1 := map["location" := Ref(2)], 2 := map[]]
  {
    var t1 := Tree(map[0 := map["test" := Ref(1)], 1 := map[]], 2);
    CreateScenarioBase(ps, rank, p);
    assert ParseLocation(Keys(["location"])) == Ok(["location"]);
    CreateScenarioLeaf();
  }

  /** The second level of the `create` scenario: `location` is added below
      `test` as a new empty object. */
  lemma CreateScenarioLeaf()
    ensures var t1 := Tree(map[0 := map["test" := Ref(1)], 1 := map[]], 2);
            Valid(t1) && 1 in t1.objs &&
            Force(t1, 1, ["location"]) ==
              Forced(Tree(map[0 := map["test" := Ref(1)], 1 := map["location" := Ref(2)], 2 := map[]], 3), Ref(2))
  {
    var t1 := Tree(map[0 := map["test" := Ref(1)], 1 := map[]], 2);
    var t2 := Tree(map[0 := map["test" := Ref(1)], 1 := map["location" := Ref(2)], 2 := map[]], 3);
    assert Valid(t1) by {
      assert Grow(EmptyFixture(), 0, "test") == t1;
    }
    assert Grow(t1, 1, "location") == t2;
  }

  /** The forced location object of the `create` scenario: `test` is added
      to the root as a new empty object. */
  lemma CreateScenarioBase(ps: Table, rank: Ranks, p: PtrId)
    requires Wf(EmptyFixture(), ps, rank) && p in ps
    requires ps[p].root == Raw(0) && ps[p].loc == ["test"] && ps[p].cache.None?
    ensures var b := Resolve(EmptyFixture(), ps, rank, p, true);
            b.t == Tree(map[0 := map["test" := Ref(1)], 1 := map[]], 2) && b.value == Some(1)
  {
    var t := EmptyFixture();
    assert RecOk(t, ps, p);
    var t1 := Tree(map[0 := map["test" := Ref(1)], 1 := map[]], 2);
    assert Grow(t, 0, "test") == t1;
    assert Force(t, 0, ["test"]) == Forced(t1, Ref(1));
    assert Resolve(t, ps, rank, p, true) == Settle(t, ps, rank, p, 0, true);
  }

  /** `new Pointer({}, ['test']).set('test', 'testValue')` leaves the store
      as `{test: {test: 'testValue'}}`. */
  lemma SetScenario(ps: Table, rank: Ranks, p: PtrId)
    requires Wf(EmptyFixture(), ps, rank) && p in ps
    requires ps[p].root == Raw(0) && ps[p].loc == ["test"] && ps[p].cache.None?
    ensures var s := SetSpec(EmptyFixture(), ps, rank, p, Scalar(Prim(Str("test"))), Prim(Str("testValue")));
            && s.value == Pass
            && s.t.objs == map[0 := map["test" := Ref(1)], 1 := map["test" := Prim(Str("testValue"))]]
  {
    SetScenarioSteps(ps, rank, p);
    AssignScenario();
  }

  lemma SetScenarioSteps(ps: Table, rank: Ranks, p: PtrId)
    requires Wf(EmptyFixture(), ps, rank) && p in ps
    requires ps[p].root == Raw(0) && ps[p].loc == ["test"] && ps[p].cache.None?
    ensures var t1 := Tree(map[0 := map["test" := Ref(1)], 1 := map[]], 2);
            && Valid(t1) && 1 in t1.objs && Closed(t1, Prim(Str("testValue")))
            && SetSpec(EmptyFixture(), ps, rank, p, Scalar(Prim(Str("test"))), Prim(Str("testValue"))).value == Pass
            && SetSpec(EmptyFixture(), ps, rank, p, Scalar(Prim(Str("test"))), Prim(Str("testValue"))).t
                 == Assign(t1, 1, "test", Prim(Str("testValue")))
  {
    var t1 := Tree(map[0 := map["test" := Ref(1)], 1 := map[]], 2);
    var k := Scalar(Prim(Str("test")));
    var v := Prim(Str("testValue"));
    CreateScenarioBase(ps, rank, p);
    var c := SetTarget(EmptyFixture(), ps, rank, p, ["test"]);
    assert c.t == t1 && c.value == Ref(1);
    assert ParseLocation(k) == Ok(["test"]);
    SetUnfold(EmptyFixture(), ps, rank, p, k, v);
  }

  /** An assignment into an object of a store, spelt out on maps. */
  lemma AssignScenario()
    ensures Assign(Tree(map[0 := map["test" := Ref(1)], 1 := map[]], 2), 1, "test", Prim(Str("testValue"))).objs ==
              map[0 := map["test" := Ref(1)], 1 := map["test" := Prim(Str("testValue"))]]
  {
    SetScenarioLeaf();
  }

  /** `new Pointer({}, ['test']).set(['test', 'nested'], 'testValue')` leaves
      the store as `{test: {test: {nested: 'testValue'}}}`. */
  lemma SetNestedScenario(ps: Table, rank: Ranks, p: PtrId)
    requires Wf(EmptyFixture(), ps, rank) && p in ps
    requires ps[p].root == Raw(0) && ps[p].loc == ["test"] && ps[p].cache.None?
    ensures var s := SetSpec(EmptyFixture(), ps, rank, p, Keys(["test", "nested"]), Prim(Str("testValue")));
            && s.value == Pass
            && s.t.objs == map[0 := map["test" := Ref(1)], 1 := map["test" := Ref(2)],
                               2 := map["nested" := Prim(Str("testValue"))]]
  {
    SetNestedScenarioSteps(ps, rank, p);
    AssignNestedFixture();
  }

  lemma AssignNestedFixture()
    ensures var t2 := Tree(map[0 := map["test" := Ref(1)], 1 := map["test" := Ref(2)], 2 := map[]], 3);
            && Valid(t2) && 2 in t2.objs && Closed(t2, Prim(Str("testValue")))
            && Assign(t2, 2, "nested", Prim(Str("testValue"))).objs ==
                 map[0 := map["test" := Ref(1)], 1 := map["test" := Ref(2)], 2 := map["nested" := Prim(Str("testValue"))]]
  {
    SetScenarioLeaf();
  }

  lemma SetNestedScenarioSteps(ps: Table, rank: Ranks, p: PtrId)
    requires Wf(EmptyFixture(), ps, rank) && p in ps
    requires ps[p].root == Raw(0) && ps[p].loc == ["test"] && ps[p].cache.None?
    ensures var t2 := Tree(map[0 := map["test" := Ref(1)], 1 := map["test" := Ref(2)], 2 := map[]], 3);
            && Valid(t2) && 2 in t2.objs && Closed(t2, Prim(Str("testValue")))
            && SetSpec(EmptyFixture(), ps, rank, p, Keys(["test", "nested"]), Prim(Str("testValue"))).value == Pass
            && SetSpec(EmptyFixture(), ps, rank, p, Keys(["test", "nested"]), Prim(Str("testValue"))).t
                 == Assign(t2, 2, "nested", Prim(Str("testValue")))
  {
    var t1 := Tree(map[0 := map["test" := Ref(1)], 1 := map[]], 2);
    var t2 := Tree(map[0 := map["test" := Ref(1)], 1 := map["test" := Ref(2)], 2 := map[]], 3);
    var path := ["test", "nested"];
    var v := Prim(Str("testValue"));
    assert ParseLocation(Keys(path)) == Ok(path);
    SetNestedTarget(ps, rank, p);
    SetUnfold(EmptyFixture(), ps, rank, p, Keys(path), v);
  }

  lemma SetNestedTarget(ps: Table, rank: Ranks, p: PtrId)
    requires Wf(EmptyFixture(), ps, rank) && p in ps
    requires ps[p].root == Raw(0) && ps[p].loc == ["test"] && ps[p].cache.None?
    ensures var c := SetTarget(EmptyFixture(), ps, rank, p, ["test", "nested"]);
            c.t == Tree(map[0 := map["test" := Ref(1)], 1 := map["test" := Ref(2)], 2 := map[]], 3) && c.value == Ref(2)
  {
    var path := ["test", "nested"];
    SetTargetPrefix(EmptyFixture(), ps, rank, p, path);
    assert path[..|path| - 1] == ["test"];
    SetNestedCreate(ps, rank, p);
  }

  /** For two keys or more, the target of `set` is the `create` of the prefix. */
  lemma SetTargetPrefix(t: Tree, ps: Table, rank: Ranks, p: PtrId, path: seq<string>)
    requires Wf(t, ps, rank) && p in ps && |path| > 1
    ensures SetTarget(t, ps, rank, p, path) == CreateAt(t, ps, rank, p, path[..|path| - 1])
  {
  }

  /** The `create` inside the nested `set` scenario: it forces `test` below
      the location object. */
  lemma SetNestedCreate(ps: Table, rank: Ranks, p: PtrId)
    requires Wf(EmptyFixture(), ps, rank) && p in ps
    requires ps[p].root == Raw(0) && ps[p].loc == ["test"] && ps[p].cache.None?
    ensures var c := CreateAt(EmptyFixture(), ps, rank, p, ["test"]);
            c.t == Tree(map[0 := map["test" := Ref(1)], 1 := map["test" := Ref(2)], 2 := map[]], 3) && c.value == Ref(2)
  {
    CreateScenarioBase(ps, rank, p);
    SetScenarioLeaf();
    var b := Resolve(EmptyFixture(), ps, rank, p, true);
    var f := Force(b.t, 1, ["test"]);
    assert CreateAt(EmptyFixture(), ps, rank, p, ["test"]) == Effect(f.t, b.ps, f.v);
  }

  /** The second level of the nested `set` scenario: `test` is added below
      the location object as a new empty object. */
  lemma SetScenarioLeaf()
    ensures var t1 := Tree(map[0 := map["test" := Ref(1)], 1 := map[]], 2);
            Valid(t1) && 1 in t1.objs &&
            Force(t1, 1, ["test"]) ==
              Forced(Tree(map[0 := map["test" := Ref(1)], 1 := map["test" := Ref(2)], 2 := map[]], 3), Ref(2))
  {
    var t1 := Tree(map[0 := map["test" := Ref(1)], 1 := map[]], 2);
    var t2 := Tree(map[0 := map["test" := Ref(1)], 1 := map["test" := Ref(2)], 2 := map[]], 3);
    assert Valid(t1) by {
      assert Grow(EmptyFixture(), 0, "test") == t1;
    }
    assert Grow(t1, 1, "test") == t2;
  }

  /** With current caches, `get(loc, d)` is the cache-free walk with a
      default: `d` when there is no location object or nothing but
      `undefined` at the path, and otherwise whatever is stored there,
      `null`, `false` and `0` included; the empty path gives the location
      object itself. */
  lemma GetCurrent(t: Tree, ps: Table, rank: Ranks, p: PtrId, k: Key, d: Val)
    requires Wf(t, ps, rank) && p in ps && Current(t, ps, rank, p) && ParseLocation(k).Ok?
    ensures var f := Fresh(t, ps, rank, p);
            GetSpec(t, ps, rank, p, k, d).value ==
              Ok(if f.None? then d
                 else var w := Walk(t, f.value, ParseLocation(k).value);
                      if w == Undefined then d else w)
  {
    ResolveCurrent(t, ps, rank, p);
    var f := Fresh(t, ps, rank, p);
    if f.Some? {
      LookupIsWalk(t, f.value, ParseLocation(k).value, d);
    }
  }

  /** `clear(loc)` removes exactly truthy values: afterwards `get(loc, d)`
      gives `d` where it gave something truthy, and what it gave before
      otherwise. */
  lemma ClearThenGet(t: Tree, ps: Table, rank: Ranks, p: PtrId, k: Key, d: Val)
    requires Wf(t, ps, rank) && p in ps
    requires ParseLocation(k).Ok? && ParseLocation(k).value != []
    ensures var c := ClearSpec(t, ps, rank, p, k);
            var before := GetSpec(t, ps, rank, p, k, d).value.value;
            GetSpec(c.t, c.ps, rank, p, k, d).value == Ok(if Truthy(before) then d else before)
  {
    var path := ParseLocation(k).value;
    var b := Resolve(t, ps, rank, p, false);
    ResolveIdempotent(t, ps, rank, p);
    ClearPrunes(t, ps, rank, p, k);
    if b.value.Some? {
      var base := b.value.value;
      var t2 := Prune(t, base, path);
      LookupIsWalk(t, base, path, d);
      LookupIsWalk(t2, base, path, d);
      GetCached(t2, b.ps, rank, p, k, d);
      if Truthy(Walk(t, base, path)) {
        PruneRemoves(t, base, path);
      } else {
        PruneFalsy(t, base, path);
      }
    }
  }

  /** `clear` of a non-empty path prunes below the location object that a
      non-forcing resolution finds, and leaves the tree alone without one. */
  lemma ClearPrunes(t: Tree, ps: Table, rank: Ranks, p: PtrId, k: Key)
    requires Wf(t, ps, rank) && p in ps
    requires ParseLocation(k).Ok? && ParseLocation(k).value != []
    ensures var b := Resolve(t, ps, rank, p, false);
            && b.t == t
            && ClearSpec(t, ps, rank, p, k) ==
                 if b.value.None? then Effect(t, b.ps, Pass)
                 else Effect(Prune(t, b.value.value, ParseLocation(k).value), b.ps, Pass)
  {
  }

  /** With the location object cached, `get` looks up below it. */
  lemma GetCached(t: Tree, ps: Table, rank: Ranks, p: PtrId, k: Key, d: Val)
    requires Wf(t, ps, rank) && p in ps && ps[p].cache.Some? && ParseLocation(k).Ok?
    ensures GetSpec(t, ps, rank, p, k, d) ==
              Effect(t, ps, Ok(Lookup(t, ps[p].cache.value, ParseLocation(k).value, d)))
  {
  }

  /** When the container that `get` finds at the prefix of `loc` holds only
      the final key, with a truthy value, `clear(loc)` removes the container
      as well. */
  lemma ClearEmptiesContainer(t: Tree, ps: Table, rank: Ranks, p: PtrId, k: Key, e: ObjId, d: Val)
    requires Wf(t, ps, rank) && p in ps
    requires ParseLocation(k).Ok? && |ParseLocation(k).value| > 1
    requires var path := ParseLocation(k).value;
             GetSpec(t, ps, rank, p, Keys(path[..|path| - 1]), Undefined).value == Ok(Ref(e))
    requires e in t.objs && t.objs[e].Keys == {ParseLocation(k).value[|ParseLocation(k).value| - 1]}
    requires Truthy(t.objs[e][ParseLocation(k).value[|ParseLocation(k).value| - 1]])
    ensures var path := ParseLocation(k).value;
            var c := ClearSpec(t, ps, rank, p, k);
            GetSpec(c.t, c.ps, rank, p, Keys(path[..|path| - 1]), d).value == Ok(d)
  {
    var path := ParseLocation(k).value;
    var key := path[|path| - 1];
    var prefix := path[..|path| - 1];
    SplitLast(path);
    var b := Resolve(t, ps, rank, p, false);
    assert b.value.Some?;
    var base := b.value.value;
    LookupIsWalk(t, base, prefix, Undefined);
    WalkAppend(t, base, prefix, key);
    PruneRemoves(t, base, path);
    var t2 := Prune(t, base, path);
    assert Resolve(t2, b.ps, rank, p, false) == Effect(t2, b.ps, Some(base));
    LookupIsWalk(t2, base, prefix, d);
  }

  /** `clear(loc)` removes every container it empties on its way up: when
      each container from depth `j` of the path down to the final key holds
      only the next key, `get` of the path cut at depth `j` gives the
      default afterwards. */
  lemma ClearCascade(t: Tree, ps: Table, rank: Ranks, p: PtrId, k: Key, base: ObjId, j: nat, d: Val)
    requires Wf(t, ps, rank) && p in ps && Layered(t)
    requires ParseLocation(k).Ok? && 1 <= j < |ParseLocation(k).value|
    requires Resolve(t, ps, rank, p, false).value == Some(base)
    requires Truthy(Walk(t, base, ParseLocation(k).value))
    requires SoleKeysFrom(t, base, ParseLocation(k).value, j)
    ensures var c := ClearSpec(t, ps, rank, p, k);
            GetSpec(c.t, c.ps, rank, p, Keys(ParseLocation(k).value[..j]), d).value == Ok(d)
  {
    var path := ParseLocation(k).value;
    var b := Resolve(t, ps, rank, p, false);
    ClearPrunes(t, ps, rank, p, k);
    PruneCascade(t, base, path, j);
    var t2 := Prune(t, base, path);
    assert Resolve(t2, b.ps, rank, p, false) == Effect(t2, b.ps, Some(base));
    LookupIsWalk(t2, base, path[..j], d);
  }

  /** What the tail of `setRoot` leaves in the pointer's cache: with the
      root pointer's location object already cached, and no hook of the
      pointer itself or of its root pointer among its listeners, the
      pointer ends up pinned at the new path. */
  lemma AfterRootPins(t: Tree, ps: Table, rank: Ranks, p: PtrId, k: Key)
    requires Wf(t, ps, rank) && p in ps && SetLocationPath(k).Ok?
    requires ps[p].root.Chained? ==> ps[ps[p].root.parent].cache.Some?
    requires forall h :: h in ps[p].listeners ==>
               h.owner != p && (ps[p].root.Chained? ==> h.owner != ps[p].root.parent)
    ensures var r := AfterRoot(t, ps, rank, p, k);
            && r.ps[p].loc == SetLocationPath(k).value
            && Pinned(t, r.ps, rank, p)
            && (ps[p].root.Chained? ==> r.ps[ps[p].root.parent].cache == ps[ps[p].root.parent].cache)
  {
    var ps3 := Refresh(t, SetLocationSpec(t, ps, rank, p, k, true).value, rank, p);
    AfterRootBeforeEmit(t, ps, rank, p, k);
    assert RecOk(t, ps3, p);
    RefreshAllKeepsPinned(t, ps3, rank, ps3[p].listeners, p);
    if ps[p].root.Chained? {
      RefreshAllKeepsSet(t, ps3, rank, ps3[p].listeners, ps[p].root.parent);
    }
    assert AfterRoot(t, ps, rank, p, k) == Effect(t, Emit(t, ps3, rank, p), Pass);
  }

  /** The state `setRoot` emits from: the pointer pinned at the new path,
      its listeners and root untouched, the root pointer's cache kept. */
  lemma AfterRootBeforeEmit(t: Tree, ps: Table, rank: Ranks, p: PtrId, k: Key)
    requires Wf(t, ps, rank) && p in ps && SetLocationPath(k).Ok?
    requires ps[p].root.Chained? ==> ps[p].root.parent in ps && ps[ps[p].root.parent].cache.Some?
    ensures var ps3 := Refresh(t, SetLocationSpec(t, ps, rank, p, k, true).value, rank, p);
            && ps3[p].loc == SetLocationPath(k).value
            && ps3[p].root == ps[p].root && ps3[p].listeners == ps[p].listeners
            && Pinned(t, ps3, rank, p)
            && (ps[p].root.Chained? ==> ps3[ps[p].root.parent].cache == ps[ps[p].root.parent].cache)
  {
    assert RecOk(t, ps, p);
    var path := SetLocationPath(k).value;
    RelocateOk(t, ps, rank, p, path);
    var ps1 := Relocate(ps, p, path);
    var ps2 := Refresh(t, ps1, rank, p);
    assert SetLocationSpec(t, ps, rank, p, k, true) == Ok(ps2);
    RefreshPins(t, ps2, rank, p);
    var ps3 := Refresh(t, ps2, rank, p);
    if ps[p].root.Chained? {
      var q := ps[p].root.parent;
      assert ps1[q] == ps[q];
      assert ps3[q].cache == ps[q].cache;
    }
  }

  /** `setLocation(loc)` unsuppressed: with the root pointer's location object
      already cached, and no hook of the pointer itself or of its root
      pointer among its listeners, the pointer ends up pinned at the new
      path, and the root pointer's cache is left as it was. */
  lemma SetLocationPins(t: Tree, ps: Table, rank: Ranks, p: PtrId, k: Key)
    requires Wf(t, ps, rank) && p in ps && SetLocationPath(k).Ok?
    requires ps[p].root.Chained? ==> ps[ps[p].root.parent].cache.Some?
    requires forall h :: h in ps[p].listeners ==>
               h.owner != p && (ps[p].root.Chained? ==> h.owner != ps[p].root.parent)
    ensures var r := SetLocationSpec(t, ps, rank, p, k, false);
            && r.Ok?
            && r.value[p].loc == SetLocationPath(k).value
            && Pinned(t, r.value, rank, p)
            && (ps[p].root.Chained? ==> r.value[ps[p].root.parent].cache == ps[ps[p].root.parent].cache)
  {
    assert RecOk(t, ps, p);
    var path := SetLocationPath(k).value;
    RelocateOk(t, ps, rank, p, path);
    var ps1 := Relocate(ps, p, path);
    RefreshPins(t, ps1, rank, p);
    var ps2 := Refresh(t, ps1, rank, p);
    assert ps2[p].listeners == ps[p].listeners;
    if ps[p].root.Chained? {
      var q := ps[p].root.parent;
      assert ps1[q] == ps[q];
      assert ps2[q].cache == ps[q].cache;
      assert RecOk(t, ps2, p);
      RefreshAllKeepsSet(t, ps2, rank, ps2[p].listeners, q);
    }
    EmitKeepsPinned(t, ps2, rank, p, p);
    assert SetLocationSpec(t, ps, rank, p, k, false) == Ok(Emit(t, ps2, rank, p));
  }

  /** The `'changed'` event of `setLocation(loc)` reaches the pointers chained
      onto this one: whenever the pointer's own refresh found a location
      object, each of them caches its own location below that object. */
  lemma SetLocationRefreshesChild(t: Tree, ps: Table, rank: Ranks, p: PtrId, c: PtrId, k: Key)
    requires Wf(t, ps, rank) && p in ps && c in ps && ps[c].root == Chained(p) && SetLocationPath(k).Ok?
    ensures var own := SetLocationSpec(t, ps, rank, p, k, true).value[p].cache;
            own.Some? ==>
              SetLocationSpec(t, ps, rank, p, k, false).value[c].cache == AsObject(Walk(t, own.value, ps[c].loc))
  {
    var path := SetLocationPath(k).value;
    RelocateOk(t, ps, rank, p, path);
    var ps2 := Refresh(t, Relocate(ps, p, path), rank, p);
    assert SetLocationSpec(t, ps, rank, p, k, true) == Ok(ps2);
    assert ps2[c].root == Chained(p) && ps2[c].loc == ps[c].loc;
    if ps2[p].cache.Some? {
      EmitRefreshesChild(t, ps2, rank, p, c);
    }
    assert SetLocationSpec(t, ps, rank, p, k, false) == Ok(Emit(t, ps2, rank, p));
  }

  /** With a raw root or a cached root pointer, the location object the
      refresh of `setLocation(loc)` finds is the object the new path reaches
      from there, so the pointers chained onto this one cache their
      locations below it. */
  lemma SetLocationChildBelowPath(t: Tree, ps: Table, rank: Ranks, p: PtrId, c: PtrId, k: Key)
    requires Wf(t, ps, rank) && p in ps && c in ps && ps[c].root == Chained(p) && SetLocationPath(k).Ok?
    requires ps[p].root.Chained? ==> ps[p].root.parent in ps && ps[ps[p].root.parent].cache.Some?
    ensures var top := if ps[p].root.Raw? then ps[p].root.obj else ps[ps[p].root.parent].cache.value;
            var w := Walk(t, top, SetLocationPath(k).value);
            w.Ref? ==> SetLocationSpec(t, ps, rank, p, k, false).value[c].cache == AsObject(Walk(t, w.id, ps[c].loc))
  {
    assert RecOk(t, ps, p);
    var path := SetLocationPath(k).value;
    RelocateOk(t, ps, rank, p, path);
    var ps1 := Relocate(ps, p, path);
    RefreshPins(t, ps1, rank, p);
    var ps2 := Refresh(t, ps1, rank, p);
    if ps[p].root.Chained? {
      var q := ps[p].root.parent;
      assert ps1[q] == ps[q];
      assert ps2[q].cache == ps[q].cache;
    }
    assert SetLocationSpec(t, ps, rank, p, k, true) == Ok(ps2);
    SetLocationRefreshesChild(t, ps, rank, p, c, k);
  }

  /** The tail of `setRoot` reaches the pointers chained onto this one: with
      a raw root or a cached root pointer, when the new path reaches an
      object, each of them caches its own location below that object. */
  lemma AfterRootRefreshesChild(t: Tree, ps: Table, rank: Ranks, p: PtrId, c: PtrId, k: Key)
    requires Wf(t, ps, rank) && p in ps && c in ps && ps[c].root == Chained(p) && SetLocationPath(k).Ok?
    requires ps[p].root.Chained? ==> ps[p].root.parent in ps && ps[ps[p].root.parent].cache.Some?
    ensures var top := if ps[p].root.Raw? then ps[p].root.obj else ps[ps[p].root.parent].cache.value;
            var w := Walk(t, top, SetLocationPath(k).value);
            var r := AfterRoot(t, ps, rank, p, k);
            w.Ref? ==> c in r.ps && r.ps[c].cache == AsObject(Walk(t, w.id, ps[c].loc))
  {
    var path := SetLocationPath(k).value;
    RelocateOk(t, ps, rank, p, path);
    var ps2 := Refresh(t, Relocate(ps, p, path), rank, p);
    assert SetLocationSpec(t, ps, rank, p, k, true) == Ok(ps2);
    var ps3 := Refresh(t, ps2, rank, p);
    AfterRootRefreshPins(t, ps, rank, p, k);
    assert ps3[c].root == Chained(p) && ps3[c].loc == ps[c].loc;
    if ps3[p].cache.Some? {
      EmitRefreshesChild(t, ps3, rank, p, c);
    }
    assert AfterRoot(t, ps, rank, p, k) == Effect(t, Emit(t, ps3, rank, p), Pass);
  }

  /** The two refreshes inside `setRoot`, before its emission, leave the
      pointer pinned below its raw root or its cached root pointer. */
  lemma AfterRootRefreshPins(t: Tree, ps: Table, rank: Ranks, p: PtrId, k: Key)
    requires Wf(t, ps, rank) && p in ps && SetLocationPath(k).Ok?
    requires ps[p].root.Chained? ==> ps[p].root.parent in ps && ps[ps[p].root.parent].cache.Some?
    ensures var ps2 := SetLocationSpec(t, ps, rank, p, k, true).value;
            var ps3 := Refresh(t, ps2, rank, p);
            var top := if ps[p].root.Raw? then ps[p].root.obj else ps[ps[p].root.parent].cache.value;
            ps3[p].cache == AsObject(Walk(t, top, SetLocationPath(k).value))
  {
    AfterRootBeforeEmit(t, ps, rank, p, k);
    var ps3 := Refresh(t, SetLocationSpec(t, ps, rank, p, k, true).value, rank, p);
    assert RecOk(t, ps3, p);
  }

  /** `setRoot(obj, loc)` reaches the pointers chained onto this one: when
      `loc` reaches an object below `obj`, each of them caches its own
      location below that object. */
  lemma SetRootRawRefreshesChild(t: Tree, ps: Table, rank: Ranks, p: PtrId, c: PtrId, o: ObjId, k: Key, serial: nat)
    requires Wf(t, ps, rank) && p in ps && c in ps && ps[c].root == Chained(p)
    requires o in t.objs && SetLocationPath(k).Ok?
    ensures var w := Walk(t, o, SetLocationPath(k).value);
            w.Ref? ==>
              SetRootSpec(t, ps, rank, p, ValArg(Ref(o)), k, serial).ps[c].cache == AsObject(Walk(t, w.id, ps[c].loc))
  {
    var rank1 := RankAfter(ps, rank, p, Raw(o));
    var ps1 := Rebind(ps, p, Raw(o), serial);
    assert RecOk(t, ps, p);
    RebindWf(t, ps, rank, p, Raw(o), serial);
    assert SetRootSpec(t, ps, rank, p, ValArg(Ref(o)), k, serial) == AfterRoot(t, ps1, rank1, p, k);
    assert RecOk(t, ps1, p);
    assert ps1[c].root == Chained(p) && ps1[c].loc == ps[c].loc;
    AfterRootRefreshesChild(t, ps1, rank1, p, c, k);
  }

  /** `setRoot(pointer, loc)` with the root pointer's location object cached
      reaches the pointers chained onto this one: when `loc` reaches an
      object below that location object, each of them caches its own
      location below it. */
  lemma SetRootChainedRefreshesChild(t: Tree, ps: Table, rank: Ranks, p: PtrId, q: PtrId, c: PtrId, k: Key, serial: nat)
    requires Wf(t, ps, rank) && p in ps && q in ps && c in ps && !InChain(ps, rank, p, q)
    requires ps[c].root == Chained(p) && SetLocationPath(k).Ok? && ps[q].cache.Some?
    ensures var w := Walk(t, ps[q].cache.value, SetLocationPath(k).value);
            w.Ref? ==>
              SetRootSpec(t, ps, rank, p, PtrArg(q), k, serial).ps[c].cache == AsObject(Walk(t, w.id, ps[c].loc))
  {
    var rank1 := RankAfter(ps, rank, p, Chained(q));
    var ps1 := Rebind(ps, p, Chained(q), serial);
    assert RecOk(t, ps, p);
    RebindWf(t, ps, rank, p, Chained(q), serial);
    assert SetRootSpec(t, ps, rank, p, PtrArg(q), k, serial) == AfterRoot(t, ps1, rank1, p, k);
    assert ps1[q].cache == ps[q].cache;
    assert RecOk(t, ps1, p);
    assert ps1[c].root == Chained(p) && ps1[c].loc == ps[c].loc;
    AfterRootRefreshesChild(t, ps1, rank1, p, c, k);
  }

  /** `setRoot` onto a raw object leaves the pointer unchained, at the
      normalised path, and caching what a non-forcing resolution finds
      there: the object at that path, or nothing when it is missing. */
  lemma SetRootRawCache(t: Tree, ps: Table, rank: Ranks, p: PtrId, o: ObjId, k: Key, serial: nat)
    requires Wf(t, ps, rank) && p in ps && o in t.objs && SetLocationPath(k).Ok?
    ensures var r := SetRootSpec(t, ps, rank, p, ValArg(Ref(o)), k, serial);
            && r.value == Pass
            && r.ps[p].root == Raw(o) && !r.ps[p].chained
            && r.ps[p].loc == SetLocationPath(k).value
            && r.ps[p].cache == AsObject(Walk(t, o, SetLocationPath(k).value))
  {
    var ps1 := Rebind(ps, p, Raw(o), serial);
    assert RecOk(t, ps, p);
    RebindWf(t, ps, rank, p, Raw(o), serial);
    assert SetRootSpec(t, ps, rank, p, ValArg(Ref(o)), k, serial) == AfterRoot(t, ps1, rank, p, k);
    assert RecOk(t, ps1, p);
    AfterRootPins(t, ps1, rank, p, k);
  }

  /** `setRoot` onto a pointer whose location object is cached leaves the
      pointer chained and caching the object at its path below that
      location object (nothing when it is missing), as long as the new root
      pointer holds no hook on this one. */
  lemma SetRootChainedCache(t: Tree, ps: Table, rank: Ranks, p: PtrId, q: PtrId, k: Key, serial: nat)
    requires Wf(t, ps, rank) && p in ps && q in ps && !InChain(ps, rank, p, q)
    requires SetLocationPath(k).Ok? && ps[q].cache.Some?
    requires forall h :: h in ps[p].listeners ==> h.owner != q
    ensures var r := SetRootSpec(t, ps, rank, p, PtrArg(q), k, serial);
            && r.value == Pass
            && r.ps[p].root == Chained(q) && r.ps[p].chained
            && r.ps[p].loc == SetLocationPath(k).value
            && r.ps[q].cache == ps[q].cache
            && r.ps[p].cache == AsObject(Walk(t, ps[q].cache.value, SetLocationPath(k).value))
  {
    var rank1 := RankAfter(ps, rank, p, Chained(q));
    var ps1 := Rebind(ps, p, Chained(q), serial);
    assert RecOk(t, ps, p);
    RebindWf(t, ps, rank, p, Chained(q), serial);
    assert SetRootSpec(t, ps, rank, p, PtrArg(q), k, serial) == AfterRoot(t, ps1, rank1, p, k);
    assert ps1[q].cache == ps[q].cache;
    assert RecOk(t, ps1, p);
    AfterRootPins(t, ps1, rank1, p, k);
  }

  /** A chained pointer without a cache cannot resolve when its root
      pointer's location object is missing, forcing or not: nothing is
      cached and the store is as it was or grown. */
  lemma ResolveChainedMissing(t: Tree, ps: Table, rank: Ranks, p: PtrId, force: bool)
    requires Wf(t, ps, rank) && p in ps && ps[p].cache.None? && ps[p].root.Chained?
    requires Resolve(t, ps, rank, ps[p].root.parent, force).value.None?
    ensures var r := Resolve(t, ps, rank, p, force);
            r.value.None? && r.ps[p].cache.None?
  {
    assert RecOk(t, ps, p);
  }

  /** Re-rooting `p` changes no other pointer's `getRoot()` unless `p` lies
      on its chain. */
  lemma {:induction false} TopRootSteady(ps: Table, rank: Ranks, ps2: Table, rank2: Ranks, p: PtrId, x: PtrId)
    requires Ranked(ps, rank) && Ranked(ps2, rank2) && x in ps && Steady(ps, ps2, p)
    requires !InChain(ps, rank, p, x)
    ensures TopRoot(ps2, rank2, x) == TopRoot(ps, rank, x)
    decreases rank[x]
  {
    assert SameBinding(ps[x], ps2[x]);
    if ps[x].root.Chained? {
      TopRootSteady(ps, rank, ps2, rank2, p, ps[x].root.parent);
    }
  }

  /** `new Pointer(q)` has the same `getRoot()` as `q`. */
  lemma NewChainedRoot(t: Tree, ps: Table, rank: Ranks, p: PtrId, q: PtrId, k: Key, serial: nat)
    requires Wf(t, ps, rank) && p !in ps && q in ps
    ensures var r := NewPointerSpec(t, ps, rank, p, PtrArg(q), k, serial);
            TopRoot(r.ps, NewRank(rank, p, PtrArg(q)), p) == TopRoot(ps, rank, q)
  {
    var r := NewPointerSpec(t, ps, rank, p, PtrArg(q), k, serial);
    var rank2 := NewRank(rank, p, PtrArg(q));
    assert Ranked(r.ps, rank2);
    ChainAvoidsFresh(ps, ps, rank, p, q);
    TopRootSteady(ps, rank, r.ps, rank2, p, q);
  }

  /** `new Pointer(obj, loc)` on a stored object: the new pointer is
      unchained, rooted on `obj`, at the normalised path, and caching what
      a non-forcing resolution finds there. */
  lemma NewRawPointer(t: Tree, ps: Table, rank: Ranks, p: PtrId, o: ObjId, k: Key, serial: nat)
    requires Wf(t, ps, rank) && p !in ps && o in t.objs && SetLocationPath(k).Ok?
    ensures var r := NewPointerSpec(t, ps, rank, p, ValArg(Ref(o)), k, serial);
            && r.value == Pass && p in r.ps
            && Wf(t, r.ps, NewRank(rank, p, ValArg(Ref(o))))
            && r.ps[p].root == Raw(o) && !r.ps[p].chained
            && r.ps[p].loc == SetLocationPath(k).value
            && r.ps[p].cache == AsObject(Walk(t, o, SetLocationPath(k).value))
  {
    var root := ValArg(Ref(o));
    var ps0 := ps[p := Placeholder(o)];
    PlaceholderOk(t, ps, rank, p, o, root);
    assert NewPointerSpec(t, ps, rank, p, root, k, serial) == SetRootSpec(t, ps0, rank[p := 0], p, root, k, serial);
    SetRootRawCache(t, ps0, rank[p := 0], p, o, k, serial);
  }

  /** `new Pointer(o, ['test'])` on the empty object `o` leaves exactly the
      record the `create` and `set` scenarios start from. */
  lemma NewTestPointer(ps: Table, rank: Ranks, p: PtrId, serial: nat)
    requires Wf(EmptyFixture(), ps, rank) && p !in ps
    ensures var r := NewPointerSpec(EmptyFixture(), ps, rank, p, ValArg(Ref(0)), Keys(["test"]), serial);
            && Wf(EmptyFixture(), r.ps, NewRank(rank, p, ValArg(Ref(0)))) && p in r.ps
            && r.ps[p].root == Raw(0) && r.ps[p].loc == ["test"] && r.ps[p].cache.None?
  {
    assert SetLocationPath(Keys(["test"])) == Ok(["test"]);
    NewRawPointer(EmptyFixture(), ps, rank, p, 0, Keys(["test"]), serial);
    assert Walk(EmptyFixture(), 0, ["test"]) == Undefined;
  }

  /** The store of the `clear()` tests: `{dummy: {data: {key: true}}}`. */
  function ClearFixture(): (t: Tree)
    ensures Valid(t) && Layered(t)
  {
    Tree(map[0 := map["dummy" := Ref(1)],
             1 := map["data" := Ref(2)],
             2 := map["key" := Prim(Bool(true))]], 3)
  }

  /** `new Pointer(o)` on the fixture's root caches the root itself, the
      record the `clear` scenario starts from. */
  lemma NewClearPointer(ps: Table, rank: Ranks, p: PtrId, serial: nat)
    requires Wf(ClearFixture(), ps, rank) && p !in ps
    ensures var r := NewPointerSpec(ClearFixture(), ps, rank, p, ValArg(Ref(0)), Scalar(Undefined), serial);
            && Wf(ClearFixture(), r.ps, NewRank(rank, p, ValArg(Ref(0)))) && p in r.ps
            && r.ps[p].cache == Some(0)
  {
    assert SetLocationPath(Scalar(Undefined)) == Ok([]);
    NewRawPointer(ClearFixture(), ps, rank, p, 0, Scalar(Undefined), serial);
  }

  /** `clear(['dummy', 'data'])` through a pointer on the fixture's root
      deletes `data`, finds `dummy` empty and deletes it too: the root is
      left as `{}`, not `{dummy: {}}`. */
  lemma ClearNestedScenario(ps: Table, rank: Ranks, p: PtrId)
    requires Wf(ClearFixture(), ps, rank) && p in ps && ps[p].cache == Some(0)
    ensures ClearSpec(ClearFixture(), ps, rank, p, Keys(["dummy", "data"])).t.objs[0] == map[]
  {
    var t := ClearFixture();
    var path := ["dummy", "data"];
    assert ParseLocation(Keys(path)) == Ok(path);
    ClearPrunes(t, ps, rank, p, Keys(path));
    assert Resolve(t, ps, rank, p, false).value == Some(0);
    assert path[..1] == ["dummy"];
    assert Walk(t, 0, ["dummy"]) == Ref(1);
    var t1 := Delete(t, 1, "data");
    assert t1.objs[1] == map[];
    assert Prune(t, 0, path) == Prune(t1, 0, ["dummy"]);
  }
}
