/**
  The `Pointer` instances and the object tree they share, as one mutable
  heap.  Each method mirrors one method of `Pointer`, with the instance it
  runs on passed as `p`; the fields of every instance are the records of
  `ptrs`, the shared objects are `tree`.  Every method is proved to leave
  exactly the state (and return exactly the value) of the matching
  transition function of `PointerTable`, `Resolution` or `Operations`.
 */
module Pointers {
  import opened Values
  import opened Location
  import opened ObjectTree
  import opened PointerTable
  import opened Resolution
  import opened Operations

  /** `_parseLocation`: an array is copied key by key into a new array; a
      string gives a one-key path; any other falsy value the empty path;
      anything else raises. */
  method CopyLocation(k: Key) returns (r: Result<seq<string>>)
    ensures r == ParseLocation(k)
  {
    if k.Keys? {
      var copy: seq<string> := [];
      var i := 0;
      while i < |k.keys|
        invariant 0 <= i <= |k.keys|
        invariant copy == k.keys[..i]
      {
        copy := copy + [k.keys[i]];
        i := i + 1;
      }
      assert k.keys[..|k.keys|] == k.keys;
      r := Ok(copy);
    } else if IsString(k) {
      r := Ok([k.v.p.s]);
    } else if !KeyTruthy(k) {
      r := Ok([]);
    } else {
      r := Err(InvalidLocation);
    }
  }

  /** Storing the cache a record already holds changes nothing. */
  lemma RecacheSame(ps: Table, p: PtrId, c: Option<ObjId>)
    requires p in ps && ps[p].cache == c
    ensures ps[p := ps[p].(cache := c)] == ps
  {
  }

  lemma RelocateHooks(ps: Table, p: PtrId, path: seq<string>, n: nat)
    requires p in ps && HooksBelow(ps, n)
    ensures HooksBelow(Relocate(ps, p, path), n)
  {
    var r := Relocate(ps, p, path);
    forall x | x in r ensures r[x].hook == ps[x].hook && r[x].listeners == ps[x].listeners {
    }
  }

  lemma RefreshAllStep(t: Tree, ps: Table, rank: Ranks, hooks: seq<Hook>, i: nat)
    requires Wf(t, ps, rank) && (forall h :: h in hooks ==> h.owner in ps) && i < |hooks|
    ensures var before := RefreshAll(t, ps, rank, hooks[..i]);
            hooks[i].owner in before &&
            RefreshAll(t, ps, rank, hooks[..i + 1]) == Refresh(t, before, rank, hooks[i].owner)
  {
    var hs := hooks[..i + 1];
    assert hs[..|hs| - 1] == hooks[..i];
    assert hs[|hs| - 1] == hooks[i];
    RefreshAllLast(t, ps, rank, hs);
  }

  /** What `setRoot` leaves once the root is stored: a consistent table, and
      hook serials below the advanced counter. */
  lemma RebindState(t: Tree, ps: Table, rank: Ranks, p: PtrId, nr: Root, serial: nat)
    requires Wf(t, ps, rank) && HooksBelow(ps, serial) && p in ps
    requires nr.Raw? ==> nr.obj in t.objs
    requires nr.Chained? ==> nr.parent in ps && !InChain(ps, rank, p, nr.parent)
    ensures var r := Rebind(ps, p, nr, serial);
            && r.Keys == ps.Keys
            && Wf(t, r, RankAfter(ps, rank, p, nr))
            && HooksBelow(r, serial + if nr.Chained? then 1 else 0)
    ensures nr.Chained? ==> nr.parent != p
    ensures ps[p].chained ==> ps[p].hook.Some? && ps[p].root.Chained? && ps[p].root.parent in ps
  {
    assert RecOk(t, ps, p);
    RebindWf(t, ps, rank, p, nr, serial);
    if nr.Chained? {
      RebindHooksBelow(ps, p, nr, serial);
    } else {
      RebindHooks(ps, p, nr, serial);
      var r := Rebind(ps, p, nr, serial);
      forall x | x in r ensures r[x].hook == ps[x].hook && r[x].listeners == ps[x].listeners {
      }
    }
  }

  lemma SetRootUnfold(t: Tree, ps: Table, rank: Ranks, p: PtrId, root: RootArg, k: Key, serial: nat)
    requires Wf(t, ps, rank) && p in ps && RootArgOk(t, ps, rank, p, root) && IsObjectArg(root)
    ensures ps[p].chained ==> ps[p].hook.Some? && ps[p].root.Chained? && ps[p].root.parent in ps
    ensures RootOf(root).Chained? ==> RootOf(root).parent in ps && RootOf(root).parent != p
    ensures Wf(t, Rebind(ps, p, RootOf(root), serial), RankAfter(ps, rank, p, RootOf(root)))
    ensures SetRootSpec(t, ps, rank, p, root, k, serial) ==
              AfterRoot(t, Rebind(ps, p, RootOf(root), serial), RankAfter(ps, rank, p, RootOf(root)), p, k)
  {
    assert RecOk(t, ps, p);
    RebindWf(t, ps, rank, p, RootOf(root), serial);
  }

  lemma AfterRootUnfold(t: Tree, ps: Table, rank: Ranks, p: PtrId, k: Key)
    requires Wf(t, ps, rank) && p in ps
    ensures var s := SetLocationSpec(t, ps, rank, p, k, true);
            && (s.Err? ==> AfterRoot(t, ps, rank, p, k) == Effect(t, ps, Fail(s.error)))
            && (s.Ok? ==>
                  AfterRoot(t, ps, rank, p, k) == Effect(t, Emit(t, Refresh(t, s.value, rank, p), rank, p), Pass))
  {
  }

  lemma PlaceholderValid(t: Tree, ps: Table, rank: Ranks, p: PtrId, base: ObjId, n: nat)
    requires Wf(t, ps, rank) && HooksBelow(ps, n) && p !in ps && base in t.objs
    ensures Wf(t, ps[p := Placeholder(base)], rank[p := 0])
    ensures HooksBelow(ps[p := Placeholder(base)], n)
  {
    PlaceholderOk(t, ps, rank, p, base, ValArg(Ref(base)));
    var ps0 := ps[p := Placeholder(base)];
    forall x | x in ps0 ensures x != p ==> ps0[x] == ps[x] {
    }
  }

  /** The constructor is `setRoot` on the table extended with a placeholder. */
  lemma NewPointerUnfold(t: Tree, ps: Table, rank: Ranks, p: PtrId, root: RootArg, k: Key, serial: nat, base: ObjId)
    requires Wf(t, ps, rank) && p !in ps && NewArgOk(t, ps, root) && IsObjectArg(root)
    requires base == if root.PtrArg? then TopRoot(ps, rank, root.ptr) else root.v.id
    ensures Wf(t, ps[p := Placeholder(base)], rank[p := 0])
    ensures RootArgOk(t, ps[p := Placeholder(base)], rank[p := 0], p, root)
    ensures NewPointerSpec(t, ps, rank, p, root, k, serial) ==
              SetRootSpec(t, ps[p := Placeholder(base)], rank[p := 0], p, root, k, serial)
    ensures RankAfter(ps[p := Placeholder(base)], rank[p := 0], p, RootOf(root)) == NewRank(rank, p, root)
  {
    TopRootStoredIf(t, ps, rank, root);
    PlaceholderOk(t, ps, rank, p, base, root);
    NewRankAgrees(ps, rank, p, base, root);
  }

  /** `clear` of one key: the key is deleted from the location object when
      it holds something truthy. */
  lemma ClearUnfoldOne(t: Tree, ps: Table, rank: Ranks, p: PtrId, key: string)
    requires Wf(t, ps, rank) && p in ps
    ensures var b := Resolve(t, ps, rank, p, false);
            && b.t == t
            && (b.value.Some? && Truthy(Read(t, b.value.value, key)) ==>
                  var t1 := Delete(t, b.value.value, key);
                  Wf(t1, b.ps, rank) && ClearPath(t, ps, rank, p, [key]) == Effect(t1, b.ps, Pass))
            && (!(b.value.Some? && Truthy(Read(t, b.value.value, key))) ==>
                  ClearPath(t, ps, rank, p, [key]) == Effect(t, b.ps, Pass))
  {
    var b := Resolve(t, ps, rank, p, false);
    if b.value.Some? && Truthy(Read(t, b.value.value, key)) {
      ReshapeOk(t, Delete(t, b.value.value, key), b.ps, b.ps, rank);
    }
  }

  /** The `get` of a prefix inside `clear`: the non-forcing walk below the
      location object, `undefined` without one; only caches change. */
  lemma GetPrefix(t: Tree, ps: Table, rank: Ranks, p: PtrId, prefix: seq<string>)
    requires Wf(t, ps, rank) && p in ps && prefix != []
    ensures var b := Resolve(t, ps, rank, p, false);
            var g := GetSpec(t, ps, rank, p, Keys(prefix), Undefined);
            && g.t == t && g.ps == b.ps
            && g.value == Ok(if b.value.None? then Undefined else Walk(t, b.value.value, prefix))
  {
    var b := Resolve(t, ps, rank, p, false);
    if b.value.Some? {
      LookupIsWalk(t, b.value.value, prefix, Undefined);
    }
  }

  /** `clear` of a longer path: delete a truthy final key from the
      container at the prefix and, when it is left empty, `clear` the
      prefix with the location object now cached. */
  lemma ClearUnfold(t: Tree, ps: Table, rank: Ranks, p: PtrId, path: seq<string>)
    requires Wf(t, ps, rank) && p in ps && |path| > 1
    ensures var b := Resolve(t, ps, rank, p, false);
            var key := path[|path| - 1];
            var o := if b.value.None? then Undefined else Walk(t, b.value.value, path[..|path| - 1]);
            && (o.Ref? ==> o.id in t.objs)
            && (o.Ref? && Truthy(Read(t, o.id, key)) ==>
                  var t1 := Delete(t, o.id, key);
                  && Wf(t1, b.ps, rank)
                  && ClearPath(t, ps, rank, p, path) ==
                       if t1.objs[o.id] == map[] then ClearPath(t1, b.ps, rank, p, path[..|path| - 1])
                       else Effect(t1, b.ps, Pass))
            && (!(o.Ref? && Truthy(Read(t, o.id, key))) ==>
                  ClearPath(t, ps, rank, p, path) == Effect(t, b.ps, Pass))
  {
    var key := path[|path| - 1];
    var prefix := path[..|path| - 1];
    var b := Resolve(t, ps, rank, p, false);
    if b.value.Some? {
      var base := b.value.value;
      var o := Walk(t, base, prefix);
      if o.Ref? && Truthy(Read(t, o.id, key)) {
        var t1 := Delete(t, o.id, key);
        ReshapeOk(t, t1, b.ps, b.ps, rank);
        assert Resolve(t1, b.ps, rank, p, false) == Effect(t1, b.ps, Some(base));
      }
    }
  }

  class Heap {
    /** Every JavaScript object reachable by the pointers. */
    var tree: Tree
    /** The fields of every `Pointer` instance, by identity. */
    var ptrs: Table
    /** The identity the next `new Pointer` receives. */
    var nextPtr: nat
    /** The serial of the next hook closure. */
    var nextHook: nat
    /** Every `'changed'` emission so far, by emitting pointer.  The objects
        keep no such log: it is bookkeeping of the model, so that contracts
        can say which calls emit. */
    var events: seq<PtrId>
    /** Chain ranks: they strictly decrease from a pointer to its root pointer. */
    ghost var rank: Ranks

    ghost predicate Valid()
      reads this`tree, this`ptrs, this`rank, this`nextHook, this`nextPtr
    {
      && Wf(tree, ptrs, rank)
      && HooksBelow(ptrs, nextHook)
      && (forall p :: p in ptrs ==> p < nextPtr)
    }

    /** A heap holding the objects of `t` and no pointer yet. */
    constructor(t: Tree)
      requires ObjectTree.Valid(t)
      ensures Valid() && tree == t && ptrs == map[] && events == []
    {
      tree := t;
      ptrs := map[];
      nextPtr := 0;
      nextHook := 0;
      events := [];
      rank := map[];
    }

    /** `getRoot()`: follow root pointers up to the raw root. */
    method GetRoot(p: PtrId) returns (o: ObjId)
      requires Valid() && p in ptrs
      ensures o == TopRoot(ptrs, rank, p) && o in tree.objs
      decreases rank[p]
    {
      assert RecOk(tree, ptrs, p);
      if ptrs[p].chained {
        o := GetRoot(ptrs[p].root.parent);
      } else {
        o := ptrs[p].root.obj;
      }
    }

    /** `getLocationObject(force)`.  With a root pointer the location object
        of the root pointer is resolved first; an `undefined` one gives
        `undefined` with and without `force`. */
    method GetLocationObject(p: PtrId, force: bool) returns (r: Option<ObjId>)
      requires Valid() && p in ptrs
      modifies this
      ensures var e := Resolve(old(tree), old(ptrs), old(rank), p, force);
              tree == e.t && ptrs == e.ps && r == e.value
      ensures Valid()
      ensures rank == old(rank) && nextPtr == old(nextPtr) && nextHook == old(nextHook) && events == old(events)
      decreases rank[p]
    {
      assert RecOk(tree, ptrs, p);
      ghost var e := Resolve(tree, ptrs, rank, p, force);
      var rec := ptrs[p];
      if rec.cache.Some? {
        r := rec.cache;
        return;
      }
      var base: ObjId;
      if rec.chained {
        NotInOwnParentChain(ptrs, rank, p);
        var obj := GetLocationObject(rec.root.parent, force);
        if obj.None? {
          r := None;
          return;
        }
        base := obj.value;
      } else {
        base := rec.root.obj;
      }
      ghost var s := Settle(tree, ptrs, rank, p, base, force);
      var c: Val;
      if force {
        var f := Force(tree, base, rec.loc);
        tree := f.t;
        c := f.v;
      } else {
        c := Walk(tree, base, rec.loc);
      }
      if c.Ref? {
        ptrs := ptrs[p := ptrs[p].(cache := Some(c.id))];
        r := Some(c.id);
      } else {
        r := None;
      }
      assert tree == s.t && ptrs == s.ps && r == s.value;
      HooksBelowShape(old(ptrs), ptrs, nextHook);
    }

    /** `_refreshRoot()`: reset the cache, then cache what a non-forcing
        `getLocationObject` returns. */
    method RefreshRoot(p: PtrId)
      requires Valid() && p in ptrs
      modifies this
      ensures ptrs == Refresh(old(tree), old(ptrs), old(rank), p)
      ensures Valid()
      ensures tree == old(tree) && rank == old(rank) && nextPtr == old(nextPtr)
      ensures nextHook == old(nextHook) && events == old(events)
    {
      ghost var ps0 := ptrs;
      ResetOk(tree, ptrs, rank, p);
      HooksBelowShape(ptrs, Reset(ptrs, p), nextHook);
      ptrs := ptrs[p := ptrs[p].(cache := None)];
      assert ptrs == Reset(ps0, p);
      var c := GetLocationObject(p, false);
      ghost var ps1 := ptrs;
      assert ps1 == Refresh(tree, ps0, rank, p);
      assert ps1[p].cache == c;
      RecacheSame(ptrs, p, c);
      ptrs := ptrs[p := ptrs[p].(cache := c)];
    }

    /** `emit('changed')`: every hook registered on `p`, in registration
        order, refreshes the pointer it is bound to; nothing re-emits. */
    method EmitChanged(p: PtrId)
      requires Valid() && p in ptrs
      modifies this
      ensures ptrs == Emit(old(tree), old(ptrs), old(rank), p)
      ensures Valid()
      ensures tree == old(tree) && rank == old(rank) && nextPtr == old(nextPtr)
      ensures nextHook == old(nextHook) && events == old(events) + [p]
    {
      assert RecOk(tree, ptrs, p);
      ghost var t0, ps0, rank0 := tree, ptrs, rank;
      var hooks := ptrs[p].listeners;
      var i := 0;
      while i < |hooks|
        invariant 0 <= i <= |hooks|
        invariant Valid() && ptrs.Keys == ps0.Keys
        invariant ptrs == RefreshAll(t0, ps0, rank0, hooks[..i])
        invariant tree == old(tree) && rank == old(rank) && nextPtr == old(nextPtr)
        invariant nextHook == old(nextHook) && events == old(events)
      {
        RefreshAllStep(t0, ps0, rank0, hooks, i);
        RefreshRoot(hooks[i].owner);
        i := i + 1;
      }
      assert hooks[..|hooks|] == hooks;
      events := events + [p];
    }

    /** `_unhookPointer()`: a chained pointer removes its hook from its root
        pointer's listeners. */
    method UnhookPointer(p: PtrId)
      requires p in ptrs
      requires ptrs[p].chained ==> ptrs[p].hook.Some? && ptrs[p].root.Chained? && ptrs[p].root.parent in ptrs
      modifies this`ptrs
      ensures ptrs == Unhook(old(ptrs), p)
    {
      if ptrs[p].chained {
        var q := ptrs[p].root.parent;
        ptrs := ptrs[q := ptrs[q].(listeners := Remove(ptrs[q].listeners, ptrs[p].hook.value))];
      }
    }

    /** `_hookPointer(q)`: bind a fresh hook closure to `p`, make it the
        current hook and register it on `q`. */
    method HookPointer(p: PtrId, q: PtrId)
      requires p in ptrs && q in ptrs
      modifies this`ptrs, this`nextHook
      ensures ptrs == HookOn(old(ptrs), p, q, old(nextHook))
      ensures nextHook == old(nextHook) + 1
    {
      var h := Hook(p, nextHook);
      nextHook := nextHook + 1;
      ptrs := ptrs[p := ptrs[p].(hook := Some(h))];
      ptrs := ptrs[q := ptrs[q].(listeners := ptrs[q].listeners + [h])];
    }

    /** `setLocation(loc, suppress)`. */
    method SetLocation(p: PtrId, k: Key, suppress: bool) returns (out: Outcome)
      requires Valid() && p in ptrs
      modifies this
      ensures var e := SetLocationSpec(old(tree), old(ptrs), old(rank), p, k, suppress);
              && (e.Err? ==> ptrs == old(ptrs) && out == Fail(e.error))
              && (e.Ok? ==> ptrs == e.value && out == Pass)
      ensures Valid()
      ensures tree == old(tree) && rank == old(rank) && nextPtr == old(nextPtr) && nextHook == old(nextHook)
      ensures events == if out.Pass? && !suppress then old(events) + [p] else old(events)
    {
      var path: seq<string>;
      if KeyTruthy(k) {
        var parsed := CopyLocation(k);
        if parsed.Err? {
          out := Fail(parsed.error);
          return;
        }
        path := parsed.value;
      } else {
        path := [];
      }
      RelocateOk(tree, ptrs, rank, p, path);
      RelocateHooks(ptrs, p, path, nextHook);
      ptrs := ptrs[p := ptrs[p].(loc := path)];
      RefreshRoot(p);
      if !suppress {
        EmitChanged(p);
      }
      out := Pass;
    }

    /** The root bookkeeping of `setRoot` (index.js:65-74): unhook and hook
        for a pointer root, set the chained flag, store the root. */
    method BindRoot(p: PtrId, nr: Root)
      requires Valid() && p in ptrs
      requires nr.Raw? ==> nr.obj in tree.objs
      requires nr.Chained? ==> nr.parent in ptrs && !InChain(ptrs, rank, p, nr.parent)
      modifies this
      ensures ptrs == Rebind(old(ptrs), p, nr, old(nextHook))
      ensures rank == RankAfter(old(ptrs), old(rank), p, nr)
      ensures Valid()
      ensures tree == old(tree) && nextPtr == old(nextPtr) && events == old(events)
      ensures nextHook == old(nextHook) + (if nr.Chained? then 1 else 0)
    {
      if nr.Chained? {
        BindPointerRoot(p, nr.parent);
      } else {
        BindRawRoot(p, nr.obj);
      }
    }

    /** A pointer root: `_unhookPointer()`, `_hookPointer(q)`, the chained
        flag set, the root stored. */
    method BindPointerRoot(p: PtrId, q: PtrId)
      requires Valid() && p in ptrs && q in ptrs && !InChain(ptrs, rank, p, q)
      modifies this
      ensures ptrs == Rebind(old(ptrs), p, Chained(q), old(nextHook))
      ensures rank == RankAfter(old(ptrs), old(rank), p, Chained(q))
      ensures Valid()
      ensures tree == old(tree) && nextPtr == old(nextPtr) && events == old(events)
      ensures nextHook == old(nextHook) + 1
    {
      ghost var ps0, rank0 := ptrs, rank;
      RebindState(tree, ps0, rank0, p, Chained(q), nextHook);
      ChainTo(p, q);
      rank := RankAfter(ps0, rank0, p, Chained(q));
    }

    /** The steps of a pointer root on the fields alone. */
    method ChainTo(p: PtrId, q: PtrId)
      requires p in ptrs && q in ptrs && q != p
      requires ptrs[p].chained ==> ptrs[p].hook.Some? && ptrs[p].root.Chained? && ptrs[p].root.parent in ptrs
      modifies this`ptrs, this`nextHook
      ensures ptrs == Rebind(old(ptrs), p, Chained(q), old(nextHook))
      ensures nextHook == old(nextHook) + 1
    {
      UnhookPointer(p);
      HookPointer(p, q);
      ptrs := ptrs[p := ptrs[p].(chained := true)];
      ptrs := ptrs[p := ptrs[p].(root := Chained(q))];
    }

    /** A raw root: the chained flag cleared and the root stored; any hook
        stays registered where it was. */
    method BindRawRoot(p: PtrId, o: ObjId)
      requires Valid() && p in ptrs && o in tree.objs
      modifies this
      ensures ptrs == Rebind(old(ptrs), p, Raw(o), old(nextHook))
      ensures rank == old(rank)
      ensures Valid()
      ensures tree == old(tree) && nextPtr == old(nextPtr) && events == old(events)
      ensures nextHook == old(nextHook)
    {
      RebindState(tree, ptrs, rank, p, Raw(o), nextHook);
      ptrs := ptrs[p := ptrs[p].(chained := false)];
      ptrs := ptrs[p := ptrs[p].(root := Raw(o))];
    }

    /** `setRoot(obj, loc)`. */
    method SetRoot(p: PtrId, root: RootArg, k: Key) returns (out: Outcome)
      requires Valid() && p in ptrs && RootArgOk(tree, ptrs, rank, p, root)
      modifies this
      ensures var e := SetRootSpec(old(tree), old(ptrs), old(rank), p, root, k, old(nextHook));
              ptrs == e.ps && out == e.value
      ensures rank == if IsObjectArg(root) then RankAfter(old(ptrs), old(rank), p, RootOf(root)) else old(rank)
      ensures Valid()
      ensures tree == old(tree) && nextPtr == old(nextPtr)
      ensures nextHook == old(nextHook) + (if root.PtrArg? then 1 else 0)
      ensures events == if out.Pass? then old(events) + [p] else old(events)
    {
      if !IsObjectArg(root) {
        out := Fail(InvalidRoot);
        return;
      }
      SetRootUnfold(tree, ptrs, rank, p, root, k, nextHook);
      BindRoot(p, RootOf(root));
      AfterRootUnfold(tree, ptrs, rank, p, k);
      ghost var ps1 := ptrs;
      ghost var ev := events;
      out := SetLocation(p, k, true);
      if out.Fail? {
        return;
      }
      assert events == ev;
      RefreshRoot(p);
      EmitChanged(p);
      assert events == ev + [p];
    }

    /** `new Pointer(root, loc)`: a fresh instance, then `setRoot(root, loc)`.
        A primitive root raises before the instance is reachable, so the
        table does not change; before `setRoot` replaces it, the instance's
        root stands in as the raw root of the chain of `root` (or `root`
        itself). */
    method NewPointer(root: RootArg, k: Key) returns (p: PtrId, out: Outcome)
      requires Valid() && NewArgOk(tree, ptrs, root)
      modifies this
      ensures p == old(nextPtr) && p !in old(ptrs) && nextPtr == old(nextPtr) + 1
      ensures var e := NewPointerSpec(old(tree), old(ptrs), old(rank), p, root, k, old(nextHook));
              ptrs == e.ps && out == e.value
      ensures IsObjectArg(root) ==> rank == NewRank(old(rank), p, root)
      ensures Valid()
      ensures tree == old(tree)
      ensures events == if out.Pass? then old(events) + [p] else old(events)
    {
      if !IsObjectArg(root) {
        p := nextPtr;
        nextPtr := nextPtr + 1;
        out := Fail(InvalidRoot);
        return;
      }
      // The placeholder record needs some stored object as its root; the
      // raw root at the top of the new root pointer's chain is one.  It is
      // overwritten by `setRoot` before anything reads it.
      var base: ObjId;
      if root.PtrArg? {
        base := GetRoot(root.ptr);
      } else {
        base := root.v.id;
      }
      NewPointerUnfold(tree, ptrs, rank, nextPtr, root, k, nextHook, base);
      p := Allocate(base);
      out := SetRoot(p, root, k);
    }

    /** A fresh instance, registered with the placeholder record that
        `setRoot` overwrites. */
    method Allocate(base: ObjId) returns (p: PtrId)
      requires Valid() && base in tree.objs
      modifies this
      ensures p == old(nextPtr) && p !in old(ptrs) && nextPtr == old(nextPtr) + 1
      ensures ptrs == old(ptrs)[p := Placeholder(base)] && rank == old(rank)[p := 0]
      ensures Valid()
      ensures tree == old(tree) && nextHook == old(nextHook) && events == old(events)
    {
      p := nextPtr;
      PlaceholderValid(tree, ptrs, rank, p, base, nextHook);
      nextPtr := nextPtr + 1;
      ptrs := ptrs[p := Placeholder(base)];
      rank := rank[p := 0];
    }

    /** `create(loc)`: force the location object, then force `loc` below it. */
    method Create(p: PtrId, k: Key) returns (r: Result<Val>)
      requires Valid() && p in ptrs
      modifies this
      ensures var e := CreateSpec(old(tree), old(ptrs), old(rank), p, k);
              tree == e.t && ptrs == e.ps && r == e.value
      ensures Valid()
      ensures rank == old(rank) && nextPtr == old(nextPtr) && nextHook == old(nextHook) && events == old(events)
    {
      var parsed := CopyLocation(k);
      if parsed.Err? {
        r := Err(parsed.error);
        return;
      }
      var obj := GetLocationObject(p, true);
      if obj.None? {
        r := Ok(Undefined);
        return;
      }
      var f := Force(tree, obj.value, parsed.value);
      ghost var t := tree;
      tree := f.t;
      ReshapeOk(t, tree, ptrs, ptrs, rank);
      r := Ok(f.v);
    }

    /** `set(loc, value)`. */
    method Set(p: PtrId, k: Key, v: Val) returns (out: Outcome)
      requires Valid() && p in ptrs && Closed(tree, v)
      modifies this
      ensures var e := SetSpec(old(tree), old(ptrs), old(rank), p, k, v);
              tree == e.t && ptrs == e.ps && out == e.value
      ensures Valid()
      ensures rank == old(rank) && nextPtr == old(nextPtr) && nextHook == old(nextHook) && events == old(events)
    {
      var parsed := CopyLocation(k);
      if parsed.Err? {
        out := Fail(parsed.error);
        return;
      }
      var path := parsed.value;
      if |path| == 0 {
        out := Fail(EmptyLocation);
        return;
      }
      out := SetPath(p, k, path, v);
    }

    /** `set` past the parsing of a non-empty path. */
    method SetPath(p: PtrId, k: Key, path: seq<string>, v: Val) returns (out: Outcome)
      requires Valid() && p in ptrs && Closed(tree, v)
      requires ParseLocation(k) == Ok(path) && path != []
      modifies this
      ensures var e := SetSpec(old(tree), old(ptrs), old(rank), p, k, v);
              tree == e.t && ptrs == e.ps && out == e.value
      ensures Valid()
      ensures rank == old(rank) && nextPtr == old(nextPtr) && nextHook == old(nextHook) && events == old(events)
    {
      var key := path[|path| - 1];
      SetUnfold(tree, ptrs, rank, p, k, v);
      var el := SetContainer(p, path);
      if el.Ref? {
        AssignInto(el.id, key, v);
        out := Pass;
      } else {
        out := Fail(PropertyOfNonObject);
      }
    }

    /** `el[key] = value` on an object of the store. */
    method AssignInto(id: ObjId, key: string, v: Val)
      requires Valid() && id in tree.objs && Closed(tree, v)
      requires Wf(Assign(tree, id, key, v), ptrs, rank)
      modifies this
      ensures tree == Assign(old(tree), id, key, v) && ptrs == old(ptrs)
      ensures Valid()
      ensures rank == old(rank) && nextPtr == old(nextPtr) && nextHook == old(nextHook) && events == old(events)
    {
      tree := Assign(tree, id, key, v);
    }

    /** The container `set` writes into: `create` of the prefix of a longer
        path, or the forced location object for a single key. */
    method SetContainer(p: PtrId, path: seq<string>) returns (el: Val)
      requires Valid() && p in ptrs && path != []
      modifies this
      ensures var c := SetTarget(old(tree), old(ptrs), old(rank), p, path);
              tree == c.t && ptrs == c.ps && el == c.value
      ensures Valid()
      ensures rank == old(rank) && nextPtr == old(nextPtr) && nextHook == old(nextHook) && events == old(events)
    {
      if |path| > 1 {
        var c := Create(p, Keys(path[..|path| - 1]));
        el := c.value;
      } else {
        var obj := GetLocationObject(p, true);
        el := if obj.Some? then Ref(obj.value) else Undefined;
      }
    }

    /** `get(loc, defaultValue)`. */
    method Get(p: PtrId, k: Key, default: Val) returns (r: Result<Val>)
      requires Valid() && p in ptrs
      modifies this
      ensures var e := GetSpec(old(tree), old(ptrs), old(rank), p, k, default);
              tree == e.t && ptrs == e.ps && r == e.value
      ensures Valid()
      ensures rank == old(rank) && nextPtr == old(nextPtr) && nextHook == old(nextHook) && events == old(events)
    {
      var parsed := CopyLocation(k);
      if parsed.Err? {
        r := Err(parsed.error);
        return;
      }
      var path := parsed.value;
      var obj := GetLocationObject(p, false);
      if obj.None? {
        r := Ok(default);
        return;
      }
      if |path| == 0 {
        r := Ok(Ref(obj.value));
        return;
      }
      var key := path[|path| - 1];
      var o := Ref(obj.value);
      if |path| > 1 {
        o := Walk(tree, obj.value, path[..|path| - 1]);
        if o == Undefined {
          r := Ok(default);
          return;
        }
      }
      var v := if o.Ref? then Read(tree, o.id, key) else Undefined;
      r := Ok(if v == Undefined then default else v);
    }

    /** `clear(loc)`: the empty path raises; one key and longer paths are
        the two branches below. */
    method Clear(p: PtrId, k: Key) returns (out: Outcome)
      requires Valid() && p in ptrs
      modifies this
      ensures var e := ClearSpec(old(tree), old(ptrs), old(rank), p, k);
              tree == e.t && ptrs == e.ps && out == e.value
      ensures Valid()
      ensures rank == old(rank) && nextPtr == old(nextPtr) && nextHook == old(nextHook) && events == old(events)
      decreases if ParseLocation(k).Ok? then |ParseLocation(k).value| else 0, 1
    {
      var parsed := CopyLocation(k);
      if parsed.Err? {
        out := Fail(parsed.error);
        return;
      }
      var path := parsed.value;
      if |path| == 0 {
        out := Fail(EmptyClear);
        return;
      }
      if |path| == 1 {
        assert path == [path[0]];
        ClearKey(p, path[0]);
      } else {
        ClearNested(p, path);
      }
      out := Pass;
    }

    /** `clear([k])`: delete `k` from the location object when it holds
        something truthy. */
    method ClearKey(p: PtrId, key: string)
      requires Valid() && p in ptrs
      modifies this
      ensures var e := ClearPath(old(tree), old(ptrs), old(rank), p, [key]);
              tree == e.t && ptrs == e.ps
      ensures Valid()
      ensures rank == old(rank) && nextPtr == old(nextPtr) && nextHook == old(nextHook) && events == old(events)
    {
      ClearUnfoldOne(tree, ptrs, rank, p, key);
      var o := GetLocationObject(p, false);
      if o.Some? && Truthy(Read(tree, o.value, key)) {
        tree := Delete(tree, o.value, key);
      }
    }

    /** `clear(path)` for two keys or more: `get` the container at the
        prefix, delete a truthy final key from it and, if no key is left
        (`for (var key in o)` returns at the first one), clear the prefix. */
    method ClearNested(p: PtrId, path: seq<string>)
      requires Valid() && p in ptrs && |path| > 1
      modifies this
      ensures var e := ClearPath(old(tree), old(ptrs), old(rank), p, path);
              tree == e.t && ptrs == e.ps
      ensures Valid()
      ensures rank == old(rank) && nextPtr == old(nextPtr) && nextHook == old(nextHook) && events == old(events)
      decreases |path|, 0
    {
      var key := path[|path| - 1];
      var prefix := path[..|path| - 1];
      ClearUnfold(tree, ptrs, rank, p, path);
      GetPrefix(tree, ptrs, rank, p, prefix);
      var got := Get(p, Keys(prefix), Undefined);
      var o := got.value;
      if o.Ref? && Truthy(Read(tree, o.id, key)) {
        DeleteThenClear(p, prefix, o.id, key);
      }
    }

    /** The second half of `clear(path)`: delete the truthy final key from
        the container and, when that leaves it empty, clear the prefix. */
    method DeleteThenClear(p: PtrId, prefix: seq<string>, id: ObjId, key: string)
      requires Valid() && p in ptrs && prefix != [] && id in tree.objs
      requires Wf(Delete(tree, id, key), ptrs, rank)
      modifies this
      ensures var t1 := Delete(old(tree), id, key);
              var e := if t1.objs[id] == map[] then ClearPath(t1, old(ptrs), old(rank), p, prefix)
                       else Effect(t1, old(ptrs), Pass);
              tree == e.t && ptrs == e.ps
      ensures Valid()
      ensures rank == old(rank) && nextPtr == old(nextPtr) && nextHook == old(nextHook) && events == old(events)
      decreases |prefix|, 2
    {
      tree := Delete(tree, id, key);
      if tree.objs[id] != map[] {
        return;
      }
      assert ParseLocation(Keys(prefix)) == Ok(prefix);
      var _ := Clear(p, Keys(prefix));
    }
  }
}
