/**
  The state of every `Pointer` instance: its root (`_root`), normalised path
  (`_loc`), cached location object (`_pointerRoot`), chained flag
  (`_masterPointer`), current hook (`_pointerHook`) and the ordered list of
  hooks registered on it (its `'changed'` listeners).  Pointers live in a
  table keyed by identity; the invariants that tie the table to the object
  store and keep chains acyclic are stated here, together with the root and
  hook bookkeeping of `setRoot`.
 */
module PointerTable {
  import opened Values
  import opened ObjectTree

  /** Identity of a `Pointer` instance. */
  type PtrId = nat

  /** `_root`: a raw object, or another pointer. */
  datatype Root = Raw(obj: ObjId) | Chained(parent: PtrId)

  /** A hook function `_pointerHook`, bound to the pointer `owner`; `serial`
      tells apart the distinct closures one pointer creates over time. */
  datatype Hook = Hook(owner: PtrId, serial: nat)

  datatype PtrRec = PtrRec(
    root: Root,
    loc: seq<string>,
    cache: Option<ObjId>,
    chained: bool,
    hook: Option<Hook>,
    listeners: seq<Hook>)

  type Table = map<PtrId, PtrRec>

  /** A ghost ranking that strictly decreases from a pointer to its root
      pointer: chains are finite and acyclic. */
  type Ranks = map<PtrId, nat>

  ghost predicate Ranked(ps: Table, rank: Ranks) {
    forall p :: p in ps ==>
      && p in rank
      && (ps[p].root.Chained? ==>
            ps[p].root.parent in ps && ps[p].root.parent in rank && rank[ps[p].root.parent] < rank[p])
  }

  /** One record agrees with the store and the rest of the table: a raw root
      and a cached object exist, the chained flag says whether the root is a
      pointer, a chained pointer's current hook is registered on its root,
      and every listener belongs to some other pointer. */
  ghost predicate RecOk(t: Tree, ps: Table, p: PtrId)
    requires p in ps
  {
    var r := ps[p];
    && (r.root.Raw? ==> r.root.obj in t.objs)
    && r.chained == r.root.Chained?
    && (r.cache.Some? ==> r.cache.value in t.objs)
    && (r.chained ==>
          && r.hook.Some? && r.hook.value.owner == p
          && r.root.parent in ps && r.hook.value in ps[r.root.parent].listeners)
    && (forall h :: h in r.listeners ==> h.owner in ps && h.owner != p)
  }

  ghost predicate TableOk(t: Tree, ps: Table, rank: Ranks) {
    && Ranked(ps, rank)
    && (forall p :: p in ps ==> RecOk(t, ps, p))
  }

  /** Every hook serial in use is below `nextHook`. */
  ghost predicate HooksBelow(ps: Table, nextHook: nat) {
    forall p :: p in ps ==>
      && (ps[p].hook.Some? ==> ps[p].hook.value.serial < nextHook)
      && (forall h :: h in ps[p].listeners ==> h.serial < nextHook)
  }

  /** Two records of one pointer that agree on everything but the cache
      and the listener list. */
  ghost predicate SameBinding(a: PtrRec, b: PtrRec) {
    a.root == b.root && a.loc == b.loc && a.chained == b.chained && a.hook == b.hook
  }

  /** `ps2` differs from `ps` in cached location objects only. */
  ghost predicate SameShape(ps: Table, ps2: Table) {
    && ps2.Keys == ps.Keys
    && (forall p :: p in ps ==> SameBinding(ps[p], ps2[p]) && ps2[p].listeners == ps[p].listeners)
  }

  /** On top of that, caches are only filled, never reset. */
  ghost predicate CachesFilled(ps: Table, ps2: Table) {
    && SameShape(ps, ps2)
    && (forall p :: p in ps && ps[p].cache.Some? ==> ps2[p].cache == ps[p].cache)
  }

  lemma ReshapeOk(t: Tree, t2: Tree, ps: Table, ps2: Table, rank: Ranks)
    requires TableOk(t, ps, rank) && SameShape(ps, ps2)
    requires t.objs.Keys <= t2.objs.Keys
    requires forall p :: p in ps2 && ps2[p].cache.Some? ==> ps2[p].cache.value in t2.objs
    ensures TableOk(t2, ps2, rank)
  {
    forall p | p in ps2 ensures RecOk(t2, ps2, p) {
      assert RecOk(t, ps, p);
      var r := ps[p];
      if r.chained {
        assert ps2[r.root.parent].listeners == ps[r.root.parent].listeners;
      }
    }
  }

  /** Records that keep their roots, flags, caches and hooks keep the table
      consistent, whatever their locations. */
  lemma RelinkOk(t: Tree, ps: Table, ps2: Table, rank: Ranks)
    requires TableOk(t, ps, rank) && ps2.Keys == ps.Keys
    requires forall p :: p in ps ==> ps2[p] == ps[p].(loc := ps2[p].loc)
    ensures TableOk(t, ps2, rank)
  {
    forall p | p in ps2 ensures RecOk(t, ps2, p) {
      assert RecOk(t, ps, p);
      var r := ps[p];
      if r.chained {
        assert ps2[r.root.parent].listeners == ps[r.root.parent].listeners;
      }
    }
  }

  /** Apart from `p`, records of `ps` keep everything in `ps2` but their
      caches and listener lists. */
  ghost predicate Steady(ps: Table, ps2: Table, p: PtrId) {
    && ps.Keys <= ps2.Keys
    && (forall x :: x in ps && x != p ==> SameBinding(ps[x], ps2[x]))
  }

  lemma SteadyShape(ps: Table, ps1: Table, ps2: Table, p: PtrId)
    requires Steady(ps, ps1, p) && SameShape(ps1, ps2)
    ensures Steady(ps, ps2, p)
  {
    forall x | x in ps && x != p ensures SameBinding(ps[x], ps2[x]) {
      assert SameBinding(ps1[x], ps2[x]);
    }
  }

  lemma SteadyTransitive(ps1: Table, ps2: Table, ps3: Table, p: PtrId)
    requires Steady(ps1, ps2, p) && Steady(ps2, ps3, p)
    ensures Steady(ps1, ps3, p)
  {
    forall x | x in ps1 && x != p ensures SameBinding(ps1[x], ps3[x]) {
      assert SameBinding(ps2[x], ps3[x]);
    }
  }

  lemma SteadyExtend(ps: Table, p: PtrId, rec: PtrRec, r: Table)
    requires Steady(ps[p := rec], r, p)
    ensures Steady(ps, r, p)
  {
    forall x | x in ps && x != p ensures SameBinding(ps[x], r[x]) {
      assert ps[p := rec][x] == ps[x];
    }
  }

  lemma HooksBelowShape(ps: Table, ps2: Table, nextHook: nat)
    requires HooksBelow(ps, nextHook) && SameShape(ps, ps2)
    ensures HooksBelow(ps2, nextHook)
  {
    forall p | p in ps2 ensures ps2[p].hook == ps[p].hook && ps2[p].listeners == ps[p].listeners {
    }
  }

  /** `a` lies on the chain from `x` to its raw root (`x` included). */
  ghost predicate InChain(ps: Table, rank: Ranks, a: PtrId, x: PtrId)
    requires Ranked(ps, rank) && x in ps
    decreases rank[x]
  {
    a == x || (ps[x].root.Chained? && InChain(ps, rank, a, ps[x].root.parent))
  }

  lemma {:induction false} InChainRank(ps: Table, rank: Ranks, a: PtrId, x: PtrId)
    requires Ranked(ps, rank) && x in ps && InChain(ps, rank, a, x)
    ensures a in ps && rank[a] <= rank[x]
    decreases rank[x]
  {
    if a != x {
      InChainRank(ps, rank, a, ps[x].root.parent);
    }
  }

  /** `getRoot`: the raw root at the top of the chain. */
  function TopRoot(ps: Table, rank: Ranks, p: PtrId): ObjId
    requires Ranked(ps, rank) && p in ps
    decreases rank[p]
  {
    match ps[p].root
    case Raw(o) => o
    case Chained(q) => TopRoot(ps, rank, q)
  }

  lemma {:induction false} TopRootStored(t: Tree, ps: Table, rank: Ranks, p: PtrId)
    requires TableOk(t, ps, rank) && p in ps
    ensures TopRoot(ps, rank, p) in t.objs
    decreases rank[p]
  {
    assert RecOk(t, ps, p);
    if ps[p].root.Chained? {
      TopRootStored(t, ps, rank, ps[p].root.parent);
    }
  }

  /** The object `getRoot` returns is the raw root of some pointer on the
      chain. */
  lemma {:induction false} TopRootOnChain(ps: Table, rank: Ranks, p: PtrId)
    requires Ranked(ps, rank) && p in ps
    ensures exists x :: x in ps && InChain(ps, rank, x, p) && ps[x].root == Raw(TopRoot(ps, rank, p))
    decreases rank[p]
  {
    if ps[p].root.Raw? {
      assert InChain(ps, rank, p, p);
    } else {
      var q := ps[p].root.parent;
      TopRootOnChain(ps, rank, q);
      var x :| x in ps && InChain(ps, rank, x, q) && ps[x].root == Raw(TopRoot(ps, rank, q));
      assert InChain(ps, rank, x, p);
    }
  }

  /** `removeListener`: `h` taken out of a listener list.  Hook serials are
      unique, so a list holds `h` at most once and removing every
      occurrence is removing the one registration. */
  function Remove(hs: seq<Hook>, h: Hook): (r: seq<Hook>)
    ensures forall x :: x in r <==> x in hs && x != h
    ensures |r| <= |hs|
    ensures h !in hs ==> r == hs
  {
    if hs == [] then []
    else (if hs[0] == h then [] else [hs[0]]) + Remove(hs[1..], h)
  }

  /** The listeners registered before and after `h` keep their order. */
  lemma {:induction false} RemoveSplit(a: seq<Hook>, h: Hook, b: seq<Hook>)
    requires h !in a && h !in b
    ensures Remove(a + [h] + b, h) == a + b
  {
    if a == [] {
      assert a + [h] + b == [h] + b;
      assert ([h] + b)[1..] == b;
    } else {
      assert (a + [h] + b)[0] == a[0];
      assert (a + [h] + b)[1..] == a[1..] + [h] + b;
      RemoveSplit(a[1..], h, b);
      assert a + b == [a[0]] + (a[1..] + b);
    }
  }

  /** `_unhookPointer`: only a chained pointer removes its hook, and only from
      its current root. */
  function Unhook(ps: Table, p: PtrId): (r: Table)
    requires p in ps
    requires ps[p].chained ==> ps[p].hook.Some? && ps[p].root.Chained? && ps[p].root.parent in ps
    ensures !ps[p].chained ==> r == ps
    ensures ps[p].chained ==>
              var q := ps[p].root.parent;
              && r.Keys == ps.Keys
              && ps[p].hook.value !in r[q].listeners
              && (forall h :: h in ps[q].listeners && h != ps[p].hook.value ==> h in r[q].listeners)
              && r[q] == ps[q].(listeners := r[q].listeners)
              && (forall x :: x in ps && x != q ==> r[x] == ps[x])
  {
    if ps[p].chained then
      var q := ps[p].root.parent;
      ps[q := ps[q].(listeners := Remove(ps[q].listeners, ps[p].hook.value))]
    else ps
  }

  /** `_hookPointer(q)`: a fresh closure becomes the current hook of `p`
      and is appended to the listeners of `q`. */
  function HookOn(ps: Table, p: PtrId, q: PtrId, serial: nat): (r: Table)
    requires p in ps && q in ps
    ensures r.Keys == ps.Keys
    ensures r[p].hook == Some(Hook(p, serial))
    ensures r[q].listeners == ps[q].listeners + [Hook(p, serial)]
    ensures forall x :: x in ps && x != p && x != q ==> r[x] == ps[x]
    ensures r[p] == ps[p].(hook := Some(Hook(p, serial)), listeners := r[p].listeners)
    ensures q != p ==> r[p].listeners == ps[p].listeners
    ensures q != p ==> r[q] == ps[q].(listeners := r[q].listeners)
  {
    var h := Hook(p, serial);
    var ps1 := ps[p := ps[p].(hook := Some(h))];
    ps1[q := ps1[q].(listeners := ps1[q].listeners + [h])]
  }

  /** The root bookkeeping of `setRoot` (index.js:65-74): a pointer root is
      hooked with a fresh closure after unhooking a previous pointer root; a
      raw root only clears the chained flag, leaving any old hook in place. */
  function Rebind(ps: Table, p: PtrId, root: Root, serial: nat): (r: Table)
    requires p in ps
    requires ps[p].chained ==> ps[p].hook.Some? && ps[p].root.Chained? && ps[p].root.parent in ps
    requires root.Chained? ==> root.parent in ps && root.parent != p
    ensures r.Keys == ps.Keys
    ensures r[p] == ps[p].(root := root, chained := root.Chained?,
                           hook := if root.Chained? then Some(Hook(p, serial)) else ps[p].hook,
                           listeners := r[p].listeners)
    ensures forall x :: x in ps && x != p ==> r[x] == ps[x].(listeners := r[x].listeners)
  {
    match root
    case Raw(_) =>
      var ps1 := ps[p := ps[p].(chained := false)];
      ps1[p := ps1[p].(root := root)]
    case Chained(q) =>
      var ps1 := HookOn(Unhook(ps, p), p, q, serial);
      var ps2 := ps1[p := ps1[p].(chained := true)];
      ps2[p := ps2[p].(root := root)]
  }

  /** Assigning a pointer root registers the new hook on it and removes the
      previous hook of a chained pointer from its old root; assigning a raw
      root leaves every listener list as it was, so a previous hook stays
      registered. */
  lemma RebindHooks(ps: Table, p: PtrId, root: Root, serial: nat)
    requires p in ps && HooksBelow(ps, serial)
    requires ps[p].chained ==> ps[p].hook.Some? && ps[p].root.Chained? && ps[p].root.parent in ps
    requires root.Chained? ==> root.parent in ps && root.parent != p
    ensures var r := Rebind(ps, p, root, serial);
            && (root.Chained? ==> Hook(p, serial) in r[root.parent].listeners)
            && (root.Chained? && ps[p].chained ==> ps[p].hook.value !in r[ps[p].root.parent].listeners)
            && (root.Raw? ==> forall x :: x in ps ==> r[x].listeners == ps[x].listeners)
  {
    if root.Chained? && ps[p].chained {
      var r := Rebind(ps, p, root, serial);
      var u := Unhook(ps, p);
      var old_ := ps[p].hook.value;
      assert old_.serial < serial;
      assert old_ !in u[ps[p].root.parent].listeners;
    }
  }

  /** New ranks once `p` is re-rooted on `q`: everything whose chain passes
      through `p` moves above `q`. */
  ghost function Rerank(ps: Table, rank: Ranks, p: PtrId, q: PtrId): Ranks
    requires Ranked(ps, rank) && q in ps
  {
    map x | x in rank :: if x in ps && InChain(ps, rank, p, x) then rank[x] + rank[q] + 1 else rank[x]
  }

  /** Moving the root of `p` onto `q` keeps chains acyclic under the new
      ranks, as long as `q` does not have `p` on its own chain. */
  lemma RerankRanked(ps: Table, ps2: Table, rank: Ranks, p: PtrId, q: PtrId)
    requires Ranked(ps, rank) && p in ps && q in ps && !InChain(ps, rank, p, q)
    requires ps2.Keys == ps.Keys && ps2[p].root == Chained(q)
    requires forall x :: x in ps && x != p ==> ps2[x].root == ps[x].root
    ensures Ranked(ps2, Rerank(ps, rank, p, q))
  {
    var r2 := Rerank(ps, rank, p, q);
    forall x | x in ps2
      ensures x in r2 && (ps2[x].root.Chained? ==>
        ps2[x].root.parent in ps2 && ps2[x].root.parent in r2 && r2[ps2[x].root.parent] < r2[x])
    {
      if ps2[x].root.Chained? {
        var y := ps2[x].root.parent;
        if x == p {
          assert r2[q] == rank[q];
        } else {
          assert InChain(ps, rank, p, x) == InChain(ps, rank, p, y);
        }
      }
    }
  }

  /** Moving a root onto a raw object removes a link and keeps the ranks. */
  lemma UnchainRanked(ps: Table, ps2: Table, rank: Ranks, p: PtrId)
    requires Ranked(ps, rank) && p in ps
    requires ps2.Keys == ps.Keys && ps2[p].root.Raw?
    requires forall x :: x in ps && x != p ==> ps2[x].root == ps[x].root
    ensures Ranked(ps2, rank)
  {
  }

  lemma RebindRanked(ps: Table, rank: Ranks, p: PtrId, root: Root, serial: nat)
    requires Ranked(ps, rank) && p in ps
    requires ps[p].chained ==> ps[p].hook.Some? && ps[p].root.Chained? && ps[p].root.parent in ps
    requires root.Chained? ==> root.parent in ps && !InChain(ps, rank, p, root.parent)
    ensures root.Chained? ==> Ranked(Rebind(ps, p, root, serial), Rerank(ps, rank, p, root.parent))
    ensures root.Raw? ==> Ranked(Rebind(ps, p, root, serial), rank)
  {
    var ps2 := Rebind(ps, p, root, serial);
    if root.Chained? {
      RerankRanked(ps, ps2, rank, p, root.parent);
    } else {
      UnchainRanked(ps, ps2, rank, p);
    }
  }

  /** Rebinding `p` takes away at most the old hook of `p` from a listener
      list and adds at most its new hook. */
  lemma RebindListeners(ps: Table, p: PtrId, root: Root, serial: nat, x: PtrId)
    requires p in ps && x in ps
    requires ps[p].chained ==> ps[p].hook.Some? && ps[p].hook.value.owner == p
                               && ps[p].root.Chained? && ps[p].root.parent in ps
    requires root.Chained? ==> root.parent in ps && root.parent != p
    ensures var l := Rebind(ps, p, root, serial)[x].listeners;
            && (forall h :: h in l ==> h in ps[x].listeners || h == Hook(p, serial))
            && (forall h :: h in ps[x].listeners && h.owner != p ==> h in l)
            && (root.Chained? && x == root.parent ==> Hook(p, serial) in l)
  {
    var u := Unhook(ps, p);
    assert forall h :: h in u[x].listeners ==> h in ps[x].listeners;
    assert forall h :: h in ps[x].listeners && h.owner != p ==> h in u[x].listeners;
  }

  lemma RebindRecOk(t: Tree, ps: Table, rank: Ranks, p: PtrId, root: Root, serial: nat, x: PtrId)
    requires TableOk(t, ps, rank) && p in ps && x in ps
    requires root.Raw? ==> root.obj in t.objs
    requires root.Chained? ==> root.parent in ps && !InChain(ps, rank, p, root.parent)
    ensures var ps2 := Rebind(ps, p, root, serial);
            RecOk(t, ps2, x)
  {
    assert RecOk(t, ps, p);
    assert RecOk(t, ps, x);
    var ps2 := Rebind(ps, p, root, serial);
    RebindListeners(ps, p, root, serial, x);
    if x != p && ps[x].chained {
      var y := ps[x].root.parent;
      RebindListeners(ps, p, root, serial, y);
      assert ps[x].hook.value.owner == x;
    }
    if x == p && root.Chained? {
      RebindListeners(ps, p, root, serial, root.parent);
    }
  }

  /** Re-rooting keeps every record consistent with the store and the
      listener lists. */
  lemma RebindOk(t: Tree, ps: Table, rank: Ranks, p: PtrId, root: Root, serial: nat)
    requires TableOk(t, ps, rank) && p in ps
    requires root.Raw? ==> root.obj in t.objs
    requires root.Chained? ==> root.parent in ps && !InChain(ps, rank, p, root.parent)
    ensures var ps2 := Rebind(ps, p, root, serial);
            forall x :: x in ps2 ==> RecOk(t, ps2, x)
  {
    forall x | x in Rebind(ps, p, root, serial) ensures RecOk(t, Rebind(ps, p, root, serial), x) {
      RebindRecOk(t, ps, rank, p, root, serial, x);
    }
  }

  /** Rebinding `p` changes no other pointer's root, location, flag or hook. */
  lemma RebindSteady(ps: Table, p: PtrId, root: Root, serial: nat)
    requires p in ps
    requires ps[p].chained ==> ps[p].hook.Some? && ps[p].root.Chained? && ps[p].root.parent in ps
    requires root.Chained? ==> root.parent in ps && root.parent != p
    ensures Steady(ps, Rebind(ps, p, root, serial), p)
  {
    var r := Rebind(ps, p, root, serial);
    forall x | x in ps && x != p ensures SameBinding(ps[x], r[x]) {
      assert r[x] == ps[x].(listeners := r[x].listeners);
    }
  }

  /** The serials stay below the counter once it is advanced. */
  lemma RebindHooksBelow(ps: Table, p: PtrId, root: Root, serial: nat)
    requires p in ps && HooksBelow(ps, serial)
    requires ps[p].chained ==> ps[p].hook.Some? && ps[p].root.Chained? && ps[p].root.parent in ps
    requires root.Chained? ==> root.parent in ps && root.parent != p
    ensures HooksBelow(Rebind(ps, p, root, serial), serial + 1)
  {
    var r := Rebind(ps, p, root, serial);
    forall x | x in r
      ensures r[x].hook.Some? ==> r[x].hook.value.serial < serial + 1
      ensures forall h :: h in r[x].listeners ==> h.serial < serial + 1
    {
      forall h | h in r[x].listeners ensures h.serial < serial + 1 {
        if root.Chained? {
          var u := Unhook(ps, p);
          assert h in u[x].listeners || h == Hook(p, serial);
        }
      }
    }
  }
}
