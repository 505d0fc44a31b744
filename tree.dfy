/**
  The shared tree of nested JavaScript objects, and the child resolver the
  pointer relies on (the `retrieve-object-child` module): a non-forcing walk
  `Walk`, a forcing walk `Force` that creates missing levels, the lookup part
  of `get` and the delete-and-prune recursion of `clear`.
 */
module ObjectTree {
  import opened Values

  /** The own enumerable keys of one object and what they hold. */
  type Obj = map<string, Val>

  /** Every object of the heap, by identity; `next` is the next fresh identity. */
  datatype Tree = Tree(objs: map<ObjId, Obj>, next: ObjId)

  /** Forced-walk results: the new tree and the value reached. */
  datatype Forced = Forced(t: Tree, v: Val)

  ghost predicate Closed(t: Tree, v: Val) {
    v.Ref? ==> v.id in t.objs
  }

  /** Identities are below `next` and every reference names a stored object. */
  ghost predicate Valid(t: Tree) {
    && (forall id :: id in t.objs ==> id < t.next)
    && (forall id, k :: id in t.objs && k in t.objs[id] ==> Closed(t, t.objs[id][k]))
  }

  /** References only point from older objects to newer ones.  A store of this
      shape has no cycles and shares no object along a path; forced creation
      keeps it so. */
  ghost predicate Layered(t: Tree) {
    forall id, k :: id in t.objs && k in t.objs[id] && t.objs[id][k].Ref? ==> id < t.objs[id][k].id
  }

  /** A non-empty path is its prefix followed by its final key. */
  lemma SplitLast(path: seq<string>)
    requires path != []
    ensures path == path[..|path| - 1] + [path[|path| - 1]]
  {
  }

  /** `o[k]`: a missing key reads as `undefined`. */
  function Read(t: Tree, id: ObjId, k: string): (r: Val)
    requires id in t.objs
    ensures Valid(t) ==> Closed(t, r)
    ensures r != Undefined ==> k in t.objs[id] && r == t.objs[id][k]
  {
    if k in t.objs[id] then t.objs[id][k] else Undefined
  }

  /** Non-forcing resolution of `path` from object `id`.  A primitive met
      before the end of the path gives `undefined`. */
  function Walk(t: Tree, id: ObjId, path: seq<string>): (r: Val)
    requires Valid(t) && id in t.objs
    ensures Closed(t, r)
    decreases |path|
  {
    if path == [] then Ref(id)
    else
      var v := Read(t, id, path[0]);
      if |path| == 1 then v
      else if v.Ref? then Walk(t, v.id, path[1..])
      else Undefined
  }

  /** `t2` is `t` with new objects and with new values under keys that read
      `undefined` in `t`; nothing defined in `t` changes. */
  ghost predicate Extends(t: Tree, t2: Tree) {
    && t.next <= t2.next
    && (forall id :: id in t.objs ==> id in t2.objs)
    && (forall id, k :: id in t.objs && k in t.objs[id] && t.objs[id][k] != Undefined ==>
          id in t2.objs && k in t2.objs[id] && t2.objs[id][k] == t.objs[id][k])
  }

  /** Forcing resolution: every level that reads `undefined` is replaced by a
      fresh empty object.  A primitive in the way stops the walk with
      `undefined` and nothing more is created. */
  function Force(t: Tree, id: ObjId, path: seq<string>): (r: Forced)
    requires Valid(t) && id in t.objs
    ensures Valid(r.t) && Extends(t, r.t) && Closed(r.t, r.v)
    decreases |path|
  {
    if path == [] then Forced(t, Ref(id))
    else
      var k := path[0];
      var v := Read(t, id, k);
      if v == Undefined then
        Force(Grow(t, id, k), t.next, path[1..])
      else if |path| == 1 then Forced(t, v)
      else if v.Ref? then Force(t, v.id, path[1..])
      else Forced(t, Undefined)
  }

  /** A fresh empty object stored under `k` of object `id`. */
  function Grow(t: Tree, id: ObjId, k: string): (r: Tree)
    requires Valid(t) && id in t.objs
    ensures Valid(r) && r.next == t.next + 1 && t.next !in t.objs
    ensures r.objs.Keys == t.objs.Keys + {t.next} && r.objs[t.next] == map[]
    ensures Read(r, id, k) == Ref(t.next)
    ensures forall o :: o in t.objs && o != id ==> r.objs[o] == t.objs[o]
    ensures Read(t, id, k) == Undefined ==> Extends(t, r)
    ensures Layered(t) ==> Layered(r)
  {
    Tree(t.objs[id := t.objs[id][k := Ref(t.next)]][t.next := map[]], t.next + 1)
  }

  /** `o[k] = v`. */
  function Assign(t: Tree, id: ObjId, k: string, v: Val): (r: Tree)
    requires Valid(t) && id in t.objs && Closed(t, v)
    ensures Valid(r) && r.objs.Keys == t.objs.Keys
    ensures Read(r, id, k) == v
    ensures forall o :: o in t.objs && o != id ==> r.objs[o] == t.objs[o]
  {
    Tree(t.objs[id := t.objs[id][k := v]], t.next)
  }

  /** `delete o[k]`. */
  function Delete(t: Tree, id: ObjId, k: string): (r: Tree)
    requires Valid(t) && id in t.objs
    ensures Valid(r) && r.objs.Keys == t.objs.Keys
    ensures k !in r.objs[id] && r.objs[id] == t.objs[id] - {k}
    ensures Layered(t) ==> Layered(r)
  {
    Tree(t.objs[id := t.objs[id] - {k}], t.next)
  }

  lemma ExtendsRead(t: Tree, t2: Tree, id: ObjId, k: string)
    requires Extends(t, t2) && id in t.objs && Read(t, id, k) != Undefined
    ensures id in t2.objs && Read(t2, id, k) == Read(t, id, k)
  {
  }

  lemma ExtendsTransitive(t1: Tree, t2: Tree, t3: Tree)
    requires Extends(t1, t2) && Extends(t2, t3)
    ensures Extends(t1, t3)
  {
  }

  /** Resolving one key more: the walk of `path + [k]` reads `k` off whatever
      the walk of `path` reached, when that is an object. */
  lemma {:induction false} WalkAppend(t: Tree, id: ObjId, path: seq<string>, k: string)
    requires Valid(t) && id in t.objs
    ensures var o := Walk(t, id, path);
            Walk(t, id, path + [k]) == if o.Ref? then Read(t, o.id, k) else Undefined
    decreases |path|
  {
    if path != [] {
      assert (path + [k])[0] == path[0];
      assert (path + [k])[1..] == path[1..] + [k];
      var v := Read(t, id, path[0]);
      if v.Ref? && |path| > 1 {
        WalkAppend(t, v.id, path[1..], k);
      }
    }
  }

  /** After forcing, a non-forcing walk of the same path finds what the
      forced walk returned. */
  lemma {:induction false} ForceThenWalk(t: Tree, id: ObjId, path: seq<string>)
    requires Valid(t) && id in t.objs
    ensures var f := Force(t, id, path); id in f.t.objs && Walk(f.t, id, path) == f.v
    decreases |path|
  {
    if path != [] {
      var k := path[0];
      var v := Read(t, id, k);
      var f := Force(t, id, path);
      if v == Undefined {
        var n := t.next;
        var t1 := Grow(t, id, k);
        ForceThenWalk(t1, n, path[1..]);
        ExtendsRead(t1, f.t, id, k);
      } else if |path| > 1 && v.Ref? {
        ForceThenWalk(t, v.id, path[1..]);
        ExtendsRead(t, f.t, id, k);
      }
    }
  }

  /** Forcing a path that already leads to an object creates nothing. */
  lemma {:induction false} ForceExisting(t: Tree, id: ObjId, path: seq<string>)
    requires Valid(t) && id in t.objs && Walk(t, id, path).Ref?
    ensures Force(t, id, path) == Forced(t, Walk(t, id, path))
    decreases |path|
  {
    if |path| > 1 {
      var v := Read(t, id, path[0]);
      ForceExisting(t, v.id, path[1..]);
    }
  }

  /** No primitive stands in the way: every level either reads `undefined`
      or is an object. */
  ghost predicate Open(t: Tree, id: ObjId, path: seq<string>)
    requires Valid(t) && id in t.objs
    decreases |path|
  {
    path == [] ||
    var v := Read(t, id, path[0]);
    v == Undefined || (v.Ref? && Open(t, v.id, path[1..]))
  }

  /** Forcing an open path always yields an object. */
  lemma {:induction false} ForceOpen(t: Tree, id: ObjId, path: seq<string>)
    requires Valid(t) && id in t.objs && Open(t, id, path)
    ensures Force(t, id, path).v.Ref?
    decreases |path|
  {
    if path != [] {
      var k := path[0];
      var v := Read(t, id, k);
      if v == Undefined {
        var n := t.next;
        var t1 := Grow(t, id, k);
        assert path[1..] != [] ==> Read(t1, n, path[1..][0]) == Undefined;
        ForceOpen(t1, n, path[1..]);
      } else {
        ForceOpen(t, v.id, path[1..]);
      }
    }
  }

  /** Forcing the first part of an open path yields an object below which
      the rest of the path is still open: what forcing creates is empty. */
  lemma {:induction false} ForceOpenSplit(t: Tree, id: ObjId, a: seq<string>, b: seq<string>)
    requires Valid(t) && id in t.objs && Open(t, id, a + b)
    ensures var f := Force(t, id, a); f.v.Ref? && f.v.id in f.t.objs && Open(f.t, f.v.id, b)
    decreases |a|
  {
    if a == [] {
      assert a + b == b;
    } else {
      var k := a[0];
      var v := Read(t, id, k);
      assert (a + b)[0] == k && (a + b)[1..] == a[1..] + b;
      if v == Undefined {
        var n := t.next;
        var t1 := Grow(t, id, k);
        assert a[1..] + b != [] ==> Read(t1, n, (a[1..] + b)[0]) == Undefined;
        ForceOpenSplit(t1, n, a[1..], b);
      } else {
        ForceOpenSplit(t, v.id, a[1..], b);
      }
    }
  }

  /** Forced creation keeps references pointing from older to newer objects. */
  lemma {:induction false} ForceLayered(t: Tree, id: ObjId, path: seq<string>)
    requires Valid(t) && id in t.objs && Layered(t)
    ensures Layered(Force(t, id, path).t)
    decreases |path|
  {
    if path != [] {
      var k := path[0];
      var v := Read(t, id, k);
      if v == Undefined {
        var n := t.next;
        var t1 := Grow(t, id, k);
        ForceLayered(t1, n, path[1..]);
      } else if |path| > 1 && v.Ref? {
        ForceLayered(t, v.id, path[1..]);
      }
    }
  }

  /** In a layered store every step of a walk goes to a newer object. */
  lemma {:induction false} WalkAscends(t: Tree, id: ObjId, path: seq<string>)
    requires Valid(t) && id in t.objs && Layered(t)
    requires path != [] && Walk(t, id, path).Ref?
    ensures id < Walk(t, id, path).id
    decreases |path|
  {
    var v := Read(t, id, path[0]);
    if |path| > 1 {
      WalkAscends(t, v.id, path[1..]);
    }
  }

  /** The objects a walk reads from, and the one it ends on. */
  ghost function Visits(t: Tree, id: ObjId, path: seq<string>): set<ObjId>
    requires Valid(t) && id in t.objs
    decreases |path|
  {
    {id} +
    if path == [] then {}
    else
      var v := Read(t, id, path[0]);
      if v.Ref? then Visits(t, v.id, path[1..]) else {}
  }

  lemma {:induction false} WalkEndVisited(t: Tree, id: ObjId, path: seq<string>)
    requires Valid(t) && id in t.objs && Walk(t, id, path).Ref?
    ensures Walk(t, id, path).id in Visits(t, id, path)
    decreases |path|
  {
    if path != [] {
      var v := Read(t, id, path[0]);
      if |path| > 1 {
        WalkEndVisited(t, v.id, path[1..]);
      }
    }
  }

  lemma {:induction false} VisitsPrefix(t: Tree, id: ObjId, path: seq<string>, k: string)
    requires Valid(t) && id in t.objs
    ensures Visits(t, id, path) <= Visits(t, id, path + [k])
    decreases |path|
  {
    if path != [] {
      assert (path + [k])[0] == path[0];
      assert (path + [k])[1..] == path[1..] + [k];
      var v := Read(t, id, path[0]);
      if v.Ref? {
        VisitsPrefix(t, v.id, path[1..], k);
      }
    }
  }

  /** Changing objects of a layered store no older than `e` affects no walk
      that ends on an object no newer than `e`: such a walk only reads older
      objects. */
  lemma {:induction false} WalkBelow(t: Tree, t2: Tree, id: ObjId, path: seq<string>, e: ObjId)
    requires Valid(t) && Valid(t2) && Layered(t) && id in t.objs
    requires t2.objs.Keys == t.objs.Keys
    requires forall o :: o in t.objs && o < e ==> t2.objs[o] == t.objs[o]
    requires Walk(t, id, path).Ref? && Walk(t, id, path).id <= e
    ensures Walk(t2, id, path) == Walk(t, id, path)
    ensures Visits(t2, id, path) == Visits(t, id, path)
    decreases |path|
  {
    if path != [] {
      WalkAscends(t, id, path);
      assert t2.objs[id] == t.objs[id];
      var v := Read(t, id, path[0]);
      if |path| > 1 {
        WalkBelow(t, t2, v.id, path[1..], e);
      }
    }
  }

  /** The lookup part of `get`: split off the final key, resolve the rest
      (non-forcing), then read the final key; `undefined` anywhere gives the
      default.  The empty path gives the location object itself. */
  function Lookup(t: Tree, id: ObjId, path: seq<string>, default: Val): (r: Val)
    requires Valid(t) && id in t.objs
    ensures path == [] ==> r == Ref(id)
    ensures r == default || (r != Undefined && Closed(t, r))
  {
    if path == [] then Ref(id)
    else
      var k := path[|path| - 1];
      var prefix := path[..|path| - 1];
      var o := if |prefix| > 0 then Walk(t, id, prefix) else Ref(id);
      if o == Undefined then default
      else
        var v := if o.Ref? then Read(t, o.id, k) else Undefined;
        if v == Undefined then default else v
  }

  /** `get` is the non-forcing walk with a default: it returns the default
      exactly when nothing but `undefined` is found at the path. */
  lemma LookupIsWalk(t: Tree, id: ObjId, path: seq<string>, default: Val)
    requires Valid(t) && id in t.objs
    ensures var w := Walk(t, id, path);
            Lookup(t, id, path, default) == if w == Undefined then default else w
  {
    if path != [] {
      var prefix := path[..|path| - 1];
      SplitLast(path);
      WalkAppend(t, id, prefix, path[|path| - 1]);
    }
  }

  /** `clear` below the location object `id`: for one key, delete it when it
      holds a truthy value; for a longer path, delete the final key from its
      container when truthy and, if the container is left without keys,
      clear the one-shorter path again. */
  function Prune(t: Tree, id: ObjId, path: seq<string>): (r: Tree)
    requires Valid(t) && id in t.objs && path != []
    ensures Valid(r) && r.objs.Keys == t.objs.Keys
    decreases |path|
  {
    if |path| == 1 then
      if Truthy(Read(t, id, path[0])) then Delete(t, id, path[0]) else t
    else
      var k := path[|path| - 1];
      var prefix := path[..|path| - 1];
      var o := Walk(t, id, prefix);
      if o.Ref? && Truthy(Read(t, o.id, k)) then
        var t1 := Delete(t, o.id, k);
        if t1.objs[o.id] == map[] then Prune(t1, id, prefix) else t1
      else t
  }

  /** A falsy value (or nothing) at the path: `clear` leaves the tree alone. */
  lemma PruneFalsy(t: Tree, id: ObjId, path: seq<string>)
    requires Valid(t) && id in t.objs && path != []
    requires !Truthy(Walk(t, id, path))
    ensures Prune(t, id, path) == t
  {
    if |path| > 1 {
      var prefix := path[..|path| - 1];
      SplitLast(path);
      WalkAppend(t, id, prefix, path[|path| - 1]);
    }
  }

  /** When the container of the final key keeps another key, `clear` deletes
      exactly that key and prunes nothing. */
  lemma PruneStopsAtNonEmpty(t: Tree, id: ObjId, path: seq<string>)
    requires Valid(t) && id in t.objs && |path| > 1
    requires Walk(t, id, path[..|path| - 1]).Ref?
    requires var e := Walk(t, id, path[..|path| - 1]).id;
             Truthy(Read(t, e, path[|path| - 1])) && t.objs[e].Keys != {path[|path| - 1]}
    ensures Prune(t, id, path) ==
              Delete(t, Walk(t, id, path[..|path| - 1]).id, path[|path| - 1])
  {
    var e := Walk(t, id, path[..|path| - 1]).id;
    var k := path[|path| - 1];
    var t1 := Delete(t, e, k);
    assert t1.objs[e] != map[] by {
      var j :| j in t.objs[e].Keys && j != k;
      assert j in t1.objs[e];
    }
  }

  /** `t2` is `t` with some keys deleted: the same objects, and every key
      left holds what it held. */
  ghost predicate Shrunk(t: Tree, t2: Tree) {
    && t2.objs.Keys == t.objs.Keys
    && (forall o :: o in t.objs ==> t2.objs[o].Keys <= t.objs[o].Keys)
    && (forall o, k :: o in t.objs && k in t2.objs[o] ==> t2.objs[o][k] == t.objs[o][k])
  }

  /** Deleting keys only cuts walks short: a walk in the shrunk store gives
      `undefined` or what it gave before, and passes no object it did not
      pass before. */
  lemma {:induction false} WalkShrunk(t: Tree, t2: Tree, id: ObjId, path: seq<string>)
    requires Valid(t) && Valid(t2) && Shrunk(t, t2) && id in t.objs
    ensures Walk(t2, id, path) == Undefined || Walk(t2, id, path) == Walk(t, id, path)
    ensures Visits(t2, id, path) <= Visits(t, id, path)
    decreases |path|
  {
    if path != [] {
      var v := Read(t2, id, path[0]);
      assert v == Undefined || v == Read(t, id, path[0]);
      if v.Ref? {
        WalkShrunk(t, t2, v.id, path[1..]);
      }
    }
  }

  /** A truthy value cleared from `path` is gone afterwards; when its
      container held nothing else (and the path is longer than one key),
      the container itself is gone from its parent too. */
  lemma {:induction false} PruneRemoves(t: Tree, id: ObjId, path: seq<string>)
    requires Valid(t) && id in t.objs && path != []
    requires Truthy(Walk(t, id, path))
    ensures Walk(Prune(t, id, path), id, path) == Undefined
    ensures |path| > 1 && t.objs[Walk(t, id, path[..|path| - 1]).id].Keys == {path[|path| - 1]} ==>
              Walk(Prune(t, id, path), id, path[..|path| - 1]) == Undefined
    decreases |path|
  {
    var k := path[|path| - 1];
    var prefix := path[..|path| - 1];
    SplitLast(path);
    WalkAppend(t, id, prefix, k);
    if |path| > 1 {
      var e := Walk(t, id, prefix).id;
      var t1 := Delete(t, e, k);
      WalkShrunk(t, t1, id, prefix);
      WalkAppend(t1, id, prefix, k);
      assert Walk(t1, id, path) == Undefined;
      if t1.objs[e] == map[] {
        var r := Prune(t1, id, prefix);
        PruneShrinks(t1, id, prefix);
        WalkShrunk(t1, r, id, path);
        if Walk(t1, id, prefix) == Ref(e) {
          PruneRemoves(t1, id, prefix);
        } else {
          WalkShrunk(t1, r, id, prefix);
        }
      } else {
        assert t.objs[e].Keys != {k} by {
          var j :| j in t1.objs[e];
        }
      }
    }
  }

  /** Along a walk that reaches a sole-key container at every step from `i`
      up to `m` and an object at `m`, the objects reached are ever newer in a
      layered store. */
  lemma {:induction false} WalkPrefixAscends(t: Tree, id: ObjId, path: seq<string>, i: nat, m: nat)
    requires Valid(t) && Layered(t) && id in t.objs && i < m <= |path|
    requires forall l :: i <= l < m ==> SoleKeyAt(t, id, path, l)
    requires Walk(t, id, path[..m]).Ref?
    ensures Walk(t, id, path[..i]).Ref? && Walk(t, id, path[..i]).id < Walk(t, id, path[..m]).id
    decreases m - i
  {
    assert SoleKeyAt(t, id, path, i);
    var a := Walk(t, id, path[..i]);
    assert path[..i + 1] == path[..i] + [path[i]];
    WalkAppend(t, id, path[..i], path[i]);
    assert Walk(t, id, path[..i + 1]) == Read(t, a.id, path[i]);
    if i + 1 < m {
      assert SoleKeyAt(t, id, path, i + 1);
      WalkPrefixAscends(t, id, path, i + 1, m);
    }
  }

  /** The container the path reaches at depth `i` holds the next key of the
      path and nothing else. */
  ghost predicate SoleKeyAt(t: Tree, id: ObjId, path: seq<string>, i: nat)
    requires Valid(t) && id in t.objs && i < |path|
  {
    Walk(t, id, path[..i]).Ref? && t.objs[Walk(t, id, path[..i]).id].Keys == {path[i]}
  }

  /** Every container from depth `j` down to the final key holds only the
      next key of the path. */
  ghost predicate SoleKeysFrom(t: Tree, id: ObjId, path: seq<string>, j: nat)
    requires Valid(t) && id in t.objs
  {
    forall i :: j <= i < |path| ==> SoleKeyAt(t, id, path, i)
  }

  /** `clear` prunes every emptied container on its way up: when each
      container from depth `j` down to the final key holds nothing but the
      next key of the path, every one of them is deleted, so the path cut at
      depth `j` reads `undefined` afterwards. */
  lemma {:induction false} PruneCascade(t: Tree, id: ObjId, path: seq<string>, j: nat)
    requires Valid(t) && Layered(t) && id in t.objs && 1 <= j < |path|
    requires Truthy(Walk(t, id, path))
    requires SoleKeysFrom(t, id, path, j)
    ensures Walk(Prune(t, id, path), id, path[..j]) == Undefined
    decreases |path|
  {
    var n := |path|;
    var prefix := path[..n - 1];
    assert SoleKeyAt(t, id, path, n - 1);
    var e := Walk(t, id, prefix).id;
    var t1 := Delete(t, e, path[n - 1]);
    PruneCascadeStep(t, id, path, j, e);
    if j == n - 1 {
      PruneRemoves(t1, id, prefix);
    } else {
      PruneCascade(t1, id, prefix, j);
    }
  }

  /** One round of the cascade: the final key's container `e` is emptied and
      pruning goes on with the prefix, whose containers are untouched. */
  lemma PruneCascadeStep(t: Tree, id: ObjId, path: seq<string>, j: nat, e: ObjId)
    requires Valid(t) && Layered(t) && id in t.objs && 1 <= j < |path|
    requires Truthy(Walk(t, id, path))
    requires SoleKeysFrom(t, id, path, j)
    requires Walk(t, id, path[..|path| - 1]) == Ref(e)
    ensures var prefix := path[..|path| - 1];
            var t1 := Delete(t, e, path[|path| - 1]);
            && Layered(t1)
            && Prune(t, id, path) == Prune(t1, id, prefix)
            && Walk(t1, id, prefix) == Ref(e)
            && prefix[..j] == path[..j] && (j == |prefix| ==> path[..j] == prefix)
            && SoleKeysFrom(t1, id, prefix, j)
  {
    var n := |path|;
    var k := path[n - 1];
    var prefix := path[..n - 1];
    SplitLast(path);
    WalkAppend(t, id, prefix, k);
    assert SoleKeyAt(t, id, path, n - 1);
    var t1 := Delete(t, e, k);
    assert t1.objs[e] == map[];
    WalkBelow(t, t1, id, prefix, e);
    CascadeKeepsAbove(t, id, path, j, e);
  }

  /** The containers above the emptied one are older than it, so deleting
      from it leaves each of them holding its single key. */
  lemma CascadeKeepsAbove(t: Tree, id: ObjId, path: seq<string>, j: nat, e: ObjId)
    requires Valid(t) && Layered(t) && id in t.objs && 1 <= j < |path|
    requires SoleKeysFrom(t, id, path, j)
    requires Walk(t, id, path[..|path| - 1]) == Ref(e)
    ensures SoleKeysFrom(Delete(t, e, path[|path| - 1]), id, path[..|path| - 1], j)
  {
    var n := |path|;
    var prefix := path[..n - 1];
    var t1 := Delete(t, e, path[n - 1]);
    forall i | j <= i < |prefix|
      ensures SoleKeyAt(t1, id, prefix, i)
    {
      CascadeKeepsAt(t, id, path, j, e, i);
    }
  }

  /** The same for one depth `i`. */
  lemma CascadeKeepsAt(t: Tree, id: ObjId, path: seq<string>, j: nat, e: ObjId, i: nat)
    requires Valid(t) && Layered(t) && id in t.objs && 1 <= j <= i < |path| - 1
    requires SoleKeysFrom(t, id, path, j)
    requires Walk(t, id, path[..|path| - 1]) == Ref(e)
    ensures SoleKeyAt(Delete(t, e, path[|path| - 1]), id, path[..|path| - 1], i)
  {
    var prefix := path[..|path| - 1];
    var t1 := Delete(t, e, path[|path| - 1]);
    assert SoleKeyAt(t, id, path, i);
    assert prefix[..i] == path[..i];
    WalkPrefixAscends(t, id, path, i, |path| - 1);
    WalkBelow(t, t1, id, path[..i], e);
  }

  /** `clear` never removes an object from the store and only removes
      keys; a layered store stays layered. */
  lemma {:induction false} PruneShrinks(t: Tree, id: ObjId, path: seq<string>)
    requires Valid(t) && id in t.objs && path != []
    ensures var r := Prune(t, id, path);
            && Shrunk(t, r)
            && (Layered(t) ==> Layered(r))
    decreases |path|
  {
    if |path| > 1 {
      var k := path[|path| - 1];
      var prefix := path[..|path| - 1];
      var o := Walk(t, id, prefix);
      if o.Ref? && Truthy(Read(t, o.id, k)) {
        var t1 := Delete(t, o.id, k);
        if t1.objs[o.id] == map[] {
          PruneShrinks(t1, id, prefix);
        }
      }
    }
  }

  /** `clear` only changes objects its walk of the prefix passes through:
      everything off the path is untouched. */
  lemma {:induction false} PruneFrame(t: Tree, id: ObjId, path: seq<string>)
    requires Valid(t) && id in t.objs && path != []
    ensures var r := Prune(t, id, path);
            forall o :: o in t.objs && o !in Visits(t, id, path[..|path| - 1]) ==> r.objs[o] == t.objs[o]
    decreases |path|, 0
  {
    if |path| > 1 {
      var k := path[|path| - 1];
      var prefix := path[..|path| - 1];
      var o := Walk(t, id, prefix);
      if o.Ref? && Truthy(Read(t, o.id, k)) {
        var t1 := Delete(t, o.id, k);
        WalkEndVisited(t, id, prefix);
        if t1.objs[o.id] == map[] {
          PruneFrameUp(t, t1, id, prefix);
        }
      }
    }
  }

  /** The recursive step of `PruneFrame`: pruning the prefix after one
      deletion stays inside the objects the original prefix visits. */
  lemma {:induction false} PruneFrameUp(t: Tree, t1: Tree, id: ObjId, prefix: seq<string>)
    requires Valid(t) && Valid(t1) && Shrunk(t, t1) && id in t.objs && prefix != []
    ensures forall x :: x in t1.objs && x !in Visits(t, id, prefix) && x !in Visits(t1, id, prefix[..|prefix| - 1]) ==>
              Prune(t1, id, prefix).objs[x] == t1.objs[x]
    ensures Visits(t1, id, prefix[..|prefix| - 1]) <= Visits(t, id, prefix)
    decreases |prefix|, 1
  {
    var pre2 := prefix[..|prefix| - 1];
    PruneFrame(t1, id, prefix);
    WalkShrunk(t, t1, id, pre2);
    assert prefix == pre2 + [prefix[|prefix| - 1]];
    VisitsPrefix(t, id, pre2, prefix[|prefix| - 1]);
  }

  /** Growing a store keeps every defined walk. */
  lemma {:induction false} WalkExtends(t: Tree, t2: Tree, id: ObjId, path: seq<string>)
    requires Valid(t) && Valid(t2) && Extends(t, t2) && id in t.objs
    requires Walk(t, id, path) != Undefined
    ensures id in t2.objs && Walk(t2, id, path) == Walk(t, id, path)
    decreases |path|
  {
    if path != [] {
      var v := Read(t, id, path[0]);
      ExtendsRead(t, t2, id, path[0]);
      if |path| > 1 {
        WalkExtends(t, t2, v.id, path[1..]);
      }
    }
  }

  /** In a layered store a walk only visits its start and newer objects. */
  lemma {:induction false} VisitsAbove(t: Tree, id: ObjId, path: seq<string>)
    requires Valid(t) && Layered(t) && id in t.objs
    ensures forall o :: o in Visits(t, id, path) ==> id <= o
    decreases |path|
  {
    if path != [] {
      var v := Read(t, id, path[0]);
      if v.Ref? {
        VisitsAbove(t, v.id, path[1..]);
      }
    }
  }

  /** `clear` below a location object never detaches it: in a layered store
      every walk that reached the location object still does. */
  lemma PruneKeepsLocation(t: Tree, id: ObjId, path: seq<string>, start: ObjId, w: seq<string>)
    requires Valid(t) && Layered(t) && id in t.objs && path != [] && start in t.objs
    requires Walk(t, start, w) == Ref(id)
    ensures Walk(Prune(t, id, path), start, w) == Ref(id)
  {
    PruneFrame(t, id, path);
    VisitsAbove(t, id, path[..|path| - 1]);
    WalkBelow(t, Prune(t, id, path), start, w, id);
  }

  /** Writing `v` under `k` of the object a walk reaches, in a layered store,
      makes the lookup of the longer path find `v`. */
  lemma AssignThenLookup(t: Tree, id: ObjId, prefix: seq<string>, k: string, v: Val, default: Val)
    requires Valid(t) && Layered(t) && id in t.objs && Closed(t, v) && Walk(t, id, prefix).Ref?
    ensures Lookup(Assign(t, Walk(t, id, prefix).id, k, v), id, prefix + [k], default) ==
              if v == Undefined then default else v
  {
    var e := Walk(t, id, prefix).id;
    var t2 := Assign(t, e, k, v);
    WalkBelow(t, t2, id, prefix, e);
    LookupIsWalk(t2, id, prefix + [k], default);
    WalkAppend(t2, id, prefix, k);
  }
}
