/**
  The place table as an in-memory forest: a sequence of places in table order,
  each pointing at its parent by id. Acyclicity is witnessed by a height map
  `h` in which every parent stands strictly higher than its children, so walks
  down (children) and up (parents) both terminate.
*/
module Forest {
  import opened Common
  import opened Domain

  /**
    A place row. `Place` is the newer app's row (core/models.py:200-212), with
    the defaults `inn = ''`, `is_mosque = False`, `employee_count = 0`;
    `TypedPlace` is the older app's row (mosques_app/core/models.py:175-184).
  */
  datatype Place =
    | Place(id: int, name: string, parent: Option<int>, inn: string, isMosque: bool, employeeCount: int)
    | TypedPlace(id: int, name: string, parent: Option<int>, placeType: PlaceType)

  type Store = seq<Place>

  /** `Place.objects.get(pk=id)`: the row, or `None` where Django raises `DoesNotExist`. */
  function Find(store: Store, id: int): (r: Option<Place>)
    ensures r.Some? ==> r.value in store && r.value.id == id
    ensures r.None? ==> forall p :: p in store ==> p.id != id
  {
    if |store| == 0 then None
    else if store[0].id == id then Some(store[0])
    else Find(store[1..], id)
  }

  /** `Place.objects.filter(parent=x)` in table order; `x = None` selects the root places. */
  function ChildrenOf(store: Store, x: Option<int>): (r: seq<Place>)
    ensures forall p :: p in r <==> p in store && p.parent == x
    ensures |r| <= |store|
  {
    if |store| == 0 then []
    else if store[0].parent == x then [store[0]] + ChildrenOf(store[1..], x)
    else ChildrenOf(store[1..], x)
  }

  /** The ids of the children of place `x`, in table order. */
  function ChildIds(store: Store, x: int): (r: seq<int>)
    ensures forall c :: c in r <==> exists p :: p in store && p.parent == Some(x) && p.id == c
  {
    if |store| == 0 then []
    else if store[0].parent == Some(x) then [store[0].id] + ChildIds(store[1..], x)
    else ChildIds(store[1..], x)
  }

  ghost predicate UniqueIds(store: Store)
  {
    forall i, j :: 0 <= i < j < |store| ==> store[i].id != store[j].id
  }

  /**
    The table is a forest: ids are unique, every parent exists (the foreign
    key), and `h` ranks every parent strictly above its children.
  */
  ghost predicate WellFormed(store: Store, h: map<int, nat>)
  {
    && UniqueIds(store)
    && (forall p :: p in store ==> p.id in h)
    && (forall p :: p in store && p.parent.Some? ==>
          Find(store, p.parent.value).Some? && p.parent.value in h && h[p.parent.value] > h[p.id])
  }

  /** `c`'s row names `x` as its parent. */
  ghost predicate ParentIs(store: Store, c: int, x: int)
  {
    exists p :: p in store && p.id == c && p.parent == Some(x)
  }

  /** `id` is `root` itself or lies somewhere below it. */
  ghost predicate InSubtree(store: Store, h: map<int, nat>, root: int, id: int)
    decreases if root in h then h[root] else 0
  {
    id == root
    || (root in h && exists c :: c in ChildIds(store, root) && c in h && h[c] < h[root] && InSubtree(store, h, c, id))
  }

  // ----- Facts about the forest -----

  lemma UniqueParent(store: Store, c: int, x: int, y: int)
    requires UniqueIds(store) && ParentIs(store, c, x) && ParentIs(store, c, y)
    ensures x == y
  {
    var p :| p in store && p.id == c && p.parent == Some(x);
    var q :| q in store && q.id == c && q.parent == Some(y);
    var i :| 0 <= i < |store| && store[i] == p;
    var j :| 0 <= j < |store| && store[j] == q;
    assert i == j;
  }

  lemma {:induction false} ChildIdsDistinct(store: Store, x: int)
    requires UniqueIds(store)
    ensures Distinct(ChildIds(store, x))
    decreases |store|
  {
    if |store| > 0 {
      ChildIdsDistinct(store[1..], x);
      var rest := ChildIds(store[1..], x);
      if store[0].parent == Some(x) {
        forall c | c in rest
          ensures c != store[0].id
        {
          var p :| p in store[1..] && p.parent == Some(x) && p.id == c;
          var k :| 0 <= k < |store[1..]| && store[1..][k] == p;
          assert store[k + 1] == p;
        }
        var r := [store[0].id] + rest;
        forall i, j | 0 <= i < j < |r|
          ensures r[i] != r[j]
        {
          if i == 0 {
            assert r[j] == rest[j - 1] && rest[j - 1] in rest;
          } else {
            assert r[i] == rest[i - 1] && r[j] == rest[j - 1];
          }
        }
      }
    }
  }

  /** With unique ids, looking a row's id up finds that very row. */
  lemma {:induction false} FindUnique(store: Store, p: Place)
    requires UniqueIds(store) && p in store
    ensures Find(store, p.id) == Some(p)
    decreases |store|
  {
    if store[0] != p {
      var i :| 0 <= i < |store| && store[i] == p;
      assert store[0].id != p.id;
      assert store[1..][i - 1] == p;
      FindUnique(store[1..], p);
    }
  }

  /** A child of a well-formed forest stands strictly below its parent. */
  lemma ChildBelow(store: Store, h: map<int, nat>, x: int, c: int)
    requires WellFormed(store, h) && c in ChildIds(store, x)
    ensures x in h && c in h && h[c] < h[x] && ParentIs(store, c, x)
  {
  }

  /** Adding a child of a subtree member keeps it in the subtree. */
  lemma {:induction false} SubtreeExtend(store: Store, h: map<int, nat>, root: int, x: int, c: int)
    requires WellFormed(store, h)
    requires InSubtree(store, h, root, x) && c in ChildIds(store, x)
    ensures InSubtree(store, h, root, c)
    decreases if root in h then h[root] else 0
  {
    ChildBelow(store, h, x, c);
    if x != root {
      var c' :| c' in ChildIds(store, root) && c' in h && h[c'] < h[root] && InSubtree(store, h, c', x);
      SubtreeExtend(store, h, c', x, c);
    }
  }

  /** Everything in a subtree stands no higher than its root. */
  lemma {:induction false} SubtreeHeight(store: Store, h: map<int, nat>, root: int, id: int)
    requires WellFormed(store, h) && InSubtree(store, h, root, id) && id != root
    ensures root in h && id in h && h[id] < h[root]
    decreases if root in h then h[root] else 0
  {
    var c :| c in ChildIds(store, root) && c in h && h[c] < h[root] && InSubtree(store, h, c, id);
    if c != id {
      SubtreeHeight(store, h, c, id);
    }
  }

  /**
    Read upwards: a place other than `root` lies in `root`'s subtree exactly
    when its parent does.
  */
  lemma {:induction false} SubtreeByParent(store: Store, h: map<int, nat>, root: int, id: int)
    requires WellFormed(store, h) && InSubtree(store, h, root, id) && id != root
    ensures exists x :: ParentIs(store, id, x) && InSubtree(store, h, root, x)
    decreases if root in h then h[root] else 0
  {
    var c :| c in ChildIds(store, root) && c in h && h[c] < h[root] && InSubtree(store, h, c, id);
    if c == id {
      assert ParentIs(store, id, root) && InSubtree(store, h, root, root);
    } else {
      SubtreeByParent(store, h, c, id);
      var x :| ParentIs(store, id, x) && InSubtree(store, h, c, x);
      assert InSubtree(store, h, root, x);
    }
  }

  /** A set of ids containing `x` and closed under children holds all of `x`'s subtree. */
  lemma {:induction false} ClosedHoldsSubtree(store: Store, h: map<int, nat>, ids: seq<int>, x: int, id: int)
    requires WellFormed(store, h)
    requires forall y, c :: y in ids && c in ChildIds(store, y) ==> c in ids
    requires x in ids && InSubtree(store, h, x, id)
    ensures id in ids
    decreases if x in h then h[x] else 0
  {
    if id != x {
      var c :| c in ChildIds(store, x) && c in h && h[c] < h[x] && InSubtree(store, h, c, id);
      ClosedHoldsSubtree(store, h, ids, c, id);
    }
  }

  // ----- `get_descendant_place_ids` -----

  /**
    The state of the breadth-first walk after `k` ids have been dequeued:
    the list starts at `root`, never repeats, holds only subtree members, holds
    every child of each dequeued id, and each later id's parent was dequeued.
  */
  ghost predicate WalkInvariant(store: Store, h: map<int, nat>, root: int, ids: seq<int>, k: int)
  {
    && |ids| > 0 && ids[0] == root
    && 0 <= k <= |ids|
    && Distinct(ids)
    && (forall i :: 0 <= i < |ids| ==> InSubtree(store, h, root, ids[i]))
    && (forall i :: 1 <= i < |ids| ==> ids[i] in IdsOf(store))
    && (forall i, c :: 0 <= i < k && c in ChildIds(store, ids[i]) ==> c in ids)
    && ParentsDequeued(store, ids, k)
  }

  /** Every listed id but the first has its parent among the first `k`. */
  ghost predicate ParentsDequeued(store: Store, ids: seq<int>, k: int)
  {
    k <= |ids| && forall i :: 1 <= i < |ids| ==> ParentBefore(store, ids, k, i)
  }

  /** The parent of `ids[i]` is one of the first `k` listed ids. */
  ghost predicate ParentBefore(store: Store, ids: seq<int>, k: int, i: int)
    requires 0 <= i < |ids| && k <= |ids|
  {
    exists j :: 0 <= j < k && ParentIs(store, ids[i], ids[j])
  }

  ghost function IdsOf(store: Store): set<int>
  {
    set p | p in store :: p.id
  }

  /** The ids of the store's rows not yet listed. */
  ghost function Unlisted(store: Store, ids: seq<int>): set<int>
  {
    IdsOf(store) - set i | i in ids
  }

  /** The children of the next id to dequeue are not listed yet. */
  lemma KidsFresh(store: Store, h: map<int, nat>, root: int, ids: seq<int>, k: int)
    requires WellFormed(store, h)
    requires WalkInvariant(store, h, root, ids, k) && k < |ids|
    ensures forall c :: c in ChildIds(store, ids[k]) ==> c !in ids
  {
    var x := ids[k];
    forall c | c in ChildIds(store, x)
      ensures c !in ids
    {
      ChildBelow(store, h, x, c);
      if c == root {
        SubtreeHeight(store, h, root, x);
      } else if c in ids {
        var i :| 0 <= i < |ids| && ids[i] == c;
        assert i != 0 && ParentBefore(store, ids, k, i);
        var j :| 0 <= j < k && ParentIs(store, ids[i], ids[j]);
        UniqueParent(store, c, x, ids[j]);
      }
    }
  }

  /** Dequeuing `ids[k]` and appending its children keeps the invariant and lists only new ids. */
  lemma WalkStep(store: Store, h: map<int, nat>, root: int, ids: seq<int>, k: int)
    requires WellFormed(store, h)
    requires WalkInvariant(store, h, root, ids, k) && k < |ids|
    ensures WalkInvariant(store, h, root, ids + ChildIds(store, ids[k]), k + 1)
    ensures Unlisted(store, ids + ChildIds(store, ids[k])) <= Unlisted(store, ids)
    ensures |ChildIds(store, ids[k])| > 0 ==>
              Unlisted(store, ids + ChildIds(store, ids[k])) != Unlisted(store, ids)
  {
    var x := ids[k];
    var kids := ChildIds(store, x);
    ChildIdsDistinct(store, x);
    KidsFresh(store, h, root, ids, k);
    var ids' := ids + kids;
    DistinctConcat(ids, kids);
    forall c | c in kids
      ensures InSubtree(store, h, root, c)
    {
      SubtreeExtend(store, h, root, x, c);
    }
    WalkStepParents(store, h, root, ids, k);
    forall i | 1 <= i < |ids'|
      ensures ids'[i] in IdsOf(store)
    {
      if i >= |ids| {
        assert ids'[i] in kids;
        var p :| p in store && p.parent == Some(x) && p.id == ids'[i];
      } else {
        assert ids'[i] == ids[i];
      }
    }
    forall i, c | 0 <= i < k + 1 && c in ChildIds(store, ids'[i])
      ensures c in ids'
    {
      assert ids'[i] == ids[i];
    }
    if |kids| > 0 {
      assert kids[0] in ids';
      var p :| p in store && p.parent == Some(x) && p.id == kids[0];
      assert kids[0] in Unlisted(store, ids);
    }
  }

  /** After the step, every listed id but the root still has its parent among the dequeued. */
  lemma WalkStepParents(store: Store, h: map<int, nat>, root: int, ids: seq<int>, k: int)
    requires WellFormed(store, h)
    requires WalkInvariant(store, h, root, ids, k) && k < |ids|
    ensures ParentsDequeued(store, ids + ChildIds(store, ids[k]), k + 1)
  {
    var x := ids[k];
    var kids := ChildIds(store, x);
    var ids' := ids + kids;
    var k' := k + 1;
    forall i | 1 <= i < |ids'|
      ensures ParentBefore(store, ids', k', i)
    {
      if i >= |ids| {
        assert ids'[i] in kids;
        ChildBelow(store, h, x, ids'[i]);
        assert ids'[k] == x;
        assert ParentIs(store, ids'[i], ids'[k]);
      } else {
        assert ids'[i] == ids[i];
        assert ParentBefore(store, ids, k, i);
        var j :| 0 <= j < k && ParentIs(store, ids[i], ids[j]);
        assert ids'[j] == ids[j];
        assert ParentIs(store, ids'[i], ids'[j]);
      }
    }
  }

  /**
    The breadth-first walk of record/views.py:115-124: start with `root`, then
    append the children of each dequeued id in table order.
  */
  method DescendantIds(store: Store, ghost h: map<int, nat>, root: int) returns (ids: seq<int>)
    requires WellFormed(store, h)
    ensures |ids| > 0 && ids[0] == root
    ensures Distinct(ids)
    ensures forall id :: id in ids <==> InSubtree(store, h, root, id)
  {
    ids := [root];
    var queue := [root];
    ghost var k := 0;
    WalkStart(store, h, root);
    while |queue| > 0
      invariant WalkInvariant(store, h, root, ids, k)
      invariant queue == ids[k..]
      decreases Unlisted(store, ids), |queue|
    {
      var kids := ChildIds(store, queue[0]);
      WalkStep(store, h, root, ids, k);
      QueueStep(ids, k, kids);
      queue := queue[1..] + kids;
      ids := ids + kids;
      k := k + 1;
    }
    assert k == |ids|;
    WalkDone(store, h, root, ids);
  }

  lemma WalkStart(store: Store, h: map<int, nat>, root: int)
    ensures WalkInvariant(store, h, root, [root], 0)
  {
  }

  /** Dequeuing the head and enqueuing `kids` leaves the unvisited suffix of the longer list. */
  lemma QueueStep(ids: seq<int>, k: int, kids: seq<int>)
    requires 0 <= k < |ids|
    ensures ids[k..][1..] + kids == (ids + kids)[k + 1..]
  {
  }

  /** Once every listed id has been dequeued, the list is exactly the subtree. */
  lemma WalkDone(store: Store, h: map<int, nat>, root: int, ids: seq<int>)
    requires WellFormed(store, h)
    requires WalkInvariant(store, h, root, ids, |ids|)
    ensures forall id :: id in ids <==> InSubtree(store, h, root, id)
  {
    forall y, c | y in ids && c in ChildIds(store, y)
      ensures c in ids
    {
      var i :| 0 <= i < |ids| && ids[i] == y;
    }
    forall id | InSubtree(store, h, root, id)
      ensures id in ids
    {
      ClosedHoldsSubtree(store, h, ids, root, id);
    }
  }
}
