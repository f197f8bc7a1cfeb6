/**
  The place listing of the newer app (place/views.py): which places a user may
  list, decided by role and, for a region administrator, by whether the
  requested place lies under the user's own place.
*/
module PlaceScope {
  import opened Common
  import opened Domain
  import opened Params
  import opened Forest

  // ----- `_place_id_belongs_to` as written -----

  /**
    The loop of place/views.py:65-67, run for at most `fuel` iterations; `None`
    when it is still running. The body never assigns `parent`, so once the test
    fails it fails forever.
  */
  function AncestorLoopAsWritten(parent: Option<int>, userPlace: int, fuel: nat): (r: Option<Result<bool>>)
    ensures parent.None? ==> r == Some(Ok(false))
    ensures parent == Some(userPlace) ==> r == Some(Ok(true))
    ensures r.Some? ==> r.value.Ok?
    decreases fuel
  {
    if parent.None? then Some(Ok(false))
    else if parent.value == userPlace then Some(Ok(true))
    else if fuel == 0 then None
    else AncestorLoopAsWritten(parent, userPlace, fuel - 1)
  }

  /** `_place_id_belongs_to(place_id, user_place_id)` as written, with the loop bounded by `fuel`. */
  function BelongsAsWritten(store: Store, placeId: int, userPlace: int, fuel: nat): (r: Option<Result<bool>>)
    ensures placeId == userPlace ==> r == Some(Ok(true))
    ensures placeId != userPlace && Find(store, placeId).None? ==> r == Some(Err(DoesNotExist))
    ensures r.Some? && r.value.Err? ==> r.value.error == DoesNotExist
  {
    if placeId == userPlace then Some(Ok(true))
    else match Find(store, placeId)
      case None => Some(Err(DoesNotExist))
      case Some(p) => AncestorLoopAsWritten(p.parent, userPlace, fuel)
  }

  /** Once the direct parent is some other place, no number of iterations ends the loop. */
  lemma {:induction false} AncestorLoopNeverEnds(parent: Option<int>, userPlace: int, fuel: nat)
    requires parent.Some? && parent.value != userPlace
    ensures AncestorLoopAsWritten(parent, userPlace, fuel).None?
    decreases fuel
  {
    if fuel > 0 {
      AncestorLoopNeverEnds(parent, userPlace, fuel - 1);
    }
  }

  /**
    The call does not return for a place whose direct parent exists and is not
    the user's place, whether or not the place lies further below it.
  */
  lemma BelongsAsWrittenHangs(store: Store, placeId: int, userPlace: int, fuel: nat)
    requires placeId != userPlace
    requires Find(store, placeId).Some?
    requires Find(store, placeId).value.parent.Some?
    requires Find(store, placeId).value.parent.value != userPlace
    ensures BelongsAsWritten(store, placeId, userPlace, fuel).None?
  {
    AncestorLoopNeverEnds(Find(store, placeId).value.parent, userPlace, fuel);
  }

  /** A region (1) over a city (2) over a mosque (3). */
  function ThreeLevels(): (store: Store)
    ensures |store| == 3
  {
    [ Place(1, "region", None, "", false, 0),
      Place(2, "city", Some(1), "", false, 0),
      Place(3, "mosque", Some(2), "1", true, 0) ]
  }

  function ThreeLevelsHeights(): map<int, nat>
  {
    map[1 := 2, 2 := 1, 3 := 0]
  }

  lemma ThreeLevelsWellFormed()
    ensures WellFormed(ThreeLevels(), ThreeLevelsHeights())
  {
    var store := ThreeLevels();
    assert Find(store, 1) == Some(store[0]);
    assert Find(store, 2) == Some(store[1]);
    assert forall p :: p in store ==> p == store[0] || p == store[1] || p == store[2];
  }

  /**
    On a region over a city over a mosque, asking whether the mosque belongs to
    the region never returns, although the region's subtree holds it.
  */
  lemma GrandchildHangs(fuel: nat)
    ensures InSubtree(ThreeLevels(), ThreeLevelsHeights(), 1, 3)
    ensures BelongsAsWritten(ThreeLevels(), 3, 1, fuel).None?
  {
    var store := ThreeLevels();
    var h := ThreeLevelsHeights();
    assert Find(store, 3) == Some(store[2]);
    BelongsAsWrittenHangs(store, 3, 1, fuel);
    assert 3 in ChildIds(store, 2) by {
      assert store[2] in store;
    }
    assert 2 in ChildIds(store, 1) by {
      assert store[1] in store;
    }
    assert InSubtree(store, h, 3, 3);
    assert InSubtree(store, h, 2, 3);
  }

  // ----- The intended ancestor walk -----

  /** The ids ranked strictly above `cur`; walking up to a parent shrinks this set. */
  ghost function Above(h: map<int, nat>, cur: int): set<int>
    requires cur in h
  {
    set k | k in h && h[k] > h[cur]
  }

  /** Some proper ancestor of `cur` is `target`, found by following parents upwards. */
  function AncestorIs(store: Store, ghost h: map<int, nat>, cur: int, target: int): bool
    requires WellFormed(store, h) && cur in h
    decreases Above(h, cur)
  {
    match Find(store, cur)
    case None => false
    case Some(p) =>
      match p.parent
      case None => false
      case Some(q) =>
        assert q in Above(h, cur) && q !in Above(h, q);
        q == target || AncestorIs(store, h, q, target)
  }

  /** Walking up finds `target` exactly when `cur` lies strictly below it. */
  lemma {:induction false} AncestorIff(store: Store, h: map<int, nat>, cur: int, target: int)
    requires WellFormed(store, h) && cur in h
    ensures AncestorIs(store, h, cur, target) <==> cur != target && InSubtree(store, h, target, cur)
    decreases Above(h, cur)
  {
    match Find(store, cur)
    case None =>
      if cur != target && InSubtree(store, h, target, cur) {
        SubtreeByParent(store, h, target, cur);
      }
    case Some(p) =>
      match p.parent
      case None =>
        if cur != target && InSubtree(store, h, target, cur) {
          SubtreeByParent(store, h, target, cur);
          var x :| ParentIs(store, cur, x) && InSubtree(store, h, target, x);
          var r :| r in store && r.id == cur && r.parent == Some(x);
          FindUnique(store, r);
        }
      case Some(q) =>
        assert q in Above(h, cur) && q !in Above(h, q);
        assert cur in ChildIds(store, q);
        ChildBelow(store, h, q, cur);
        AncestorIff(store, h, q, target);
        if q == target {
          assert InSubtree(store, h, cur, cur);
        } else if AncestorIs(store, h, q, target) {
          SubtreeExtend(store, h, target, q, cur);
          SubtreeHeight(store, h, target, q);
        } else if cur != target && InSubtree(store, h, target, cur) {
          SubtreeByParent(store, h, target, cur);
          var x :| ParentIs(store, cur, x) && InSubtree(store, h, target, x);
          var r :| r in store && r.id == cur && r.parent == Some(x);
          FindUnique(store, r);
        }
  }

  /**
    `_place_id_belongs_to` with the walk advancing to each parent in turn: true
    for the user's own place and every place below it, false otherwise, and
    `DoesNotExist` for an unknown place.
  */
  function BelongsTo(store: Store, ghost h: map<int, nat>, placeId: int, userPlace: int): (r: Result<bool>)
    requires WellFormed(store, h)
  {
    if placeId == userPlace then Ok(true)
    else match Find(store, placeId)
      case None => Err(DoesNotExist)
      case Some(p) => Ok(AncestorIs(store, h, placeId, userPlace))
  }

  /** The corrected check answers subtree membership and fails only on an unknown place. */
  lemma BelongsToIff(store: Store, h: map<int, nat>, placeId: int, userPlace: int)
    requires WellFormed(store, h)
    ensures BelongsTo(store, h, placeId, userPlace).Err? <==> placeId != userPlace && Find(store, placeId).None?
    ensures BelongsTo(store, h, placeId, userPlace).Err? ==> BelongsTo(store, h, placeId, userPlace).error == DoesNotExist
    ensures BelongsTo(store, h, placeId, userPlace) == Ok(true) <==> InSubtree(store, h, userPlace, placeId)
  {
    if placeId != userPlace {
      match Find(store, placeId)
      case None =>
        if InSubtree(store, h, userPlace, placeId) {
          SubtreeByParent(store, h, userPlace, placeId);
        }
      case Some(p) =>
        AncestorIff(store, h, placeId, userPlace);
    }
  }

  /** Wherever the loop as written returns, it agrees with the corrected walk. */
  lemma AsWrittenAgreesWhenItReturns(store: Store, h: map<int, nat>, placeId: int, userPlace: int, fuel: nat)
    requires WellFormed(store, h)
    requires BelongsAsWritten(store, placeId, userPlace, fuel).Some?
    ensures BelongsAsWritten(store, placeId, userPlace, fuel) == Some(BelongsTo(store, h, placeId, userPlace))
  {
    if placeId != userPlace && Find(store, placeId).Some? {
      var p := Find(store, placeId).value;
      if p.parent.Some? && p.parent.value != userPlace {
        AncestorLoopNeverEnds(p.parent, userPlace, fuel);
      }
    }
  }

  // ----- `PlaceView.get` -----

  /**
    The body of `PlaceView.get` (place/views.py:84-102) with the ancestor walk
    corrected: the requested id, else the user's own place, is the parent whose
    children are listed.
  */
  function PlaceViewBody(store: Store, ghost h: map<int, nat>, user: User, qp: Param): (r: Result<seq<Place>>)
    requires WellFormed(store, h)
    ensures user.role == MosqueAdmin <==> r == Err(NotFound)
    ensures user.role !in {Admin, RegionAdmin, MosqueAdmin} ==> r == Ok([])
  {
    var key := OrKey(qp, user.place);
    match user.role
    case Admin => AdminChildren(store, key)
    case RegionAdmin =>
      (match KeyInt(key)
       case Err(e) => Err(e)
       case Ok(placeId) =>
         if user.place.None? then Err(TypeError)
         else match BelongsTo(store, h, placeId, user.place.value)
           case Err(e) => Err(e)
           case Ok(b) => if b then Ok(ChildrenOf(store, Some(placeId))) else Err(PermissionDenied))
    case MosqueAdmin => Err(NotFound)
    case _ => Ok([])
  }

  /** The administrator's branch: `filter(parent=place_id)`, a null id selecting the roots. */
  function AdminChildren(store: Store, key: Key): (r: Result<seq<Place>>)
    ensures r.Err? <==> KeyLookup(key).Err?
    ensures r.Ok? ==> r.value == ChildrenOf(store, KeyLookup(key).value)
  {
    match KeyLookup(key)
    case Err(e) => Err(e)
    case Ok(parent) => Ok(ChildrenOf(store, parent))
  }

  /**
    The body of `PlaceView.get` as written, the region administrator's check
    running `_place_id_belongs_to` as written for at most `fuel` iterations;
    `None` while it is still running. Every other branch returns at once.
  */
  function PlaceViewBodyAsWritten(store: Store, user: User, qp: Param, fuel: nat): (r: Option<Result<seq<Place>>>)
    ensures user.role != RegionAdmin ==> r.Some?
    ensures user.role == MosqueAdmin <==> r == Some(Err(NotFound))
    ensures r.Some? && r.value.Ok? && user.role == RegionAdmin ==>
              user.place.Some? && KeyInt(OrKey(qp, user.place)).Ok?
              && r.value.value == ChildrenOf(store, Some(KeyInt(OrKey(qp, user.place)).value))
  {
    var key := OrKey(qp, user.place);
    match user.role
    case Admin => Some(AdminChildren(store, key))
    case RegionAdmin =>
      (match KeyInt(key)
       case Err(e) => Some(Err(e))
       case Ok(placeId) =>
         if user.place.None? then Some(Err(TypeError))
         else match BelongsAsWritten(store, placeId, user.place.value, fuel)
           case None => None
           case Some(Err(e)) => Some(Err(e))
           case Some(Ok(b)) => Some(if b then Ok(ChildrenOf(store, Some(placeId))) else Err(PermissionDenied)))
    case MosqueAdmin => Some(Err(NotFound))
    case _ => Some(Ok([]))
  }

  /** Wherever the view as written returns, it answers what the view with the corrected walk answers. */
  lemma ViewAsWrittenAgrees(store: Store, h: map<int, nat>, user: User, qp: Param, fuel: nat)
    requires WellFormed(store, h)
    requires PlaceViewBodyAsWritten(store, user, qp, fuel).Some?
    ensures PlaceViewBodyAsWritten(store, user, qp, fuel) == Some(PlaceViewBody(store, h, user, qp))
  {
    if user.role == RegionAdmin && KeyInt(OrKey(qp, user.place)).Ok? && user.place.Some? {
      AsWrittenAgreesWhenItReturns(store, h, KeyInt(OrKey(qp, user.place)).value, user.place.value, fuel);
    }
  }

  /**
    A region administrator's request as written, case by case on the requested
    place: their own place and a place directly under it are listed, a root is
    refused and an unknown place is `DoesNotExist`; for any place whose parent
    is some other place the call never returns, however many iterations run.
  */
  lemma RegionAdminAsWritten(store: Store, user: User, qp: Param, placeId: int, fuel: nat)
    requires user.role == RegionAdmin && user.place.Some?
    requires KeyInt(OrKey(qp, user.place)) == Ok(placeId)
    ensures var r := PlaceViewBodyAsWritten(store, user, qp, fuel);
            var u := user.place.value;
            && (r == Some(Ok(ChildrenOf(store, Some(placeId)))) <==>
                  placeId == u || (Find(store, placeId).Some? && Find(store, placeId).value.parent == Some(u)))
            && (placeId != u && Find(store, placeId).None? ==> r == Some(Err(DoesNotExist)))
            && (placeId != u && Find(store, placeId).Some? && Find(store, placeId).value.parent.None? ==>
                  r == Some(Err(PermissionDenied)))
            && (r.None? <==> placeId != u && Find(store, placeId).Some? && Find(store, placeId).value.parent.Some?
                             && Find(store, placeId).value.parent != Some(u))
  {
    var u := user.place.value;
    if placeId != u && Find(store, placeId).Some? && Find(store, placeId).value.parent.Some?
       && Find(store, placeId).value.parent != Some(u) {
      BelongsAsWrittenHangs(store, placeId, u, fuel);
    }
  }

  /** Whatever the view as written shows a region administrator lies in their own subtree. */
  lemma RegionAdminAsWrittenStaysInside(store: Store, h: map<int, nat>, user: User, qp: Param, fuel: nat)
    requires WellFormed(store, h) && user.role == RegionAdmin
    requires PlaceViewBodyAsWritten(store, user, qp, fuel).Some?
    requires PlaceViewBodyAsWritten(store, user, qp, fuel).value.Ok?
    ensures user.place.Some?
    ensures forall p :: p in PlaceViewBodyAsWritten(store, user, qp, fuel).value.value ==>
              InSubtree(store, h, user.place.value, p.id)
  {
    ViewAsWrittenAgrees(store, h, user, qp, fuel);
    RegionAdminStaysInside(store, h, user, qp);
  }

  /**
    The end-to-end witness on a region over a city over a mosque: the region's
    administrator asking for the mosque (any `place_id` text that reads as its
    id) gets no answer from the view as written, while the corrected walk
    lists the mosque's children.
  */
  lemma ViewHangsOnGrandchild(user: User, s: string, fuel: nat)
    requires user.role == RegionAdmin && user.place == Some(1)
    requires s != "" && ParseId(s) == Some(3)
    ensures PlaceViewBodyAsWritten(ThreeLevels(), user, Some(s), fuel).None?
    ensures PlaceViewBody(ThreeLevels(), ThreeLevelsHeights(), user, Some(s)) == Ok(ChildrenOf(ThreeLevels(), Some(3)))
  {
    var store, h := ThreeLevels(), ThreeLevelsHeights();
    ThreeLevelsWellFormed();
    assert KeyInt(OrKey(Some(s), user.place)) == Ok(3);
    GrandchildHangs(fuel);
    RegionAdminListing(store, h, user, Some(s), 3);
  }

  /** The listing behind the `IsNotMosqueAdmin` permission. */
  function PlaceList(store: Store, ghost h: map<int, nat>, user: User, qp: Param): (r: Result<seq<Place>>)
    requires WellFormed(store, h)
    ensures !IsNotMosqueAdmin(user) <==> r == Err(NotPermitted)
    ensures IsNotMosqueAdmin(user) ==> r == PlaceViewBody(store, h, user, qp)
  {
    if !IsNotMosqueAdmin(user) then Err(NotPermitted) else PlaceViewBody(store, h, user, qp)
  }

  /** The permission turns every mosque administrator away first, so the view's `NotFound` is never seen. */
  lemma PlaceListNeverNotFound(store: Store, h: map<int, nat>, user: User, qp: Param)
    requires WellFormed(store, h)
    ensures PlaceList(store, h, user, qp) != Err(NotFound)
  {
  }

  /**
    An administrator gets the children of the requested place, else of their
    own place, else the root places.
  */
  lemma AdminListing(store: Store, h: map<int, nat>, user: User, qp: Param)
    requires WellFormed(store, h) && user.role == Admin
    ensures Truthy(qp) && ParseId(qp.value).Some? ==>
              PlaceViewBody(store, h, user, qp) == Ok(ChildrenOf(store, ParseId(qp.value)))
    ensures Truthy(qp) && ParseId(qp.value).None? ==> PlaceViewBody(store, h, user, qp) == Err(ValueError)
    ensures !Truthy(qp) ==> PlaceViewBody(store, h, user, qp) == Ok(ChildrenOf(store, user.place))
    ensures !Truthy(qp) && user.place.None? ==>
              forall p :: p in PlaceViewBody(store, h, user, qp).value <==> p in store && p.parent.None?
  {
  }

  /**
    A region administrator gets the children of the requested place exactly
    when it is their own place or lies below it, and `PermissionDenied` for
    any other existing place.
  */
  lemma RegionAdminListing(store: Store, h: map<int, nat>, user: User, qp: Param, placeId: int)
    requires WellFormed(store, h) && user.role == RegionAdmin && user.place.Some?
    requires KeyInt(OrKey(qp, user.place)) == Ok(placeId)
    requires Find(store, placeId).Some? || placeId == user.place.value
    ensures InSubtree(store, h, user.place.value, placeId) ==>
              PlaceViewBody(store, h, user, qp) == Ok(ChildrenOf(store, Some(placeId)))
    ensures !InSubtree(store, h, user.place.value, placeId) ==>
              PlaceViewBody(store, h, user, qp) == Err(PermissionDenied)
  {
    BelongsToIff(store, h, placeId, user.place.value);
  }

  /** Whatever a region administrator is shown lies in their own subtree. */
  lemma RegionAdminStaysInside(store: Store, h: map<int, nat>, user: User, qp: Param)
    requires WellFormed(store, h) && user.role == RegionAdmin
    requires PlaceViewBody(store, h, user, qp).Ok?
    ensures user.place.Some?
    ensures forall p :: p in PlaceViewBody(store, h, user, qp).value ==> InSubtree(store, h, user.place.value, p.id)
  {
    var placeId := KeyInt(OrKey(qp, user.place)).value;
    BelongsToIff(store, h, placeId, user.place.value);
    forall p | p in PlaceViewBody(store, h, user, qp).value
      ensures InSubtree(store, h, user.place.value, p.id)
    {
      assert p in store && p.parent == Some(placeId);
      assert p.id in ChildIds(store, placeId);
      SubtreeExtend(store, h, user.place.value, placeId, p.id);
    }
  }

  // ----- `PlaceViewMosques.get_queryset` -----

  /**
    place/views.py:42-48: a non-empty `place_id` keeps the places whose parent
    it names; an absent or empty one keeps every place.
  */
  function MosquesQuery(store: Store, qp: Param): (r: Result<seq<Place>>)
    ensures !Truthy(qp) ==> r == Ok(store)
    ensures Truthy(qp) && ParseId(qp.value).None? ==> r == Err(ValueError)
    ensures Truthy(qp) && ParseId(qp.value).Some? ==>
              r.Ok? && forall p :: p in r.value <==> p in store && p.parent == ParseId(qp.value)
  {
    if !Truthy(qp) then Ok(store)
    else match KeyLookup(TextKey(qp.value))
      case Err(e) => Err(e)
      case Ok(parent) => Ok(ChildrenOf(store, parent))
  }
}
