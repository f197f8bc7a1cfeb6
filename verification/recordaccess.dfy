/**
  The access check of the record listing in both apps (`RecordView.list` in
  record/views.py and mosques_app/record/views.py): the requested place must
  be the user's place, a child of it or a grandchild of it, and only the
  records of exactly that place are listed.
*/
module RecordAccess {
  import opened Common
  import opened Domain
  import opened Params
  import opened Forest
  import opened Ledger
  import opened Reports

  /**
    `ids` of record/views.py:47-53: the place, its parent and its
    grandparent, as far as they exist. Reading `found.parent` loads the parent
    row and `found.parent.parent` the grandparent row; a link to a row that is
    missing makes Django raise `DoesNotExist`.
  */
  function AreaIds(store: Store, found: Place): (r: Result<seq<int>>)
    ensures r.Ok? ==> 1 <= |r.value| <= 3 && r.value[0] == found.id
    ensures found.parent.None? ==> r == Ok([found.id])
    ensures r.Err? <==>
              && found.parent.Some?
              && (|| Find(store, found.parent.value).None?
                  || (Find(store, found.parent.value).value.parent.Some?
                      && Find(store, Find(store, found.parent.value).value.parent.value).None?))
    ensures r.Err? ==> r.error == DoesNotExist
  {
    match found.parent
    case None => Ok([found.id])
    case Some(p) =>
      match Find(store, p)
      case None => Err(DoesNotExist)
      case Some(pp) =>
        match pp.parent
        case None => Ok([found.id, p])
        case Some(g) => if Find(store, g).None? then Err(DoesNotExist) else Ok([found.id, p, g])
  }

  /**
    The area in terms of the tree: the user's place is among the ids exactly
    when it is the requested place, that place's parent, or its parent's
    parent.
  */
  lemma AreaIdsIff(store: Store, h: map<int, nat>, found: Place, u: int)
    requires WellFormed(store, h) && found in store
    ensures AreaIds(store, found).Ok?
    ensures u in AreaIds(store, found).value <==>
              u == found.id || ParentIs(store, found.id, u)
              || exists m :: ParentIs(store, found.id, m) && ParentIs(store, m, u)
  {
    var area := AreaIds(store, found).value;
    if found.parent.Some? {
      var p := found.parent.value;
      var pp := Find(store, p).value;
      assert ParentIs(store, found.id, p);
      if pp.parent.Some? {
        assert ParentIs(store, p, pp.parent.value);
      }
      if ParentIs(store, found.id, u) {
        UniqueParent(store, found.id, u, p);
      }
      if exists m :: ParentIs(store, found.id, m) && ParentIs(store, m, u) {
        var m :| ParentIs(store, found.id, m) && ParentIs(store, m, u);
        UniqueParent(store, found.id, m, p);
        assert pp.parent == Some(u) by {
          var q :| q in store && q.id == m && q.parent == Some(u);
          FindUnique(store, q);
        }
      }
    } else {
      forall m
        ensures !ParentIs(store, found.id, m)
      {
        if ParentIs(store, found.id, m) {
          ParentOfRow(store, found, m);
          assert false;
        }
      }
    }
  }

  /** With unique ids, the parent a row names is the only parent of its id. */
  lemma ParentOfRow(store: Store, found: Place, m: int)
    requires UniqueIds(store) && found in store && ParentIs(store, found.id, m)
    ensures found.parent == Some(m)
  {
    var q :| q in store && q.id == found.id && q.parent == Some(m);
    FindUnique(store, q);
    FindUnique(store, found);
  }

  /** Whatever place lies in the area lies above (or is) the requested place. */
  lemma AreaAbove(store: Store, h: map<int, nat>, found: Place, u: int)
    requires WellFormed(store, h) && found in store
    requires AreaIds(store, found).Ok? && u in AreaIds(store, found).value
    ensures InSubtree(store, h, u, found.id)
  {
    AreaIdsIff(store, h, found, u);
    if u != found.id {
      if ParentIs(store, found.id, u) {
        ParentStep(store, h, found.id, u);
      } else {
        var m :| ParentIs(store, found.id, m) && ParentIs(store, m, u);
        ParentStep(store, h, found.id, m);
        ParentStep(store, h, m, u);
        assert m in ChildIds(store, u) && m in h && h[m] < h[u] && InSubtree(store, h, m, found.id);
      }
    }
  }

  /** A child lies in the subtree of its parent, one level down. */
  lemma ParentStep(store: Store, h: map<int, nat>, c: int, x: int)
    requires WellFormed(store, h) && ParentIs(store, c, x)
    ensures c in ChildIds(store, x) && c in h && x in h && h[c] < h[x]
    ensures InSubtree(store, h, x, c)
  {
    var q :| q in store && q.id == c && q.parent == Some(x);
    assert c in ChildIds(store, x);
  }

  /** Which app's listing: the root app tolerates a user without a place, the older one does not. */
  datatype Variant = Root | Older

  /**
    `RecordView.list`: a user other than a mosque administrator must send
    `place_id`; the place id is the parameter when it is non-empty, else the
    user's own place (`user.place.id`, an `AttributeError` without one); the
    place must exist; the user's place must lie in its area. The root app
    skips that last check for a user without a place (record/views.py:56), the
    older app dereferences `user.place.id` regardless
    (mosques_app/record/views.py:50).
  */
  function ListRecords(v: Variant, store: Store, entries: seq<Entry>, user: User, qp: Param): (r: Result<seq<Entry>>)
    ensures qp.None? && user.role != MosqueAdmin ==> r == Err(ValidationError)
    ensures !Truthy(qp) && user.place.None? && (qp.Some? || user.role == MosqueAdmin) ==> r == Err(AttributeError)
  {
    if qp.None? && user.role != MosqueAdmin then Err(ValidationError)
    else
      var key := OrKey(qp, user.place);
      if key.NoKey? then Err(AttributeError)
      else
        match KeyLookup(key)
        case Err(e) => Err(e)
        case Ok(id) =>
          match Find(store, id.value)
          case None => Err(DoesNotExist)
          case Some(found) =>
            match AreaIds(store, found)
            case Err(e) => Err(e)
            case Ok(ids) =>
              if v == Older && user.place.None? then Err(AttributeError)
              else if user.place.Some? && user.place.value !in ids then Err(ValidationError)
              else Ok(AtPlace(entries, Some(found.id)))
  }

  /**
    A listing that succeeds shows exactly the records of the requested place:
    no record of a place below it, none without a place; and the user either
    has no place (root app only) or sits at, above, or two levels above it.
  */
  lemma ListedAreExactlyThePlace(v: Variant, store: Store, h: map<int, nat>, entries: seq<Entry>, user: User, qp: Param)
    requires WellFormed(store, h)
    requires ListRecords(v, store, entries, user, qp).Ok?
    ensures var id := KeyLookup(OrKey(qp, user.place)).value.value;
            && Find(store, id).Some?
            && (forall e :: e in ListRecords(v, store, entries, user, qp).value <==> e in entries && e.place == Some(id))
            && (user.place.Some? ==> InSubtree(store, h, user.place.value, id))
            && (v == Older ==> user.place.Some?)
  {
    var id := KeyLookup(OrKey(qp, user.place)).value.value;
    var found := Find(store, id).value;
    if user.place.Some? {
      AreaAbove(store, h, found, user.place.value);
    }
  }

  /**
    The check in both directions: for a user with a place, a requested place
    that exists passes exactly when the user's place is the place, its parent
    or its grandparent; both apps agree there.
  */
  lemma AreaCheckIff(v: Variant, store: Store, h: map<int, nat>, entries: seq<Entry>, user: User, s: string, found: Place)
    requires WellFormed(store, h) && found in store && user.place.Some?
    requires ParseId(s) == Some(found.id) && s != ""
    ensures var u := user.place.value;
            ListRecords(v, store, entries, user, Some(s)).Ok? <==>
              (u == found.id || ParentIs(store, found.id, u)
               || exists m :: ParentIs(store, found.id, m) && ParentIs(store, m, u))
    ensures ListRecords(v, store, entries, user, Some(s)).Err? ==>
              ListRecords(v, store, entries, user, Some(s)) == Err(ValidationError)
    ensures ListRecords(Root, store, entries, user, Some(s)) == ListRecords(Older, store, entries, user, Some(s))
  {
    FindUnique(store, found);
    AreaIdsIff(store, h, found, user.place.value);
  }

  /**
    A user without a place: the root app lists any existing place's records
    (no area check applies), the older app always fails on `user.place.id`.
  */
  lemma NoPlaceUser(store: Store, h: map<int, nat>, entries: seq<Entry>, user: User, s: string, found: Place)
    requires WellFormed(store, h) && found in store && user.place.None?
    requires ParseId(s) == Some(found.id) && s != ""
    ensures ListRecords(Root, store, entries, user, Some(s)) == Ok(AtPlace(entries, Some(found.id)))
    ensures ListRecords(Older, store, entries, user, Some(s)) == Err(AttributeError)
  {
    FindUnique(store, found);
    AreaIdsIff(store, h, found, found.id);
  }

  /** A mosque administrator without a parameter is shown the records of their own place. */
  lemma MosqueAdminOwnRecords(v: Variant, store: Store, h: map<int, nat>, entries: seq<Entry>, user: User, own: Place)
    requires WellFormed(store, h) && own in store
    requires user.role == MosqueAdmin && user.place == Some(own.id)
    ensures ListRecords(v, store, entries, user, None) == Ok(AtPlace(entries, Some(own.id)))
  {
    FindUnique(store, own);
    AreaIdsIff(store, h, own, own.id);
  }
}
