/**
  The place listing of the older app (mosques_app/place/views.py), which
  decides by the type tag of the requested place (region, city, mosque) rather
  than by walking the tree.
*/
module TierScope {
  import opened Common
  import opened Domain
  import opened Params
  import opened Forest

  /** Every row of the older app's table carries a type tag. */
  predicate TypedStore(store: Store)
  {
    forall p :: p in store ==> p.TypedPlace?
  }

  /** Python's `str(current_user.place_id)`, which is `'None'` for a user without a place. */
  function OwnText(own: Option<int>): (s: string)
    ensures own.Some? ==> ParseId(s) == own
    ensures own.None? ==> ParseId(s).None?
  {
    match own
    case None => "None"
    case Some(n) => IdTextRoundTrip(n); IdText(n)
  }

  /** `_get_place_type(key)`: the type tag of the row the key names. */
  function PlaceTypeOf(store: Store, key: Key): (r: Result<PlaceType>)
    requires TypedStore(store)
    ensures r.Ok? <==> KeyLookup(key).Ok? && KeyLookup(key).value.Some? && Find(store, KeyLookup(key).value.value).Some?
    ensures r.Ok? ==> r.value == Find(store, KeyLookup(key).value.value).value.placeType
    ensures r.Err? ==> r.error in {ValueError, DoesNotExist}
  {
    match KeyLookup(key)
    case Err(e) => Err(e)
    case Ok(None) => Err(DoesNotExist)
    case Ok(Some(id)) =>
      match Find(store, id)
      case None => Err(DoesNotExist)
      case Some(p) => Ok(p.placeType)
  }

  /** `_get_city_parent_id(key)`: the parent's id, or `None` for a root place. */
  function CityParentId(store: Store, key: Key): (r: Result<Option<int>>)
    ensures r.Ok? <==> KeyLookup(key).Ok? && KeyLookup(key).value.Some? && Find(store, KeyLookup(key).value.value).Some?
    ensures r.Ok? && r.value.Some? ==> ParentIs(store, KeyLookup(key).value.value, r.value.value)
    ensures r.Ok? && r.value.None? ==>
              exists p :: p in store && p.id == KeyLookup(key).value.value && p.parent.None?
  {
    match KeyLookup(key)
    case Err(e) => Err(e)
    case Ok(None) => Err(DoesNotExist)
    case Ok(Some(id)) =>
      match Find(store, id)
      case None => Err(DoesNotExist)
      case Some(p) => Ok(p.parent)
  }

  /** `filter(place_type=REGION)` in table order. */
  function RegionsOf(store: Store): (r: seq<Place>)
    requires TypedStore(store)
    ensures forall p :: p in r <==> p in store && p.placeType == Region
  {
    if |store| == 0 then []
    else if store[0].placeType == Region then [store[0]] + RegionsOf(store[1..])
    else RegionsOf(store[1..])
  }

  /** The body of `PlaceView.get` of the older app (mosques_app/place/views.py:37-85). */
  function TierViewBody(store: Store, user: User, qp: Param): (r: Result<seq<Place>>)
    requires TypedStore(store)
    ensures user.role == MosqueAdmin ==> r == Err(NotFound)
    ensures user.role !in {Admin, RegionAdmin, CityAdmin, MosqueAdmin} ==> r == Ok([])
  {
    var key := OrKey(qp, user.place);
    match user.role
    case Admin =>
      if key.NoKey? then Ok(RegionsOf(store))
      else (match KeyLookup(key)
            case Err(e) => Err(e)
            case Ok(parent) => Ok(ChildrenOf(store, parent)))
    case RegionAdmin =>
      if qp.None? then Ok(ChildrenOf(store, user.place))
      else
        var s := qp.value;
        (match PlaceTypeOf(store, TextKey(s))
         case Err(e) => Err(e)
         case Ok(t) =>
           if t == Region && s != OwnText(user.place) then Err(PermissionDenied)
           else if t == Region then Ok(ChildrenOf(store, ParseId(s)))
           else if t == City then
             (match CityParentId(store, TextKey(s))
              case Err(e) => Err(e)
              case Ok(parent) =>
                if parent == user.place then Ok(ChildrenOf(store, ParseId(s))) else Err(PermissionDenied))
           else if t == Mosque then Err(NotFound)
           else Ok([]))
    case CityAdmin =>
      (match PlaceTypeOf(store, key)
       case Err(e) => Err(e)
       case Ok(t) =>
         if qp.None? || qp.value == OwnText(user.place) then Ok(ChildrenOf(store, user.place))
         else if t == Region then Err(PermissionDenied)
         else if t == Mosque then Err(NotFound)
         else if t == City then Err(PermissionDenied)
         else Ok([]))
    case MosqueAdmin => Err(NotFound)
    case _ => Ok([])
  }

  /** The listing behind the `IsNotMosqueAdmin` permission. */
  function TierPlaceList(store: Store, user: User, qp: Param): (r: Result<seq<Place>>)
    requires TypedStore(store)
    ensures !IsNotMosqueAdmin(user) <==> r == Err(NotPermitted)
    ensures IsNotMosqueAdmin(user) ==> r == TierViewBody(store, user, qp)
  {
    if !IsNotMosqueAdmin(user) then Err(NotPermitted) else TierViewBody(store, user, qp)
  }

  /**
    An administrator with neither a requested nor an own place gets the
    region-typed places; otherwise the children of the place the key names.
  */
  lemma TierAdminListing(store: Store, user: User, qp: Param)
    requires TypedStore(store) && user.role == Admin
    ensures !Truthy(qp) && user.place.None? ==>
              TierViewBody(store, user, qp).Ok? &&
              forall p :: p in TierViewBody(store, user, qp).value <==> p in store && p.placeType == Region
    ensures !Truthy(qp) && user.place.Some? ==> TierViewBody(store, user, qp) == Ok(ChildrenOf(store, user.place))
    ensures Truthy(qp) && ParseId(qp.value).Some? ==>
              TierViewBody(store, user, qp) == Ok(ChildrenOf(store, ParseId(qp.value)))
  {
  }

  /**
    A region administrator: no parameter lists their own place's children; a
    region is allowed only when it is their own, spelled as `str` spells it; a
    city only when its parent is their place; a mosque is `NotFound`.
  */
  lemma TierRegionAdminListing(store: Store, user: User, s: string, p: Place)
    requires TypedStore(store) && user.role == RegionAdmin
    requires p in store && UniqueIds(store) && ParseId(s) == Some(p.id)
    ensures TierViewBody(store, user, None) == Ok(ChildrenOf(store, user.place))
    ensures p.placeType == Region ==>
              (TierViewBody(store, user, Some(s)) == Ok(ChildrenOf(store, Some(p.id))) <==> s == OwnText(user.place))
    ensures p.placeType == Region && s != OwnText(user.place) ==>
              TierViewBody(store, user, Some(s)) == Err(PermissionDenied)
    ensures p.placeType == City ==>
              (TierViewBody(store, user, Some(s)) == Ok(ChildrenOf(store, Some(p.id))) <==> p.parent == user.place)
    ensures p.placeType == City && p.parent != user.place ==>
              TierViewBody(store, user, Some(s)) == Err(PermissionDenied)
    ensures p.placeType == Mosque ==> TierViewBody(store, user, Some(s)) == Err(NotFound)
    ensures p.placeType == OtherType ==> TierViewBody(store, user, Some(s)) == Ok([])
  {
    FindUnique(store, p);
  }

  /**
    Whatever a region administrator is shown is a child of their own place or a
    child of a city whose parent is their own place.
  */
  lemma TierRegionAdminReach(store: Store, user: User, qp: Param)
    requires TypedStore(store) && user.role == RegionAdmin
    requires TierViewBody(store, user, qp).Ok?
    ensures forall p :: p in TierViewBody(store, user, qp).value ==>
              p.parent == user.place
              || exists c :: c in store && c.parent == user.place && p.parent == Some(c.id)
  {
    if qp.Some? {
      var s := qp.value;
      var t := PlaceTypeOf(store, TextKey(s)).value;
      var c := Find(store, ParseId(s).value).value;
      forall p | p in TierViewBody(store, user, qp).value
        ensures p.parent == user.place
                || exists c :: c in store && c.parent == user.place && p.parent == Some(c.id)
      {
        if t == City {
          assert c in store && c.parent == user.place && p.parent == Some(c.id);
        }
      }
    }
  }

  /**
    A city administrator: no parameter, or their own id as `str` spells it,
    lists their own place's children; any other region or city is
    `PermissionDenied` and a mosque `NotFound`.
  */
  lemma TierCityAdminListing(store: Store, user: User, s: string, p: Place)
    requires TypedStore(store) && user.role == CityAdmin
    requires p in store && UniqueIds(store) && ParseId(s) == Some(p.id) && s != ""
    ensures s == OwnText(user.place) ==> TierViewBody(store, user, Some(s)) == Ok(ChildrenOf(store, user.place))
    ensures s != OwnText(user.place) && p.placeType in {Region, City} ==>
              TierViewBody(store, user, Some(s)) == Err(PermissionDenied)
    ensures s != OwnText(user.place) && p.placeType == Mosque ==> TierViewBody(store, user, Some(s)) == Err(NotFound)
  {
    FindUnique(store, p);
  }

  /**
    Without a parameter a city administrator's own place is looked up first, so
    a missing or null own place fails before any branch is taken.
  */
  lemma TierCityAdminOwnPlace(store: Store, user: User)
    requires TypedStore(store) && user.role == CityAdmin
    ensures user.place.None? ==> TierViewBody(store, user, None) == Err(DoesNotExist)
    ensures user.place.Some? && Find(store, user.place.value).None? ==>
              TierViewBody(store, user, None) == Err(DoesNotExist)
    ensures user.place.Some? && Find(store, user.place.value).Some? ==>
              TierViewBody(store, user, None) == Ok(ChildrenOf(store, user.place))
  {
  }

  /** Whatever a city administrator is shown is a child of their own place. */
  lemma TierCityAdminReach(store: Store, user: User, qp: Param)
    requires TypedStore(store) && user.role == CityAdmin
    requires TierViewBody(store, user, qp).Ok?
    ensures forall p :: p in TierViewBody(store, user, qp).value ==> p.parent == user.place
  {
  }
}
