/**
  Creating a record through the serializers of both apps
  (record/serializers.py:23-55, mosques_app/record/serializers.py:11-23), on
  top of the audited save, and the renaming done by `ReportValueSerializer`.
*/
module RecordCreate {
  import opened Common
  import opened Domain
  import opened Forest
  import opened Audit

  /** The nested `category` and `place` inputs (validated dicts, if sent) and the other validated fields. */
  datatype RecordInput = RecordInput(category: Option<Fields>, place: Option<Fields>, rest: Fields)

  /** `d.get(key)`: `None` for a missing key. */
  function Get(d: Fields, key: string): (v: Value)
    ensures key in d ==> v == d[key]
    ensures key !in d ==> v == VNull
  {
    if key in d then d[key] else VNull
  }

  /** The value a foreign-key column holds once its key is converted: the integer, or null. */
  function KeyValue(key: Option<int>): (v: Value)
    ensures IdValue(v) == Ok(key)
  {
    match key
    case None => VNull
    case Some(p) => VInt(p)
  }

  /** The `id` the nested category input names, as sent. */
  function CategorySent(input: RecordInput): Value
    requires input.category.Some?
  {
    Get(input.category.value, "id")
  }

  /** The `id` the nested place input names, as sent. */
  function PlaceSent(input: RecordInput): Value
    requires input.place.Some?
  {
    Get(input.place.value, "id")
  }

  /** Both sent ids convert to keys, as the insert's `int()` of each foreign key demands. */
  predicate KeysConvert(input: RecordInput)
    requires input.category.Some? && input.place.Some?
  {
    IdValue(CategorySent(input)).Ok? && IdValue(PlaceSent(input)).Ok?
  }

  /** Every row of the root app's place table is a `Place` row with an `is_mosque` flag. */
  predicate RootStore(store: Store)
  {
    forall p :: p in store ==> p.Place?
  }

  /** `Place.objects.get(id=…)` with the submitted value. */
  function GetPlace(store: Store, v: Value): (r: Result<Place>)
    ensures r.Ok? <==> IdValue(v).Ok? && IdValue(v).value.Some? && Find(store, IdValue(v).value.value).Some?
    ensures r.Ok? ==> r.value in store && Some(r.value.id) == IdValue(v).value
    ensures r.Err? ==> r.error in {ValueError, DoesNotExist}
  {
    match IdValue(v)
    case Err(e) => Err(e)
    case Ok(None) => Err(DoesNotExist)
    case Ok(Some(id)) =>
      match Find(store, id)
      case None => Err(DoesNotExist)
      case Some(p) => Ok(p)
  }

  /**
    The row `Record.objects.create(category_id=…, place_id=…, created_by=…, **validated_data)`
    stores: each foreign key holds the integer its sent value converts to.
  */
  function Inserted(user: User, input: RecordInput): Fields
    requires input.category.Some? && input.place.Some? && KeysConvert(input)
  {
    input.rest["category" := KeyValue(IdValue(CategorySent(input)).value)]
              ["place" := KeyValue(IdValue(PlaceSent(input)).value)]
              [CreatedBy := VInt(user.id)]
  }

  /**
    `RecordSerializer.create` of the root app, step by step: no category is a
    `ValidationError` before anything is stored; no place makes
    `place_data.get` fail; a category or place id that is no integer fails
    the foreign keys' `int()` conversion with a `ValueError` before any SQL
    runs; a null category id violates `NOT NULL`; then the row is inserted (and logged with no user) before the place is even looked
    up; for an administrator or a region administrator a place that is not a
    mosque is rejected only now, after the insert; a mosque administrator's
    record is moved to their own place; the final save carries the request.
  */
  function RootCreate(db: Db, store: Store, user: User, ip: Option<string>, input: RecordInput): (r: Outcome<Obj>)
    requires RootStore(store)
    ensures input.category.None? ==> r == Outcome(db, Err(ValidationError))
    ensures input.category.Some? && input.place.None? ==> r == Outcome(db, Err(AttributeError))
    ensures input.category.Some? && input.place.Some? && !KeysConvert(input) ==> r == Outcome(db, Err(ValueError))
    ensures (input.category.Some? && input.place.Some? && KeysConvert(input)
             && CategorySent(input) == VNull) ==> r == Outcome(db, Err(IntegrityError))
    ensures r.result.Ok? ==>
              && input.category.Some? && input.place.Some? && KeysConvert(input)
              && IdValue(CategorySent(input)).value.Some?
              && GetPlace(store, PlaceSent(input)).Ok?
  {
    if input.category.None? then Outcome(db, Err(ValidationError))
    else if input.place.None? then Outcome(db, Err(AttributeError))
    else if !KeysConvert(input) then Outcome(db, Err(ValueError))
    else if CategorySent(input) == VNull then Outcome(db, Err(IntegrityError))
    else
      match Instance(Inserted(user, input))
      case Err(e) => Outcome(db, Err(e))
      case Ok(o) =>
        var s1 := Save(db, RootApp, RecordKind, o, None, true);
        if s1.result.Err? then s1
        else AfterInsert(s1.db, s1.result.value, store, user, ip, PlaceSent(input))
  }

  /**
    What `RecordSerializer.create` does once the row is inserted: the place
    lookup, the `is_mosque` check for administrators and region
    administrators, the move of a mosque administrator's record to their own
    place, and the final save with the request. A failure keeps the insert.
  */
  function AfterInsert(db1: Db, inst: Obj, store: Store, user: User, ip: Option<string>, sent: Value): (r: Outcome<Obj>)
    requires RootStore(store) && inst.pk.Some?
    ensures r.result.Err? ==> r.db == db1
    ensures GetPlace(store, sent).Err? ==> r.result == Err(GetPlace(store, sent).error)
    ensures r.result.Ok? ==>
              && r.result.value.pk == inst.pk
              && r.db.log == db1.log + [LogFor(RecordKind, Update, inst.pk, Some(Caller(user.id, ip)))]
              && TableOf(r.db, RecordKind).rows == TableOf(db1, RecordKind).rows[inst.pk.value := r.result.value]
              && r.result.value.fields == (if user.role == MosqueAdmin then inst.fields["place" := KeyValue(user.place)]
                                           else inst.fields)[UpdatedBy := VInt(user.id)]
  {
    match GetPlace(store, sent)
    case Err(e) => Outcome(db1, Err(e))
    case Ok(p) =>
      if (user.role == RegionAdmin || user.role == Admin) && !p.isMosque then Outcome(db1, Err(ValidationError))
      else
        var inst2 := if user.role == MosqueAdmin then inst.(fields := inst.fields["place" := KeyValue(user.place)]) else inst;
        SaveStamps(db1, RootApp, RecordKind, inst2, Some(Caller(user.id, ip)), false);
        Save(db1, RootApp, RecordKind, inst2, Some(Caller(user.id, ip)), false)
  }

  /** The insert of a usual request: the next key, the row as built, one 'create' with no user. */
  lemma FirstInsert(db: Db, user: User, input: RecordInput)
    requires Plain(input) && Counted(TableOf(db, RecordKind))
    ensures Instance(Inserted(user, input)) == Ok(Obj(None, Inserted(user, input)))
    ensures var s1 := Save(db, RootApp, RecordKind, Obj(None, Inserted(user, input)), None, true);
            var pk := TableOf(db, RecordKind).next;
            && s1.result == Ok(Obj(Some(pk), Inserted(user, input)))
            && pk !in TableOf(db, RecordKind).rows
            && s1.db.log == db.log + [LogFor(RecordKind, Create, Some(pk), None)]
            && TableOf(s1.db, RecordKind).rows == TableOf(db, RecordKind).rows[pk := s1.result.value]
  {
    assert "id" !in Inserted(user, input);
    var t := TableOf(db, RecordKind);
    assert t.next !in t.rows;
    SaveStamps(db, RootApp, RecordKind, Obj(None, Inserted(user, input)), None, true);
  }

  /** The input the usual request sends: a category id and a place id that are integers, no `id` of its own. */
  predicate Plain(input: RecordInput)
  {
    && input.category.Some? && input.place.Some?
    && KeysConvert(input)
    && CategorySent(input) != VNull
    && "id" !in input.rest
  }

  /**
    Once the category and place inputs are there, the record is inserted and
    logged as a 'create' with no user before any place check runs: whatever
    the outcome, the table holds it with the submitted category and place and
    `created_by` set to the requester.
  */
  lemma InsertedBeforeChecks(db: Db, store: Store, user: User, ip: Option<string>, input: RecordInput)
    requires RootStore(store) && Plain(input) && Counted(TableOf(db, RecordKind))
    ensures var r := RootCreate(db, store, user, ip, input);
            var pk := TableOf(db, RecordKind).next;
            && |r.db.log| > |db.log|
            && r.db.log[|db.log|] == LogFor(RecordKind, Create, Some(pk), None)
            && pk !in TableOf(db, RecordKind).rows
            && pk in TableOf(r.db, RecordKind).rows
            && var row := TableOf(r.db, RecordKind).rows[pk].fields;
               && "category" in row && row["category"] == KeyValue(IdValue(CategorySent(input)).value)
               && CreatedBy in row && row[CreatedBy] == VInt(user.id)
               && "place" in row
               && (user.role != MosqueAdmin ==> row["place"] == KeyValue(IdValue(PlaceSent(input)).value))
  {
    FirstInsert(db, user, input);
    var o := Obj(None, Inserted(user, input));
    var s1 := Save(db, RootApp, RecordKind, o, None, true);
    var pk := TableOf(db, RecordKind).next;
    var r := AfterInsert(s1.db, s1.result.value, store, user, ip, PlaceSent(input));
    assert RootCreate(db, store, user, ip, input) == r;
    if r.result.Ok? {
      assert TableOf(r.db, RecordKind).rows[pk] == r.result.value;
    } else {
      assert TableOf(r.db, RecordKind).rows[pk] == s1.result.value;
    }
  }

  /**
    An administrator or region administrator naming an existing place that is
    not a mosque gets a `ValidationError`, yet the record is already stored and
    its creation logged.
  */
  lemma NonMosqueRejectedAfterInsert(db: Db, store: Store, user: User, ip: Option<string>, input: RecordInput, p: Place)
    requires RootStore(store) && UniqueIds(store) && Plain(input) && Counted(TableOf(db, RecordKind))
    requires user.role in {Admin, RegionAdmin}
    requires p in store && !p.isMosque && IdValue(PlaceSent(input)) == Ok(Some(p.id))
    ensures var r := RootCreate(db, store, user, ip, input);
            && r.result == Err(ValidationError)
            && |TableOf(r.db, RecordKind).rows| == |TableOf(db, RecordKind).rows| + 1
            && r.db.log == db.log + [LogFor(RecordKind, Create, Some(TableOf(db, RecordKind).next), None)]
  {
    FindUnique(store, p);
    FirstInsert(db, user, input);
    var s1 := Save(db, RootApp, RecordKind, Obj(None, Inserted(user, input)), None, true);
    assert GetPlace(store, PlaceSent(input)) == Ok(p);
    assert RootCreate(db, store, user, ip, input) == Outcome(s1.db, Err(ValidationError));
  }

  /**
    A successful create logs exactly two entries for the new record: the
    'create' of the insert, with no user, then the 'update' of the final
    save, with the requester; the stored row's `updated_by` is the requester.
    A mosque administrator's record ends up at their own place, whatever place
    was sent.
  */
  lemma SuccessfulCreate(db: Db, store: Store, user: User, ip: Option<string>, input: RecordInput)
    requires RootStore(store) && Plain(input) && Counted(TableOf(db, RecordKind))
    requires RootCreate(db, store, user, ip, input).result.Ok?
    ensures var r := RootCreate(db, store, user, ip, input);
            var pk := Some(TableOf(db, RecordKind).next);
            && r.result.value.pk == pk
            && r.db.log == db.log + [LogFor(RecordKind, Create, pk, None), LogFor(RecordKind, Update, pk, Some(Caller(user.id, ip)))]
            && UpdatedBy in r.result.value.fields && r.result.value.fields[UpdatedBy] == VInt(user.id)
            && CreatedBy in r.result.value.fields && r.result.value.fields[CreatedBy] == VInt(user.id)
            && "place" in r.result.value.fields
            && (user.role == MosqueAdmin ==> r.result.value.fields["place"] == KeyValue(user.place))
            && (user.role != MosqueAdmin ==> r.result.value.fields["place"] == KeyValue(IdValue(PlaceSent(input)).value))
            && "category" in r.result.value.fields
            && r.result.value.fields["category"] == KeyValue(IdValue(CategorySent(input)).value)
            && pk.value in TableOf(r.db, RecordKind).rows
            && TableOf(r.db, RecordKind).rows[pk.value] == r.result.value
  {
    FirstInsert(db, user, input);
    var s1 := Save(db, RootApp, RecordKind, Obj(None, Inserted(user, input)), None, true);
    assert RootCreate(db, store, user, ip, input)
        == AfterInsert(s1.db, s1.result.value, store, user, ip, PlaceSent(input));
  }

  /**
    For administrators and region administrators the only place check is
    `is_mosque`: the outcome does not depend on where the requester's own
    place is, so a mosque anywhere in the tree is accepted.
  */
  lemma AdminPlaceIgnored(db: Db, store: Store, user: User, own: Option<int>, ip: Option<string>, input: RecordInput)
    requires RootStore(store) && user.role in {Admin, RegionAdmin}
    ensures RootCreate(db, store, user, ip, input) == RootCreate(db, store, user.(place := own), ip, input)
  {
  }

  /**
    `RecordSerializer.create` of the older app: the instance is built from the
    validated data, its place replaced by the requester's, and saved once with
    the request.
  */
  function OlderCreate(db: Db, user: User, ip: Option<string>, validated: Fields): (r: Outcome<Obj>)
    ensures Instance(validated).Err? ==> r == Outcome(db, Err(ValueError))
    ensures Instance(validated).Ok? && Instance(validated).value.pk.None? ==>
              && r.result.Ok?
              && r.db.log == db.log + [LogFor(RecordKind, Create, r.result.value.pk, Some(Caller(user.id, ip)))]
              && r.result.value.fields == (validated - {"id"})["place" := KeyValue(user.place)][CreatedBy := VInt(user.id)]
  {
    match Instance(validated)
    case Err(e) => Outcome(db, Err(e))
    case Ok(o) =>
      var placed := o.(fields := o.fields["place" := KeyValue(user.place)]);
      SaveStamps(db, OlderApp, RecordKind, placed, Some(Caller(user.id, ip)), false);
      Save(db, OlderApp, RecordKind, placed, Some(Caller(user.id, ip)), false)
  }

  /**
    The place the older app stores is the requester's for every role and
    every input: two inputs that differ only in the place sent give the same
    result, and a requester without a place stores a null place.
  */
  lemma OlderPlaceFromUser(db: Db, user: User, ip: Option<string>, validated: Fields, sent: Value)
    requires "id" !in validated
    ensures OlderCreate(db, user, ip, validated) == OlderCreate(db, user, ip, validated["place" := sent])
    ensures OlderCreate(db, user, ip, validated).result.value.fields["place"] == KeyValue(user.place)
    ensures user.place.None? ==> OlderCreate(db, user, ip, validated).result.value.fields["place"] == VNull
  {
    assert (validated["place" := sent] - {"id"})["place" := KeyValue(user.place)]
        == (validated - {"id"})["place" := KeyValue(user.place)];
  }

  // ----- `ReportValueSerializer.to_representation` (record/serializers.py:63-70) -----

  /** The keys of a row of the quantity query and of its representation. */
  const SourceKeys: set<string> := {"category_id", "category__name", "category__unit__name", "total_quantity"}
  const OutputKeys: set<string> := {"category_id", "category_name", "unit_name", "total_quantity"}

  /**
    The representation: the joined column names renamed to the serializer's
    field names, the values taken from the row as they are. A row without one
    of the four keys makes the field lookup raise `KeyError`.
  */
  function ToRepresentation(row: Fields): (r: Result<Fields>)
    ensures r.Ok? <==> SourceKeys <= row.Keys
    ensures r.Err? ==> r.error == KeyError
    ensures r.Ok? ==> r.value.Keys == OutputKeys
    ensures r.Ok? ==> && r.value["category_id"] == row["category_id"]
                      && r.value["category_name"] == row["category__name"]
                      && r.value["unit_name"] == row["category__unit__name"]
                      && r.value["total_quantity"] == row["total_quantity"]
  {
    if !("category_id" in row && "category__name" in row && "category__unit__name" in row && "total_quantity" in row) then
      Err(KeyError)
    else
      Ok(map["category_id" := row["category_id"],
             "category_name" := row["category__name"],
             "unit_name" := row["category__unit__name"],
             "total_quantity" := row["total_quantity"]])
  }

  /** The renaming undone. */
  function FromRepresentation(data: Fields): (row: Fields)
    requires OutputKeys <= data.Keys
    ensures row.Keys == SourceKeys
  {
    map["category_id" := data["category_id"],
        "category__name" := data["category_name"],
        "category__unit__name" := data["unit_name"],
        "total_quantity" := data["total_quantity"]]
  }

  /** Nothing is lost in the renaming: a query row with exactly the four columns comes back unchanged. */
  lemma RepresentationRoundTrip(row: Fields)
    requires row.Keys == SourceKeys
    ensures ToRepresentation(row).Ok?
    ensures FromRepresentation(ToRepresentation(row).value) == row
  {
    var back := FromRepresentation(ToRepresentation(row).value);
    assert forall k :: k in row ==> k in back && back[k] == row[k];
  }
}
