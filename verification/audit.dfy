/**
  The audited save and delete of both apps' `AuditableModel`
  (core/models.py:90-160, mosques_app/core/models.py:70-140) and the
  serializer mixin that drives them (core/serializers.py): a store of tables
  plus an append-only activity log.
*/
module Audit {
  import opened Common
  import opened Domain
  import opened Params

  datatype App = RootApp | OlderApp

  /** The four models a save can reach. */
  datatype Kind = UnitKind | CategoryKind | PlaceKind | RecordKind

  /** `self.__class__.__name__`. */
  function ClassName(k: Kind): string
  {
    match k
    case UnitKind => "Unit"
    case CategoryKind => "Category"
    case PlaceKind => "Place"
    case RecordKind => "Record"
  }

  /**
    Which models extend `AuditableModel`: only Place and Record in the root app
    (core/models.py:162, 172, 200, 217), all four in the older one
    (mosques_app/core/models.py:142, 151, 175, 189).
  */
  predicate Auditable(app: App, k: Kind)
  {
    app == OlderApp || k == PlaceKind || k == RecordKind
  }

  /** A column value as a serializer hands it over. */
  datatype Value = VInt(i: int) | VText(s: string) | VBool(b: bool) | VNull

  /** The columns of an instance other than its primary key, `created_by` and `updated_by` included. */
  type Fields = map<string, Value>

  /** A model instance: its primary key (`None` until first saved) and its other columns. */
  datatype Obj = Obj(pk: Option<int>, fields: Fields)

  const CreatedBy := "created_by"
  const UpdatedBy := "updated_by"

  datatype Action = Create | Update | Delete

  function ActionTag(a: Action): string
  {
    match a
    case Create => "create"
    case Update => "update"
    case Delete => "delete"
  }

  /** One `ActivityLog` row (the timestamp is left out). */
  datatype LogEntry = LogEntry(
    user: Option<int>,
    action: Action,
    objectId: Option<int>,
    objectType: string,
    description: string,
    ip: Option<string>)

  /** What `save` and `delete` read of a request: the user's id and `REMOTE_ADDR`. */
  datatype Caller = Caller(user: int, remoteAddr: Option<string>)

  /** One table: its rows by primary key and the next key the sequence hands out. */
  datatype Table = Table(rows: map<int, Obj>, next: int)

  datatype Db = Db(tables: map<Kind, Table>, log: seq<LogEntry>)

  /**
    The database after a call and what the call returned or raised: writes made
    before an exception stay, since nothing runs in a transaction.
  */
  datatype Outcome<T> = Outcome(db: Db, result: Result<T>)

  function TableOf(db: Db, k: Kind): Table
  {
    if k in db.tables then db.tables[k] else Table(map[], 1)
  }

  /** Every key in use lies below the sequence's next value. */
  predicate Counted(t: Table)
  {
    forall p :: p in t.rows ==> p < t.next
  }

  /** The log's `description`: `'<Class> <action>'` for a save, `'<Class> deleted'` for a delete. */
  function Description(k: Kind, a: Action): (s: string)
    ensures |s| > |ClassName(k)| && s[..|ClassName(k)|] == ClassName(k) && s[|ClassName(k)|] == ' '
  {
    ClassName(k) + (if a == Delete then " deleted" else " " + ActionTag(a))
  }

  /** The entry a save or delete appends; without a request both user and address are null. */
  function LogFor(k: Kind, a: Action, pk: Option<int>, req: Option<Caller>): (e: LogEntry)
    ensures e.action == a && e.objectId == pk && e.objectType == ClassName(k)
    ensures req.None? ==> e.user.None? && e.ip.None?
    ensures req.Some? ==> e.user == Some(req.value.user) && e.ip == req.value.remoteAddr
  {
    LogEntry(
      if req.Some? then Some(req.value.user) else None,
      a, pk, ClassName(k), Description(k, a),
      if req.Some? then req.value.remoteAddr else None)
  }

  /** The result of writing one instance to its table. */
  datatype Written = Written(table: Table, obj: Obj)

  /**
    Django's `Model.save` at the table: a new instance takes the sequence's
    next key; one with a key replaces the row under it or inserts it.
  */
  function Write(t: Table, o: Obj): (w: Written)
    ensures w.obj.pk.Some? && w.obj.fields == o.fields
    ensures o.pk.Some? ==> w.obj == o && w.table.next == t.next
    ensures o.pk.None? ==> w.obj.pk == Some(t.next) && w.table.next == t.next + 1
    ensures w.table.rows == t.rows[w.obj.pk.value := w.obj]
  {
    match o.pk
    case None =>
      var stored := o.(pk := Some(t.next));
      Written(Table(t.rows[t.next := stored], t.next + 1), stored)
    case Some(p) => Written(Table(t.rows[p := o], t.next), o)
  }

  /**
    `AuditableModel.save` (core/models.py:109-137) and, for a model that does
    not extend it, the plain `Model.save`. The action is 'create' exactly when
    the instance has no key yet; a request stamps `created_by` on a create and
    `updated_by` on an update; one log entry follows the write. A plain model
    logs nothing and rejects the `request` keyword with a `TypeError`; with
    `forceInsert` (what `objects.create` passes) an existing key is an
    `IntegrityError` and nothing is written or logged.
  */
  function Save(db: Db, app: App, k: Kind, o: Obj, req: Option<Caller>, forceInsert: bool): (r: Outcome<Obj>)
    ensures !Auditable(app, k) && req.Some? ==> r == Outcome(db, Err(TypeError))
    ensures (Auditable(app, k) || req.None?) && forceInsert && o.pk.Some? && o.pk.value in TableOf(db, k).rows ==>
              r == Outcome(db, Err(IntegrityError))
    ensures r.result.Err? ==> r.db == db
    ensures r.result.Ok? ==> r.result.value.pk.Some? && (o.pk.Some? ==> r.result.value.pk == o.pk)
    ensures r.result.Ok? ==> TableOf(r.db, k).rows == TableOf(db, k).rows[r.result.value.pk.value := r.result.value]
    ensures r.result.Ok? ==> forall k' :: k' != k ==> TableOf(r.db, k') == TableOf(db, k')
    ensures r.result.Ok? && !Auditable(app, k) ==> r.db.log == db.log
    ensures r.result.Ok? && Auditable(app, k) ==>
              r.db.log == db.log + [LogFor(k, if o.pk.None? then Create else Update, r.result.value.pk, req)]
  {
    var t := TableOf(db, k);
    if !Auditable(app, k) && req.Some? then Outcome(db, Err(TypeError))
    else if forceInsert && o.pk.Some? && o.pk.value in t.rows then Outcome(db, Err(IntegrityError))
    else
      var action := if o.pk.None? then Create else Update;
      var stamped :=
        if !Auditable(app, k) || req.None? then o
        else if action == Create then o.(fields := o.fields[CreatedBy := VInt(req.value.user)])
        else o.(fields := o.fields[UpdatedBy := VInt(req.value.user)]);
      var w := Write(t, stamped);
      var log := if Auditable(app, k) then db.log + [LogFor(k, action, w.obj.pk, req)] else db.log;
      Outcome(Db(db.tables[k := w.table], log), Ok(w.obj))
  }

  /**
    With a request, a create stamps `created_by` and an update `updated_by`,
    never both, and every other column is stored as given; without a request
    nothing is stamped.
  */
  lemma SaveStamps(db: Db, app: App, k: Kind, o: Obj, req: Option<Caller>, forceInsert: bool)
    requires Save(db, app, k, o, req, forceInsert).result.Ok?
    ensures var f := Save(db, app, k, o, req, forceInsert).result.value.fields;
            && (req.None? ==> f == o.fields)
            && (req.Some? && o.pk.None? ==> f == o.fields[CreatedBy := VInt(req.value.user)])
            && (req.Some? && o.pk.Some? ==> f == o.fields[UpdatedBy := VInt(req.value.user)])
            && (forall c :: c in o.fields && c != CreatedBy && c != UpdatedBy ==> c in f && f[c] == o.fields[c])
  {
  }

  /**
    `AuditableModel.delete` (core/models.py:139-157): the 'delete' entry is
    logged first, then the row is removed; an instance without a key logs its
    entry and then raises `ValueError`. A plain model logs nothing.
  */
  function DeleteRow(db: Db, app: App, k: Kind, o: Obj, req: Option<Caller>): (r: Outcome<()>)
    ensures !Auditable(app, k) && req.Some? ==> r == Outcome(db, Err(TypeError))
    ensures Auditable(app, k) ==> r.db.log == db.log + [LogFor(k, Delete, o.pk, req)]
    ensures !Auditable(app, k) ==> r.db.log == db.log
    ensures r.result.Ok? <==> o.pk.Some? && (Auditable(app, k) || req.None?)
    ensures o.pk.None? && Auditable(app, k) ==> r.result == Err(ValueError)
    ensures r.result.Ok? ==> TableOf(r.db, k).rows == TableOf(db, k).rows - {o.pk.value}
    ensures forall k' :: k' != k ==> TableOf(r.db, k') == TableOf(db, k')
  {
    if !Auditable(app, k) && req.Some? then Outcome(db, Err(TypeError))
    else
      var log := if Auditable(app, k) then db.log + [LogFor(k, Delete, o.pk, req)] else db.log;
      match o.pk
      case None => Outcome(db.(log := log), Err(ValueError))
      case Some(p) =>
        var t := TableOf(db, k);
        Outcome(Db(db.tables[k := Table(t.rows - {p}, t.next)], log), Ok(()))
  }

  /** A save of a new instance keeps every key below the sequence's next value. */
  lemma SaveKeepsCounted(db: Db, app: App, k: Kind, o: Obj, req: Option<Caller>, forceInsert: bool)
    requires Counted(TableOf(db, k)) && o.pk.None?
    requires Save(db, app, k, o, req, forceInsert).result.Ok?
    ensures Counted(TableOf(Save(db, app, k, o, req, forceInsert).db, k))
    ensures Save(db, app, k, o, req, forceInsert).result.value.pk.value !in TableOf(db, k).rows
  {
  }

  /**
    Saving a new instance and then deleting what came back leaves the table's
    rows as they were, and the log gains exactly a 'create' and a 'delete'
    entry for the same key.
  */
  lemma SaveThenDelete(db: Db, app: App, k: Kind, o: Obj, req: Option<Caller>, forceInsert: bool)
    requires Auditable(app, k) && Counted(TableOf(db, k)) && o.pk.None?
    ensures var s := Save(db, app, k, o, req, forceInsert);
            && s.result.Ok?
            && var d := DeleteRow(s.db, app, k, s.result.value, req);
               && d.result.Ok?
               && TableOf(d.db, k).rows == TableOf(db, k).rows
               && |d.db.log| == |db.log| + 2
               && d.db.log[..|db.log|] == db.log
               && d.db.log[|db.log|].action == Create && d.db.log[|db.log| + 1].action == Delete
               && d.db.log[|db.log|].objectId == d.db.log[|db.log| + 1].objectId == s.result.value.pk
  {
    var s := Save(db, app, k, o, req, forceInsert);
    var p := s.result.value.pk.value;
    assert p == TableOf(db, k).next;
    assert p !in TableOf(db, k).rows;
    var d := DeleteRow(s.db, app, k, s.result.value, req);
    assert TableOf(d.db, k).rows == TableOf(db, k).rows[p := s.result.value] - {p};
    assert TableOf(db, k).rows[p := s.result.value] - {p} == TableOf(db, k).rows;
  }

  /**
    A root-app Category or Unit saved or deleted with a request raises
    `TypeError` and writes nothing, while a direct save without one succeeds;
    the serializer mixin always passes the keyword, so through it the
    `TypeError` holds with or without a request, whatever the validated data,
    a malformed `id` included.
  */
  lemma PlainModelRejectsRequest(db: Db, k: Kind, o: Obj, c: Caller, forceInsert: bool, validated: Fields, req: Option<Caller>)
    requires k == CategoryKind || k == UnitKind
    ensures Save(db, RootApp, k, o, Some(c), forceInsert) == Outcome(db, Err(TypeError))
    ensures DeleteRow(db, RootApp, k, o, Some(c)) == Outcome(db, Err(TypeError))
    ensures MixinCreate(db, RootApp, k, validated, req) == Outcome(db, Err(TypeError))
    ensures MixinUpdate(db, RootApp, k, o, validated, req) == Outcome(db, Err(TypeError))
    ensures MixinDelete(db, RootApp, k, o, req) == Outcome(db, Err(TypeError))
    ensures !forceInsert ==> Save(db, RootApp, k, o, None, forceInsert).result.Ok?
    ensures Save(db, OlderApp, k, o, Some(c), false).result.Ok?
  {
  }

  // ----- `AuditSerializerMixin` (core/serializers.py) -----

  /**
    The primary key a value assigned to `id` stands for when the row is
    written: Django's `int()` of it; text that is no integer is a `ValueError`.
  */
  function IdValue(v: Value): (r: Result<Option<int>>)
    ensures v.VInt? ==> r == Ok(Some(v.i))
    ensures v.VNull? ==> r == Ok(None)
    ensures v.VText? ==> (r.Ok? <==> ParseId(v.s).Some?)
    ensures r.Err? ==> r.error == ValueError
  {
    match v
    case VNull => Ok(None)
    case VInt(i) => Ok(Some(i))
    case VBool(b) => Ok(Some(if b then 1 else 0))
    case VText(s) => if ParseId(s).Some? then Ok(ParseId(s)) else Err(ValueError)
  }

  /**
    `to_internal_value` (core/serializers.py:37-48): the base validation, with
    the input's `id` put back whenever the input carries a non-null one.
  */
  function ToInternalValue(data: Fields, base: Fields): (r: Fields)
    ensures "id" in data && data["id"] != VNull ==> "id" in r && r["id"] == data["id"]
    ensures forall c :: c != "id" ==> (c in r <==> c in base) && (c in base ==> r[c] == base[c])
    ensures ("id" !in data || data["id"] == VNull) ==> r == base
  {
    if "id" in data && data["id"] != VNull then base["id" := data["id"]] else base
  }

  /** `self.Meta.model(**validated_data)`: an `id` in the data becomes the instance's key. */
  function Instance(validated: Fields): (r: Result<Obj>)
    ensures r.Ok? ==> r.value.fields == validated - {"id"}
    ensures "id" !in validated ==> r == Ok(Obj(None, validated))
    ensures "id" in validated ==> (r.Ok? <==> IdValue(validated["id"]).Ok?)
    ensures "id" in validated && r.Ok? ==> r.value.pk == IdValue(validated["id"]).value
  {
    if "id" !in validated then
      assert validated - {"id"} == validated;
      Ok(Obj(None, validated))
    else
      match IdValue(validated["id"])
      case Err(e) => Err(e)
      case Ok(pk) => Ok(Obj(pk, validated - {"id"}))
  }

  /**
    `create` (core/serializers.py:8-18): build the instance from the validated
    data and save it once with the request. The mixin always passes the
    `request` keyword, even when it is `None`, so a plain model refuses the
    call before the key is ever converted and that `TypeError` comes first;
    otherwise a key that is no integer fails in the save with nothing written.
  */
  function MixinCreate(db: Db, app: App, k: Kind, validated: Fields, req: Option<Caller>): (r: Outcome<Obj>)
    ensures !Auditable(app, k) ==> r == Outcome(db, Err(TypeError))
    ensures Auditable(app, k) && Instance(validated).Err? ==> r == Outcome(db, Err(ValueError))
    ensures Auditable(app, k) && Instance(validated).Ok? ==> r == Save(db, app, k, Instance(validated).value, req, false)
  {
    if !Auditable(app, k) then Outcome(db, Err(TypeError))
    else match Instance(validated)
    case Err(e) => Outcome(db, Err(e))
    case Ok(o) => Save(db, app, k, o, req, false)
  }

  /** `setattr` of every validated attribute; `id` is the key. */
  function SetAttrs(inst: Obj, validated: Fields): (r: Result<Obj>)
    ensures r.Ok? ==> forall c :: c != "id" && c in validated ==> c in r.value.fields && r.value.fields[c] == validated[c]
    ensures r.Ok? ==> forall c :: c !in validated && c in inst.fields ==> c in r.value.fields && r.value.fields[c] == inst.fields[c]
    ensures r.Ok? ==> forall c :: c in r.value.fields ==> c in validated || c in inst.fields
    ensures r.Ok? ==> "id" !in validated ==> r.value.pk == inst.pk
    ensures "id" !in validated ==> r.Ok?
    ensures "id" in validated ==> (r.Ok? <==> IdValue(validated["id"]).Ok?)
    ensures "id" in validated && r.Ok? ==> r.value.pk == IdValue(validated["id"]).value
  {
    var fields := inst.fields + (validated - {"id"});
    if "id" !in validated then Ok(Obj(inst.pk, fields))
    else
      match IdValue(validated["id"])
      case Err(e) => Err(e)
      case Ok(pk) => Ok(Obj(pk, fields))
  }

  /**
    `update` (core/serializers.py:20-30): assign the validated attributes, then
    save once with the request; as in `create`, a plain model's `TypeError`
    comes before any key conversion, with or without a request.
  */
  function MixinUpdate(db: Db, app: App, k: Kind, inst: Obj, validated: Fields, req: Option<Caller>): (r: Outcome<Obj>)
    ensures !Auditable(app, k) ==> r == Outcome(db, Err(TypeError))
    ensures Auditable(app, k) && SetAttrs(inst, validated).Err? ==> r == Outcome(db, Err(ValueError))
    ensures Auditable(app, k) && SetAttrs(inst, validated).Ok? ==> r == Save(db, app, k, SetAttrs(inst, validated).value, req, false)
  {
    if !Auditable(app, k) then Outcome(db, Err(TypeError))
    else match SetAttrs(inst, validated)
    case Err(e) => Outcome(db, Err(e))
    case Ok(o) => Save(db, app, k, o, req, false)
  }

  /**
    `delete` (core/serializers.py:32-35): the model's delete, with the request
    forwarded as a keyword, which a plain model refuses even when it is `None`.
  */
  function MixinDelete(db: Db, app: App, k: Kind, inst: Obj, req: Option<Caller>): (r: Outcome<()>)
    ensures !Auditable(app, k) ==> r == Outcome(db, Err(TypeError))
    ensures Auditable(app, k) ==> r.db.log == db.log + [LogFor(k, Delete, inst.pk, req)]
    ensures Auditable(app, k) ==> (r.result.Ok? <==> inst.pk.Some?)
    ensures r.result.Ok? ==> inst.pk.Some? && TableOf(r.db, k).rows == TableOf(db, k).rows - {inst.pk.value}
  {
    if !Auditable(app, k) then Outcome(db, Err(TypeError))
    else DeleteRow(db, app, k, inst, req)
  }

  /**
    An update of a saved auditable instance without `id` in the data stores
    exactly the validated attributes over the old ones: every column the data
    does not name keeps its value, except `updated_by` which takes the
    requester; the log gains one 'update' entry.
  */
  lemma UpdateChangesOnlyGiven(db: Db, app: App, k: Kind, inst: Obj, validated: Fields, c: Caller)
    requires Auditable(app, k) && inst.pk.Some? && "id" !in validated
    ensures var r := MixinUpdate(db, app, k, inst, validated, Some(c));
            && r.result.Ok?
            && r.result.value.pk == inst.pk
            && (forall f :: f != UpdatedBy && f in validated ==> r.result.value.fields[f] == validated[f])
            && (forall f :: f != UpdatedBy && f !in validated && f in inst.fields ==>
                  r.result.value.fields[f] == inst.fields[f])
            && r.result.value.fields[UpdatedBy] == VInt(c.user)
            && r.db.log == db.log + [LogFor(k, Update, inst.pk, Some(c))]
  {
    var o := SetAttrs(inst, validated).value;
    SaveStamps(db, app, k, o, Some(c), false);
  }

  /**
    Because `to_internal_value` keeps the input's `id`, a create whose input
    names an id builds an instance that already has a key: it is logged as an
    'update', and it overwrites whatever row holds that key.
  */
  lemma CreateWithIdIsUpdate(db: Db, app: App, k: Kind, data: Fields, base: Fields, id: int, c: Caller)
    requires Auditable(app, k) && "id" in data && data["id"] == VInt(id)
    ensures var r := MixinCreate(db, app, k, ToInternalValue(data, base), Some(c));
            && r.result.Ok?
            && r.result.value.pk == Some(id)
            && TableOf(r.db, k).rows[id] == r.result.value
            && r.db.log == db.log + [LogFor(k, Update, Some(id), Some(c))]
  {
  }

  /** A delete through the mixin logs before it removes, even when the removal then fails. */
  lemma DeleteLogsFirst(db: Db, app: App, k: Kind, inst: Obj, req: Option<Caller>)
    requires Auditable(app, k)
    ensures |MixinDelete(db, app, k, inst, req).db.log| == |db.log| + 1
    ensures inst.pk.None? ==> MixinDelete(db, app, k, inst, req).result == Err(ValueError)
    ensures inst.pk.Some? ==> inst.pk.value !in TableOf(MixinDelete(db, app, k, inst, req).db, k).rows
  {
  }
}
