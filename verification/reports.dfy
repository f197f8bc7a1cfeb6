/**
  The two report endpoints of record/views.py: the flat report
  (`RecordReportView.get`) of one place's records, and the hierarchical
  report (`RecordHierarchicallyReportView.get`) that walks the place tree and
  attaches a table to every leaf.
*/
module Reports {
  import opened Common
  import opened Domain
  import opened Calendar
  import opened Periods
  import opened Params
  import opened Forest
  import opened Ledger
  import opened Pivot

  /**
    A `start`/`end` query parameter after `parse_date`: absent or empty, not
    of the form YYYY-MM-DD (`parse_date` returns `None`), or a year, month and
    day, which `parse_date` rejects with `ValueError` when they name no date.
  */
  datatype DateParam = Missing | Malformed | Given(d: Date)

  /** What the checks at the top of both report views settle. */
  datatype Request = Request(key: Key, start: Date, end: Date, period: Period)

  /** `parse_date` of a parameter, with `fallback` standing in for a missing one. */
  function ParseDateParam(p: DateParam, fallback: Date): (r: Result<Option<Date>>)
    requires Valid(fallback)
    ensures r.Ok? && r.value.Some? ==> Valid(r.value.value)
    ensures r == Err(ValueError) <==> p.Given? && !Valid(p.d)
    ensures r.Err? ==> r.error == ValueError
    ensures r == Ok(None) <==> p.Malformed?
    ensures p.Missing? ==> r == Ok(Some(fallback))
    ensures p.Given? && Valid(p.d) ==> r == Ok(Some(p.d))
  {
    match p
    case Missing => Ok(Some(fallback))
    case Malformed => Ok(None)
    case Given(d) => if Valid(d) then Ok(Some(d)) else Err(ValueError)
  }

  /**
    record/views.py:186-219 (and 337-370): a user other than a mosque
    administrator must name a place; a mosque administrator always gets their
    own; missing dates default to the first of this month and today; a
    malformed date, a start after the end, or an unknown period is a 400.
  */
  function ReportPreamble(user: User, qp: Param, start: DateParam, end: DateParam, token: string, today: Date)
    : (r: Result<Request>)
    requires Valid(today)
    ensures user.role != MosqueAdmin && qp.None? ==> r == Err(ValueError)
    ensures r.Ok? ==> Valid(r.value.start) && Valid(r.value.end) && Le(r.value.start, r.value.end)
    ensures r.Ok? ==> ParsePeriod(token) == Some(r.value.period)
    ensures r.Ok? && user.role == MosqueAdmin ==> r.value.key == OrKey(None, user.place)
    ensures r.Ok? && user.role != MosqueAdmin ==> qp.Some? && r.value.key == TextKey(qp.value)
    ensures r.Ok? && start.Missing? ==> r.value.start == ReplaceDay(today, 1)
    ensures r.Ok? && end.Missing? ==> r.value.end == today
    ensures r.Ok? && start.Given? ==> r.value.start == start.d
    ensures r.Ok? && end.Given? ==> r.value.end == end.d
  {
    if user.role != MosqueAdmin && qp.None? then Err(ValueError)
    else
      var key := if user.role == MosqueAdmin then OrKey(None, user.place) else TextKey(qp.value);
      match ParseDateParam(start, ReplaceDay(today, 1))
      case Err(e) => Err(e)
      case Ok(s) =>
        match ParseDateParam(end, today)
        case Err(e) => Err(e)
        case Ok(t) =>
          if s.None? || t.None? || !Le(s.value, t.value) then Err(BadRequest)
          else match ParsePeriod(token)
            case None => Err(BadRequest)
            case Some(p) => Ok(Request(key, s.value, t.value, p))
  }

  /** The 400 answers of the preamble, each in both directions once the place check passes. */
  lemma PreambleBadRequests(user: User, qp: Param, a: Date, b: Date, token: string, today: Date)
    requires Valid(today) && Valid(a) && Valid(b)
    requires user.role == MosqueAdmin || qp.Some?
    ensures !Le(a, b) ==> ReportPreamble(user, qp, Given(a), Given(b), token, today) == Err(BadRequest)
    ensures ReportPreamble(user, qp, Malformed, Given(b), token, today) == Err(BadRequest)
    ensures ReportPreamble(user, qp, Given(a), Malformed, token, today) == Err(BadRequest)
    ensures Le(a, b) ==> (ReportPreamble(user, qp, Given(a), Given(b), token, today) == Err(BadRequest)
                          <==> ParsePeriod(token).None?)
  {
  }

  /** A mosque administrator's report never depends on the `place_id` they send. */
  lemma MosqueAdminIgnoresPlaceParam(user: User, qp1: Param, qp2: Param, start: DateParam, end: DateParam, token: string, today: Date)
    requires Valid(today) && user.role == MosqueAdmin
    ensures ReportPreamble(user, qp1, start, end, token, today) == ReportPreamble(user, qp2, start, end, token, today)
  {
  }

  // ----- The flat report -----

  /** A report: the period labels and the table rows. */
  datatype Report = Report(periods: seq<Label>, rows: seq<Row>)

  /** `Record.objects.filter(place_id=…)`: a null place id selects the records without a place. */
  function AtPlace(es: seq<Entry>, place: Option<int>): (r: seq<Entry>)
    ensures forall e :: e in r <==> e in es && e.place == place
    ensures StoredEntries(es) ==> StoredEntries(r)
    ensures ValidEntries(es) ==> ValidEntries(r)
  {
    if |es| == 0 then []
    else
      var rest := AtPlace(es[1..], place);
      assert forall e :: e in es <==> e == es[0] || e in es[1..];
      if es[0].place == place then [es[0]] + rest else rest
  }

  /** Whether some record has a null date: its group's `period` is null, and `strftime` on it fails. */
  function HasUndated(es: seq<Entry>): (b: bool)
    ensures b <==> exists e :: e in es && e.date.None?
    ensures !b && StoredEntries(es) ==> ValidEntries(es)
  {
    if |es| == 0 then false
    else
      assert forall e :: e in es <==> e == es[0] || e in es[1..];
      es[0].date.None? || HasUndated(es[1..])
  }

  /**
    `RecordReportView.get` (record/views.py:185-268): the preamble, then the
    place's records grouped by period bucket and category, with no date
    filter, pivoted over the labels of the requested range. A record of the
    place with a null date makes `expense['period'].strftime` raise
    `AttributeError` (record/views.py:230).
  */
  function FlatReport(entries: seq<Entry>, user: User, qp: Param, start: DateParam, end: DateParam, token: string, today: Date)
    : (r: Result<Report>)
    requires Valid(today) && StoredEntries(entries)
    ensures r.Ok? ==> ReportPreamble(user, qp, start, end, token, today).Ok?
                      && KeyLookup(ReportPreamble(user, qp, start, end, token, today).value.key).Ok?
                      && ValidEntries(AtPlace(entries, KeyLookup(ReportPreamble(user, qp, start, end, token, today).value.key).value))
  {
    match ReportPreamble(user, qp, start, end, token, today)
    case Err(e) => Err(e)
    case Ok(req) =>
      match KeyLookup(req.key)
      case Err(e) => Err(e)
      case Ok(place) =>
        var es := AtPlace(entries, place);
        if HasUndated(es) then Err(AttributeError)
        else
          var periods := DateRange(req.start, req.end, token);
          Ok(Report(periods, Table(FlatData(GroupBy(req.period, es)), periods)))
  }

  /**
    Once the preamble and the place lookup pass, the flat report fails with
    `AttributeError` exactly when some record of that place has a null date.
  */
  lemma FlatReportUndatedFails(entries: seq<Entry>, user: User, qp: Param, start: DateParam, end: DateParam,
                               token: string, today: Date)
    requires Valid(today) && StoredEntries(entries)
    requires ReportPreamble(user, qp, start, end, token, today).Ok?
    requires KeyLookup(ReportPreamble(user, qp, start, end, token, today).value.key).Ok?
    ensures var place := KeyLookup(ReportPreamble(user, qp, start, end, token, today).value.key).value;
            FlatReport(entries, user, qp, start, end, token, today) == Err(AttributeError) <==>
              exists e :: e in entries && e.place == place && e.date.None?
  {
    var place := KeyLookup(ReportPreamble(user, qp, start, end, token, today).value.key).value;
    var es := AtPlace(entries, place);
    if exists e :: e in entries && e.place == place && e.date.None? {
      var e :| e in entries && e.place == place && e.date.None?;
      assert e in es;
    }
  }

  /** A category name occurs among the groups' names exactly when some group carries it. */
  lemma {:induction false} NamesOfHas(gs: seq<Group>, n: string)
    ensures n in NamesOf(gs) <==> exists i :: 0 <= i < |gs| && gs[i].key.category == n
    decreases |gs|
  {
    if |gs| > 0 {
      var init := gs[..|gs| - 1];
      NamesOfHas(init, n);
      if exists i :: 0 <= i < |init| && init[i].key.category == n {
        var i :| 0 <= i < |init| && init[i].key.category == n;
        assert gs[i] == init[i];
      }
      if exists i :: 0 <= i < |gs| && gs[i].key.category == n {
        var i :| 0 <= i < |gs| && gs[i].key.category == n;
        if i < |init| {
          assert init[i] == gs[i];
        }
      }
    }
  }

  /**
    A flat report that succeeds has a row for every category the place has a
    record of, whether or not the record's date lies in the range: the range
    only chooses the columns, so a category whose records all lie outside it
    still gets a row. (Success already rules out a null date at the place.)
  */
  lemma FlatReportListsEveryCategory(entries: seq<Entry>, user: User, qp: Param, start: DateParam, end: DateParam,
                                     token: string, today: Date, e: Entry)
    requires Valid(today) && StoredEntries(entries)
    requires FlatReport(entries, user, qp, start, end, token, today).Ok?
    requires e in entries
    requires Ok(e.place) == KeyLookup(ReportPreamble(user, qp, start, end, token, today).value.key)
    ensures exists j :: 0 <= j < |FlatReport(entries, user, qp, start, end, token, today).value.rows| - 1
                        && FlatReport(entries, user, qp, start, end, token, today).value.rows[j].title == e.category
  {
    var req := ReportPreamble(user, qp, start, end, token, today).value;
    var es := AtPlace(entries, e.place);
    var periods := DateRange(req.start, req.end, token);
    assert FlatReport(entries, user, qp, start, end, token, today).value.rows
           == Table(FlatData(GroupBy(req.period, es)), periods);
    TableListsEveryCategory(req.period, es, periods, e);
  }

  /** Every category of the grouped entries heads a row of the table, above the totals row. */
  lemma TableListsEveryCategory(p: Period, es: seq<Entry>, periods: seq<Label>, e: Entry)
    requires ValidEntries(es) && e in es
    ensures var t := Table(FlatData(GroupBy(p, es)), periods);
            exists j :: 0 <= j < |t| - 1 && t[j].title == e.category
  {
    var gs := GroupBy(p, es);
    CategoryGrouped(p, es, e);
    FlatDataCells(gs);
    TitleOfName(FlatData(gs), periods, e.category);
  }

  /** The category of every entry is among the grouping's category names. */
  lemma CategoryGrouped(p: Period, es: seq<Entry>, e: Entry)
    requires ValidEntries(es) && e in es
    ensures e.category in NamesOf(GroupBy(p, es))
  {
    var gs := GroupBy(p, es);
    var i :| 0 <= i < |es| && es[i] == e;
    GroupByCorrect(p, es);
    assert KeyOf(p, es[i]) in Keys(gs);
    var g :| g in gs && g.key == KeyOf(p, es[i]);
    var gi :| 0 <= gi < |gs| && gs[gi] == g;
    NamesOfHas(gs, e.category);
  }

  /** A category name of the data heads one of the table's category rows. */
  lemma TitleOfName(d: ReportData, periods: seq<Label>, n: string)
    requires n in Names(d)
    ensures var t := Table(d, periods);
            exists j :: 0 <= j < |t| - 1 && t[j].title == n
  {
    var j :| 0 <= j < |d| && Names(d)[j] == n;
    TableShape(d, periods);
    var t := Table(d, periods);
    assert 0 <= j < |t| - 1 && t[j].title == n;
  }

  /**
    A successful flat report lists the range's labels, one row per category
    and the totals row last, whose cells are the column sums and whose final
    cell is the sum of the row totals.
  */
  lemma FlatReportTotals(entries: seq<Entry>, user: User, qp: Param, start: DateParam, end: DateParam, token: string, today: Date)
    requires Valid(today) && StoredEntries(entries)
    requires FlatReport(entries, user, qp, start, end, token, today).Ok?
    ensures var rep := FlatReport(entries, user, qp, start, end, token, today).value;
            var req := ReportPreamble(user, qp, start, end, token, today).value;
            var d := FlatData(GroupBy(req.period, AtPlace(entries, KeyLookup(req.key).value)));
            && rep.periods == DateRange(req.start, req.end, token)
            && |rep.rows| == |d| + 1
            && rep.rows[|d|].title == TotalTitle
            && (forall i :: 0 <= i < |rep.periods| ==> rep.rows[|d|].values[i] == Sum(ColumnOf(d, rep.periods[i])))
            && rep.rows[|d|].values[|rep.periods|] == Sum(RowTotals(d, rep.periods))
  {
    var req := ReportPreamble(user, qp, start, end, token, today).value;
    var d := FlatData(GroupBy(req.period, AtPlace(entries, KeyLookup(req.key).value)));
    var periods := DateRange(req.start, req.end, token);
    assert FlatReport(entries, user, qp, start, end, token, today).value == Report(periods, Table(d, periods));
    DateRangeDistinct(req.start, req.end, token);
    TableShape(d, periods);
    TotalRowSums(d, periods);
  }

  // ----- The hierarchical report -----

  /**
    One place of the hierarchical report: a place with children maps each
    child's name to its subtree; a leaf holds only its `data` table.
  */
  datatype Node =
    | Branch(children: seq<(string, Node)>)
    | Leaf(periods: seq<Label>, rows: seq<Row>)

  function KeysOf(kvs: seq<(string, Node)>): set<string>
  {
    set kv | kv in kvs :: kv.0
  }

  /** `d[k] = v` on a Python dict: a present key keeps its position, a new one goes last. */
  function Put(kvs: seq<(string, Node)>, k: string, v: Node): (r: seq<(string, Node)>)
    ensures KeysOf(r) == KeysOf(kvs) + {k}
    ensures (k, v) in r
    ensures |r| == if k in KeysOf(kvs) then |kvs| else |kvs| + 1
  {
    if |kvs| == 0 then [(k, v)]
    else if kvs[0].0 == k then
      assert forall kv :: kv in kvs <==> kv == kvs[0] || kv in kvs[1..];
      assert forall kv :: kv in [(k, v)] + kvs[1..] <==> kv == (k, v) || kv in kvs[1..];
      [(k, v)] + kvs[1..]
    else
      var rest := Put(kvs[1..], k, v);
      assert forall kv :: kv in kvs <==> kv == kvs[0] || kv in kvs[1..];
      assert forall kv :: kv in [kvs[0]] + rest <==> kv == kvs[0] || kv in rest;
      assert KeysOf(kvs) == {kvs[0].0} + KeysOf(kvs[1..]);
      assert KeysOf([kvs[0]] + rest) == {kvs[0].0} + KeysOf(rest);
      [kvs[0]] + rest
  }

  /** `expenses_by_place.get(place.id, [])`: the groups of one place, in order. */
  function GroupsAt(gs: seq<Group>, id: int): (r: seq<Group>)
    ensures forall g :: g in r <==> g in gs && g.key.place == Some(id)
  {
    if |gs| == 0 then []
    else
      var rest := GroupsAt(gs[1..], id);
      assert forall g :: g in gs <==> g == gs[0] || g in gs[1..];
      if gs[0].key.place == Some(id) then [gs[0]] + rest else rest
  }

  /** `build_place_hierarchy` (record/views.py:405-418), descending by the height of the place. */
  function Build(store: Store, ghost h: map<int, nat>, id: int, gs: seq<Group>, periods: seq<Label>): (n: Node)
    requires WellFormed(store, h) && id in h
    ensures n.Leaf? <==> |ChildrenOf(store, Some(id))| == 0
    decreases h[id], 1
  {
    var kids := ChildrenOf(store, Some(id));
    if |kids| > 0 then Branch(BuildKids(store, h, id, kids, gs, periods))
    else Leaf(periods, Table(LeafData(GroupsAt(gs, id)), periods))
  }

  /** The loop over the children, each child's name mapped to its subtree. */
  function BuildKids(store: Store, ghost h: map<int, nat>, id: int, kids: seq<Place>, gs: seq<Group>, periods: seq<Label>)
    : (r: seq<(string, Node)>)
    requires WellFormed(store, h) && id in h
    requires forall k :: k in kids ==> k in store && k.parent == Some(id)
    ensures KeysOf(r) == set k | k in kids :: k.name
    decreases h[id], 0, |kids|
  {
    if |kids| == 0 then []
    else
      var last := kids[|kids| - 1];
      assert last in store && last.parent == Some(id);
      var init := kids[..|kids| - 1];
      assert forall k :: k in kids <==> k in init || k == last;
      Put(BuildKids(store, h, id, init, gs, periods), last.name, Build(store, h, last.id, gs, periods))
  }

  /**
    A place with children becomes a map from exactly its children's names to
    their subtrees, and a childless place a leaf whose table is built from its
    own groups alone.
  */
  lemma BuildShape(store: Store, h: map<int, nat>, id: int, gs: seq<Group>, periods: seq<Label>)
    requires WellFormed(store, h) && id in h
    ensures Build(store, h, id, gs, periods).Branch? ==>
              KeysOf(Build(store, h, id, gs, periods).children) == set k | k in store && k.parent == Some(id) :: k.name
    ensures Build(store, h, id, gs, periods).Leaf? ==>
              Build(store, h, id, gs, periods).rows == Table(LeafData(GroupsAt(gs, id)), periods)
  {
    var kids := ChildrenOf(store, Some(id));
    assert (set k | k in kids :: k.name) == (set k | k in store && k.parent == Some(id) :: k.name);
  }

  /**
    Whether an entry falls in the hierarchical report: its place is listed and
    `date__range` holds it, which a null date never satisfies.
  */
  predicate InScope(e: Entry, ids: seq<int>, start: Date, end: Date)
  {
    e.place.Some? && e.place.value in ids && e.date.Some? && Le(start, e.date.value) && Le(e.date.value, end)
  }

  function Scoped(es: seq<Entry>, ids: seq<int>, start: Date, end: Date): (r: seq<Entry>)
    ensures forall e :: e in r <==> e in es && InScope(e, ids, start, end)
    ensures StoredEntries(es) ==> ValidEntries(r)
  {
    if |es| == 0 then []
    else
      var rest := Scoped(es[1..], ids, start, end);
      assert forall e :: e in es <==> e == es[0] || e in es[1..];
      if InScope(es[0], ids, start, end) then [es[0]] + rest else rest
  }

  /** The place id a report request names, once the preamble and the id's text pass. */
  function RequestedPlace(user: User, qp: Param, start: DateParam, end: DateParam, token: string, today: Date)
    : (r: Option<int>)
    requires Valid(today)
    ensures r.Some? <==> ReportPreamble(user, qp, start, end, token, today).Ok?
                         && KeyLookup(ReportPreamble(user, qp, start, end, token, today).value.key).Ok?
                         && KeyLookup(ReportPreamble(user, qp, start, end, token, today).value.key).value.Some?
    ensures r.Some? ==> KeyLookup(ReportPreamble(user, qp, start, end, token, today).value.key) == Ok(r)
  {
    match ReportPreamble(user, qp, start, end, token, today)
    case Err(_) => None
    case Ok(req) =>
      match KeyLookup(req.key)
      case Ok(Some(id)) => Some(id)
      case _ => None
  }

  /**
    `RecordHierarchicallyReportView.get` (record/views.py:336-401): the
    preamble, the ids under the requested place, that subtree's records in the
    date range grouped also by place, and the tree of tables under the root's
    name. Text that is no id is a `ValueError` (raised by the first
    `filter(parent_id=…)`, record/views.py:120), a missing or null place is
    `DoesNotExist`, and an existing place always gets its report.
  */
  method HierarchicalReport(store: Store, ghost h: map<int, nat>, entries: seq<Entry>, user: User, qp: Param,
                            start: DateParam, end: DateParam, token: string, today: Date)
    returns (r: Result<seq<(string, Node)>>)
    requires WellFormed(store, h) && Valid(today) && StoredEntries(entries)
    ensures ReportPreamble(user, qp, start, end, token, today).Err? ==>
              r == Err(ReportPreamble(user, qp, start, end, token, today).error)
    ensures r.Ok? ==>
              && RequestedPlace(user, qp, start, end, token, today).Some?
              && var req := ReportPreamble(user, qp, start, end, token, today).value;
                 var id := RequestedPlace(user, qp, start, end, token, today).value;
                 && Find(store, id).Some?
                 && |r.value| == 1
                 && r.value[0].0 == Find(store, id).value.name
                 && exists ids: seq<int> ::
                      (forall x :: x in ids <==> InSubtree(store, h, id, x))
                      && r.value[0].1 == Build(store, h, id, GroupBy(req.period, Scoped(entries, ids, req.start, req.end)),
                                               DateRange(req.start, req.end, token))
    ensures ReportPreamble(user, qp, start, end, token, today).Ok? ==>
              var req := ReportPreamble(user, qp, start, end, token, today).value;
              (KeyLookup(req.key) == Ok(None) ==> r == Err(DoesNotExist))
              && ((RequestedPlace(user, qp, start, end, token, today).Some?
                   && Find(store, RequestedPlace(user, qp, start, end, token, today).value).None?)
                  ==> r == Err(DoesNotExist))
    ensures (ReportPreamble(user, qp, start, end, token, today).Ok?
             && KeyLookup(ReportPreamble(user, qp, start, end, token, today).value.key).Err?) ==> r == Err(ValueError)
    ensures (RequestedPlace(user, qp, start, end, token, today).Some?
             && Find(store, RequestedPlace(user, qp, start, end, token, today).value).Some?) ==> r.Ok?
  {
    var pre := ReportPreamble(user, qp, start, end, token, today);
    if pre.Err? {
      return Err(pre.error);
    }
    r := ReportTree(store, h, entries, pre.value, token);
  }

  /** The part of the hierarchical report after the preamble: the place lookup and the tree of tables. */
  method ReportTree(store: Store, ghost h: map<int, nat>, entries: seq<Entry>, req: Request, token: string)
    returns (r: Result<seq<(string, Node)>>)
    requires WellFormed(store, h) && StoredEntries(entries) && Valid(req.start) && Valid(req.end)
    ensures KeyLookup(req.key).Err? ==> r == Err(KeyLookup(req.key).error)
    ensures KeyLookup(req.key) == Ok(None) ==> r == Err(DoesNotExist)
    ensures (KeyLookup(req.key).Ok? && KeyLookup(req.key).value.Some? && Find(store, KeyLookup(req.key).value.value).None?)
              ==> r == Err(DoesNotExist)
    ensures (KeyLookup(req.key).Ok? && KeyLookup(req.key).value.Some? && Find(store, KeyLookup(req.key).value.value).Some?)
              ==> r.Ok?
    ensures r.Ok? ==>
              && KeyLookup(req.key).Ok? && KeyLookup(req.key).value.Some?
              && var id := KeyLookup(req.key).value.value;
                 && Find(store, id).Some?
                 && |r.value| == 1
                 && r.value[0].0 == Find(store, id).value.name
                 && exists ids: seq<int> ::
                      (forall x :: x in ids <==> InSubtree(store, h, id, x))
                      && r.value[0].1 == Build(store, h, id, GroupBy(req.period, Scoped(entries, ids, req.start, req.end)),
                                               DateRange(req.start, req.end, token))
  {
    var lookup := KeyLookup(req.key);
    if lookup.Err? {
      return Err(lookup.error);
    }
    if lookup.value.None? {
      return Err(DoesNotExist);
    }
    var id := lookup.value.value;
    var root := Find(store, id);
    if root.None? {
      return Err(DoesNotExist);
    }
    assert root.value in store;
    var ids := DescendantIds(store, h, id);
    var periods := DateRange(req.start, req.end, token);
    var gs := GroupBy(req.period, Scoped(entries, ids, req.start, req.end));
    r := Ok([(root.value.name, Build(store, h, id, gs, periods))]);
  }

  // ----- A leaf's cells, end to end -----

  /** The ledger-signed amounts of one place's entries for one category and one label. */
  function EntrySum(p: Period, es: seq<Entry>, id: int, n: string, l: Label): int
    requires ValidEntries(es)
  {
    if |es| == 0 then 0
    else
      var e := es[|es| - 1];
      EntrySum(p, es[..|es| - 1], id, n, l)
      + (if e.place == Some(id) && e.category == n && Bucket(p, e.date.value) == l then LedgerSigned(e.op, e.amount) else 0)
  }

  /** The ledger-signed totals of one place's groups for one category and one label. */
  function GroupSumAt(gs: seq<Group>, id: int, n: string, l: Label): int
  {
    if |gs| == 0 then 0
    else
      (if gs[0].key.place == Some(id) && Hits(gs[0], n, l) then LedgerSigned(gs[0].key.op, gs[0].total) else 0)
      + GroupSumAt(gs[1..], id, n, l)
  }

  lemma {:induction false} HitSumAppend(a: seq<Group>, b: seq<Group>, n: string, l: Label)
    ensures HitSum(a + b, n, l) == HitSum(a, n, l) + HitSum(b, n, l)
    decreases |b|
  {
    if |b| == 0 {
      assert a + b == a;
    } else {
      assert (a + b)[..|a + b| - 1] == a + b[..|b| - 1];
      HitSumAppend(a, b[..|b| - 1], n, l);
    }
  }

  /** Summing over the groups kept for one place is summing that place's groups. */
  lemma {:induction false} GroupsAtSum(gs: seq<Group>, id: int, n: string, l: Label)
    ensures HitSum(GroupsAt(gs, id), n, l) == GroupSumAt(gs, id, n, l)
    decreases |gs|
  {
    if |gs| > 0 {
      GroupsAtSum(gs[1..], id, n, l);
      if gs[0].key.place == Some(id) {
        HitSumAppend([gs[0]], GroupsAt(gs[1..], id), n, l);
        assert [gs[0]][..0] == [];
      }
    }
  }

  /** Adding an amount to a group adds its signed value to the sum of the cell it lands in. */
  lemma {:induction false} GroupSumAddTo(gs: seq<Group>, k: GroupKey, a: int, id: int, n: string, l: Label)
    ensures GroupSumAt(AddTo(gs, k, a), id, n, l)
            == GroupSumAt(gs, id, n, l)
               + (if k.place == Some(id) && k.category == n && k.bucket == l then LedgerSigned(k.op, a) else 0)
    decreases |gs|
  {
    if |gs| > 0 && gs[0].key != k {
      GroupSumAddTo(gs[1..], k, a, id, n, l);
      assert AddTo(gs, k, a)[1..] == AddTo(gs[1..], k, a);
    } else if |gs| > 0 {
      assert AddTo(gs, k, a)[1..] == gs[1..];
    }
  }

  lemma {:induction false} GroupBySums(p: Period, es: seq<Entry>, id: int, n: string, l: Label)
    requires ValidEntries(es)
    ensures GroupSumAt(GroupBy(p, es), id, n, l) == EntrySum(p, es, id, n, l)
    decreases |es|
  {
    if |es| > 0 {
      var e := es[|es| - 1];
      GroupBySums(p, es[..|es| - 1], id, n, l);
      GroupSumAddTo(GroupBy(p, es[..|es| - 1]), KeyOf(p, e), e.amount, id, n, l);
    }
  }

  /**
    A leaf's cell for a category and a label is the signed sum of the amounts
    of that leaf's own records of the category whose dates fall in that
    label's bucket, expense counted negative and anything else positive.
  */
  lemma LeafCellIsSignedSum(p: Period, es: seq<Entry>, id: int, n: string, l: Label)
    requires ValidEntries(es)
    ensures Get(LeafData(GroupsAt(GroupBy(p, es), id)), n, l) == EntrySum(p, es, id, n, l)
  {
    LeafDataCells(GroupsAt(GroupBy(p, es), id));
    GroupsAtSum(GroupBy(p, es), id, n, l);
    GroupBySums(p, es, id, n, l);
  }
}
