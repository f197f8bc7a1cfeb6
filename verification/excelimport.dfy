/**
  `UploadExcelView.post` (place/excel.py:40-75): an administrator uploads a
  workbook whose second sheet lists places from cell C4 down, a name and an
  INN per row. A named row without an INN opens a new root place; a named row
  with an INN adds a mosque under the latest such root.
*/
module ExcelImport {
  import opened Common
  import opened Domain
  import opened Forest
  import opened Audit

  /** Columns C and D of one sheet row: the place name and the INN; an empty cell is `None`. */
  type SheetRow = (Option<string>, Option<string>)

  /** Python truthiness of a text cell. */
  predicate Filled(c: Option<string>)
  {
    c.Some? && c.value != ""
  }

  /** `max_length` of `Place.name` and `Place.inn` (core/models.py:208-209); longer text fails the insert. */
  const MaxLength := 255

  predicate Fits(row: SheetRow)
  {
    (row.0.Some? ==> |row.0.value| <= MaxLength) && (row.1.Some? ==> |row.1.value| <= MaxLength)
  }

  /** The place table with its key sequence, the activity log and the loop's `parent_place`. */
  datatype State = State(store: Store, next: int, log: seq<LogEntry>, parent: Option<int>)

  /** The place a named row creates, with the key `id`, under `parent`. */
  function NewPlace(id: int, name: string, inn: Option<string>, parent: Option<int>): (p: Place)
    ensures p.Place? && p.id == id && p.name == name && p.employeeCount == 0
    ensures p.isMosque <==> Filled(inn)
    ensures !Filled(inn) ==> p.parent.None? && p.inn == ""
    ensures Filled(inn) ==> p.parent == parent && p.inn == inn.value
  {
    if !Filled(inn) then Place(id, name, None, "", false, 0)
    else Place(id, name, parent, inn.value, true, 0)
  }

  /**
    One iteration of the loop (place/excel.py:59-70): a row without a name is
    skipped; otherwise `Place.objects.create` inserts a place (logged as a
    'create' with no user) and an INN-less place becomes the parent of the
    rows after it. `None` stands for an insert that raises.
  */
  function Step(st: State, row: SheetRow): (r: Option<State>)
    ensures !Filled(row.0) ==> r == Some(st)
    ensures Filled(row.0) && !Fits(row) ==> r.None?
  {
    if !Filled(row.0) then Some(st)
    else if !Fits(row) then None
    else
      var p := NewPlace(st.next, row.0.value, row.1, st.parent);
      Some(State(
        st.store + [p],
        st.next + 1,
        st.log + [LogFor(PlaceKind, Create, Some(st.next), None)],
        if Filled(row.1) then st.parent else Some(st.next)))
  }

  /** The outcome of the loop: the state reached and whether an insert raised. */
  datatype Run = Run(state: State, failed: bool)

  /** The loop over the rows in order; the first insert that raises ends it, keeping what came before. */
  function Fold(st: State, rows: seq<SheetRow>): Run
    decreases |rows|
  {
    if |rows| == 0 then Run(st, false)
    else
      match Step(st, rows[0])
      case None => Run(st, true)
      case Some(st') => Fold(st', rows[1..])
  }

  // ----- The reference: what each named row creates -----

  /** The rows that have a name, as (name, INN). */
  function Named(rows: seq<SheetRow>): (r: seq<(string, Option<string>)>)
    ensures |r| <= |rows|
  {
    if |rows| == 0 then []
    else if Filled(rows[0].0) then [(rows[0].0.value, rows[0].1)] + Named(rows[1..])
    else Named(rows[1..])
  }

  /** The position of the last INN-less entry among the first `j` named rows. */
  function LastRoot(named: seq<(string, Option<string>)>, j: nat): (r: Option<nat>)
    requires j <= |named|
    ensures r.Some? ==> r.value < j && !Filled(named[r.value].1)
    ensures r.Some? ==> forall i :: r.value < i < j ==> Filled(named[i].1)
    ensures r.None? ==> forall i :: 0 <= i < j ==> Filled(named[i].1)
  {
    if j == 0 then None
    else if !Filled(named[j - 1].1) then Some(j - 1)
    else LastRoot(named, j - 1)
  }

  /**
    The place the `j`-th named row creates when the loop starts with key
    `next` and parent `parent0`: the key `next + j`; for a mosque, the parent
    is the place of the latest INN-less row before it, or `parent0` if none.
  */
  function Expected(named: seq<(string, Option<string>)>, j: nat, next: int, parent0: Option<int>): Place
    requires j < |named|
  {
    var lr := LastRoot(named, j);
    NewPlace(next + j, named[j].0, named[j].1, if lr.Some? then Some(next + lr.value) else parent0)
  }

  /** The parent after the first `j` named rows. */
  function ParentAfter(named: seq<(string, Option<string>)>, j: nat, next: int, parent0: Option<int>): Option<int>
    requires j <= |named|
  {
    var lr := LastRoot(named, j);
    if lr.Some? then Some(next + lr.value) else parent0
  }

  /** Shifting the named rows by one shifts the latest INN-less position by one. */
  lemma {:induction false} LastRootShift(x: (string, Option<string>), rest: seq<(string, Option<string>)>, j: nat)
    requires j <= |rest|
    ensures LastRoot([x] + rest, j + 1) ==
              if LastRoot(rest, j).Some? then Some(LastRoot(rest, j).value + 1)
              else if !Filled(x.1) then Some(0) else None
    decreases j
  {
    var s := [x] + rest;
    assert s[j] == if j == 0 then x else rest[j - 1];
    if j > 0 {
      LastRootShift(x, rest, j - 1);
    }
  }

  /** The places the named rows create, in order. */
  function Expecteds(named: seq<(string, Option<string>)>, next: int, parent0: Option<int>): (r: seq<Place>)
    ensures |r| == |named|
    ensures forall j :: 0 <= j < |named| ==> r[j] == Expected(named, j, next, parent0)
  {
    seq(|named|, j requires 0 <= j < |named| => Expected(named, j, next, parent0))
  }

  /** The log entries of `n` inserts with consecutive keys from `next`, none with a user. */
  function CreateLogs(next: int, n: nat): (r: seq<LogEntry>)
    ensures |r| == n
    ensures forall j :: 0 <= j < n ==> r[j] == LogFor(PlaceKind, Create, Some(next + j), None)
  {
    seq(n, j requires 0 <= j < n => LogFor(PlaceKind, Create, Some(next + j), None))
  }

  /** The reference for a named row followed by the rest: its place, then the rest's places one key later. */
  lemma ExpectedsCons(x: (string, Option<string>), rest: seq<(string, Option<string>)>, next: int, parent0: Option<int>)
    ensures Expecteds([x] + rest, next, parent0)
            == [NewPlace(next, x.0, x.1, parent0)] + Expecteds(rest, next + 1, if Filled(x.1) then parent0 else Some(next))
    ensures ParentAfter([x] + rest, |rest| + 1, next, parent0)
            == ParentAfter(rest, |rest|, next + 1, if Filled(x.1) then parent0 else Some(next))
  {
    var l := Expecteds([x] + rest, next, parent0);
    var r := [NewPlace(next, x.0, x.1, parent0)] + Expecteds(rest, next + 1, if Filled(x.1) then parent0 else Some(next));
    forall j | 0 <= j < |l|
      ensures l[j] == r[j]
    {
      if j > 0 {
        ExpectedShift(x, rest, j - 1, next, parent0);
      } else {
        assert ([x] + rest)[0] == x;
      }
    }
    LastRootShift(x, rest, |rest|);
  }

  /** The row after `x` creates, one key later, what it would create first in line after `x`'s row. */
  lemma ExpectedShift(x: (string, Option<string>), rest: seq<(string, Option<string>)>, j: nat, next: int, parent0: Option<int>)
    requires j < |rest|
    ensures Expected([x] + rest, j + 1, next, parent0)
            == Expected(rest, j, next + 1, if Filled(x.1) then parent0 else Some(next))
  {
    LastRootShift(x, rest, j);
    assert ([x] + rest)[j + 1] == rest[j];
  }

  /**
    A run without failure creates exactly one place per named row, in row
    order, each as the reference says, logs one 'create' per place with no
    user, and leaves the old rows as they were.
  */
  lemma {:induction false} FoldCreates(st: State, rows: seq<SheetRow>)
    requires !Fold(st, rows).failed
    ensures var s := Fold(st, rows).state;
            var named := Named(rows);
            && s.store == st.store + Expecteds(named, st.next, st.parent)
            && s.log == st.log + CreateLogs(st.next, |named|)
            && s.next == st.next + |named|
            && s.parent == ParentAfter(named, |named|, st.next, st.parent)
    decreases |rows|
  {
    if |rows| > 0 {
      var st' := Step(st, rows[0]).value;
      assert Fold(st, rows) == Fold(st', rows[1..]);
      FoldCreates(st', rows[1..]);
      if Filled(rows[0].0) {
        var x := (rows[0].0.value, rows[0].1);
        var rest := Named(rows[1..]);
        var s := Fold(st', rows[1..]).state;
        assert Named(rows) == [x] + rest;
        assert st' == State(st.store + [NewPlace(st.next, x.0, x.1, st.parent)], st.next + 1,
                            st.log + [LogFor(PlaceKind, Create, Some(st.next), None)],
                            if Filled(x.1) then st.parent else Some(st.next));
        NamedStep(st, x, rest, st', s);
      } else {
        assert st' == st;
        assert Named(rows) == Named(rows[1..]);
      }
    }
  }

  /** The induction step of `FoldCreates` for a named row. */
  lemma NamedStep(st: State, x: (string, Option<string>), rest: seq<(string, Option<string>)>, st': State, s: State)
    requires st' == State(st.store + [NewPlace(st.next, x.0, x.1, st.parent)], st.next + 1,
                          st.log + [LogFor(PlaceKind, Create, Some(st.next), None)],
                          if Filled(x.1) then st.parent else Some(st.next))
    requires s.store == st'.store + Expecteds(rest, st'.next, st'.parent)
    requires s.log == st'.log + CreateLogs(st'.next, |rest|)
    requires s.next == st'.next + |rest|
    requires s.parent == ParentAfter(rest, |rest|, st'.next, st'.parent)
    ensures s.store == st.store + Expecteds([x] + rest, st.next, st.parent)
    ensures s.log == st.log + CreateLogs(st.next, |rest| + 1)
    ensures s.next == st.next + (|rest| + 1)
    ensures s.parent == ParentAfter([x] + rest, |rest| + 1, st.next, st.parent)
  {
    NamedStepStore(st, x, rest, st', s);
    NamedStepLog(st.log, st.next, |rest|, s.log);
    ExpectedsCons(x, rest, st.next, st.parent);
  }

  /** The induction step of `FoldCreates` for a named row, on the table. */
  lemma NamedStepStore(st: State, x: (string, Option<string>), rest: seq<(string, Option<string>)>, st': State, s: State)
    requires st' == State(st.store + [NewPlace(st.next, x.0, x.1, st.parent)], st.next + 1,
                          st.log + [LogFor(PlaceKind, Create, Some(st.next), None)],
                          if Filled(x.1) then st.parent else Some(st.next))
    requires s.store == st'.store + Expecteds(rest, st'.next, st'.parent)
    ensures s.store == st.store + Expecteds([x] + rest, st.next, st.parent)
  {
    ExpectedsCons(x, rest, st.next, st.parent);
    var p0 := NewPlace(st.next, x.0, x.1, st.parent);
    assert st.store + [p0] + Expecteds(rest, st.next + 1, st'.parent)
        == st.store + ([p0] + Expecteds(rest, st.next + 1, st'.parent));
  }

  /** The induction step of `FoldCreates` for a named row, on the log. */
  lemma NamedStepLog(log: seq<LogEntry>, next: int, n: nat, s: seq<LogEntry>)
    requires s == log + [LogFor(PlaceKind, Create, Some(next), None)] + CreateLogs(next + 1, n)
    ensures s == log + CreateLogs(next, n + 1)
  {
    var e0 := LogFor(PlaceKind, Create, Some(next), None);
    assert CreateLogs(next, n + 1) == [e0] + CreateLogs(next + 1, n);
    assert log + [e0] + CreateLogs(next + 1, n) == log + ([e0] + CreateLogs(next + 1, n));
  }

  /**
    A run that fails stops at a named row that does not fit the columns; the
    places of the rows before it stay, exactly as a run over those rows alone
    leaves them.
  */
  lemma {:induction false} FailureKeepsEarlierRows(st: State, rows: seq<SheetRow>)
    requires Fold(st, rows).failed
    ensures exists k :: 0 <= k < |rows| && Filled(rows[k].0) && !Fits(rows[k])
                        && !Fold(st, rows[..k]).failed && Fold(st, rows).state == Fold(st, rows[..k]).state
    decreases |rows|
  {
    var r0 := Step(st, rows[0]);
    if r0.None? {
      assert rows[..0] == [];
      assert Filled(rows[0].0) && !Fits(rows[0]);
    } else {
      FailureKeepsEarlierRows(r0.value, rows[1..]);
      var k :| 0 <= k < |rows[1..]| && Filled(rows[1..][k].0) && !Fits(rows[1..][k])
               && !Fold(r0.value, rows[1..][..k]).failed && Fold(r0.value, rows[1..]).state == Fold(r0.value, rows[1..][..k]).state;
      assert rows[..k + 1][1..] == rows[1..][..k];
      assert rows[..k + 1][0] == rows[0];
      assert rows[k + 1] == rows[1..][k];
    }
  }

  /**
    Depth at most two: every new place is a root, or a mosque whose parent is
    a new INN-less root, or (for mosques before any root) the parent the loop
    started with.
  */
  lemma DepthAtMostTwo(st: State, rows: seq<SheetRow>)
    requires !Fold(st, rows).failed
    ensures var s := Fold(st, rows).state;
            forall j :: |st.store| <= j < |s.store| ==>
              || s.store[j].parent.None?
              || s.store[j].parent == st.parent
              || exists i :: |st.store| <= i < |s.store| && s.store[i].Place? && s.store[i].parent.None?
                             && !s.store[i].isMosque && s.store[j].parent == Some(s.store[i].id)
  {
    FoldCreates(st, rows);
    var s := Fold(st, rows).state;
    var named := Named(rows);
    forall j | |st.store| <= j < |s.store|
      ensures || s.store[j].parent.None?
              || s.store[j].parent == st.parent
              || exists i :: |st.store| <= i < |s.store| && s.store[i].Place? && s.store[i].parent.None?
                             && !s.store[i].isMosque && s.store[j].parent == Some(s.store[i].id)
    {
      var jj := j - |st.store|;
      assert s.store[j] == Expected(named, jj, st.next, st.parent);
      var lr := LastRoot(named, jj);
      if lr.Some? && Filled(named[jj].1) {
        var i := |st.store| + lr.value;
        assert s.store[i] == Expected(named, lr.value, st.next, st.parent);
      }
    }
  }

  /** What the request carries in `request.FILES['file']`. */
  datatype Upload = NoFile | Unreadable | Workbook(sheets: seq<seq<SheetRow>>)

  /** The view's answer, with the table and the log it leaves behind. */
  datatype Response = Response(state: State, status: Result<()>)

  /**
    `post`: only an administrator may upload (`PermissionDenied` otherwise,
    before the file is looked at); no file is a 400; an unreadable workbook,
    a missing second sheet or an insert that raises is a 500, with the places
    already created kept; otherwise 201.
  */
  function Post(store: Store, next: int, log: seq<LogEntry>, user: User, file: Upload): (r: Response)
    ensures user.role != Admin ==> r == Response(State(store, next, log, None), Err(PermissionDenied))
    ensures user.role == Admin && file.NoFile? ==> r == Response(State(store, next, log, None), Err(BadRequest))
    ensures r.status.Err? ==> r.status.error in {PermissionDenied, BadRequest, ServerError}
  {
    var st := State(store, next, log, None);
    if user.role != Admin then Response(st, Err(PermissionDenied))
    else
      match file
      case NoFile => Response(st, Err(BadRequest))
      case Unreadable => Response(st, Err(ServerError))
      case Workbook(sheets) =>
        if |sheets| < 2 then Response(st, Err(ServerError))
        else
          var run := Fold(st, sheets[1]);
          Response(run.state, if run.failed then Err(ServerError) else Ok(()))
  }

  /**
    A successful upload appends one place per named row of the second sheet
    to the table, each as the reference says, starting with no parent.
  */
  lemma PostCreates(store: Store, next: int, log: seq<LogEntry>, user: User, sheets: seq<seq<SheetRow>>)
    requires user.role == Admin
    requires Post(store, next, log, user, Workbook(sheets)).status.Ok?
    ensures var s := Post(store, next, log, user, Workbook(sheets)).state;
            var named := Named(sheets[1]);
            && s.store == store + Expecteds(named, next, None)
            && s.log == log + CreateLogs(next, |named|)
  {
    FoldCreates(State(store, next, log, None), sheets[1]);
  }
}
