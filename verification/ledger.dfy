/**
  Records as the report queries read them: each record joined with its
  category, grouped by (period bucket, category name, operation type, place)
  with the amounts summed, and the two sign rules the reports apply.
*/
module Ledger {
  import opened Common
  import opened Domain
  import opened Calendar
  import opened Periods

  /**
    A record joined with its category: `date`, `category__name`,
    `category__operation_type`, `place_id`, `amount`. The root app's date
    column is nullable (core/models.py:224).
  */
  datatype Entry = Entry(date: Option<Date>, category: string, op: OpType, place: Option<int>, amount: int)

  /** The columns a report query groups by. */
  datatype GroupKey = GroupKey(bucket: Label, category: string, op: OpType, place: Option<int>)

  /** One row of `.values(...).annotate(total_amount=Sum('amount'))`. */
  datatype Group = Group(key: GroupKey, total: int)

  /** What the table can hold: a date, when the column is not null, is a real one. */
  predicate StoredEntries(es: seq<Entry>)
  {
    forall i :: 0 <= i < |es| ==> es[i].date.Some? ==> Valid(es[i].date.value)
  }

  /** What bucketing by period needs: every record carries a real date. */
  predicate ValidEntries(es: seq<Entry>)
  {
    forall i :: 0 <= i < |es| ==> es[i].date.Some? && Valid(es[i].date.value)
  }

  function KeyOf(p: Period, e: Entry): GroupKey
    requires e.date.Some? && Valid(e.date.value)
  {
    GroupKey(Bucket(p, e.date.value), e.category, e.op, e.place)
  }

  /** The reference total of a key: the amounts of every entry carrying it, added up. */
  function TotalFor(p: Period, es: seq<Entry>, k: GroupKey): int
    requires ValidEntries(es)
  {
    if |es| == 0 then 0
    else TotalFor(p, es[..|es| - 1], k) + (if KeyOf(p, es[|es| - 1]) == k then es[|es| - 1].amount else 0)
  }

  /** The key of each entry, in entry order. */
  function KeySeq(p: Period, es: seq<Entry>): (ks: seq<GroupKey>)
    requires ValidEntries(es)
    ensures |ks| == |es| && forall i :: 0 <= i < |es| ==> ks[i] == KeyOf(p, es[i])
  {
    if |es| == 0 then [] else KeySeq(p, es[..|es| - 1]) + [KeyOf(p, es[|es| - 1])]
  }

  function Keys(gs: seq<Group>): set<GroupKey>
  {
    set g | g in gs :: g.key
  }

  predicate DistinctKeys(gs: seq<Group>)
  {
    forall i, j :: 0 <= i < j < |gs| ==> gs[i].key != gs[j].key
  }

  /** The total a grouping holds for a key, 0 when it has no such group. */
  function TotalOf(gs: seq<Group>, k: GroupKey): int
  {
    if |gs| == 0 then 0 else (if gs[0].key == k then gs[0].total else 0) + TotalOf(gs[1..], k)
  }

  /** Adds an amount to the group of `k`, opening that group at the end when it is new. */
  function AddTo(gs: seq<Group>, k: GroupKey, a: int): (r: seq<Group>)
    ensures Keys(r) == Keys(gs) + {k}
    ensures |r| == if k in Keys(gs) then |gs| else |gs| + 1
  {
    if |gs| == 0 then [Group(k, a)]
    else if gs[0].key == k then [Group(k, gs[0].total + a)] + gs[1..]
    else
      KeysCons(gs[0], AddTo(gs[1..], k, a));
      KeysCons(gs[0], gs[1..]);
      assert [gs[0]] + gs[1..] == gs;
      [gs[0]] + AddTo(gs[1..], k, a)
  }

  lemma KeysCons(g: Group, gs: seq<Group>)
    ensures Keys([g] + gs) == {g.key} + Keys(gs)
  {
    assert forall x :: x in [g] + gs <==> x == g || x in gs;
  }

  lemma {:induction false} AddToTotals(gs: seq<Group>, k: GroupKey, a: int, k': GroupKey)
    requires DistinctKeys(gs)
    ensures DistinctKeys(AddTo(gs, k, a))
    ensures TotalOf(AddTo(gs, k, a), k') == TotalOf(gs, k') + (if k == k' then a else 0)
    decreases |gs|
  {
    AddToDistinct(gs, k, a);
    if |gs| > 0 {
      var r := AddTo(gs, k, a);
      if gs[0].key == k {
        assert r[1..] == gs[1..];
        KeyAbsentTotal(gs[1..], k');
        if k == k' {
          assert k !in Keys(gs[1..]);
        }
      } else {
        assert r[1..] == AddTo(gs[1..], k, a);
        AddToTotals(gs[1..], k, a, k');
      }
    }
  }

  /** Adding to a grouping with distinct keys keeps the keys distinct. */
  lemma {:induction false} AddToDistinct(gs: seq<Group>, k: GroupKey, a: int)
    requires DistinctKeys(gs)
    ensures DistinctKeys(AddTo(gs, k, a))
    decreases |gs|
  {
    if |gs| > 0 && gs[0].key != k {
      var r := AddTo(gs, k, a);
      var rest := AddTo(gs[1..], k, a);
      assert r == [gs[0]] + rest;
      AddToDistinct(gs[1..], k, a);
      forall g | g in rest
        ensures g.key != gs[0].key
      {
        assert g.key in Keys(gs[1..]) + {k};
        if g.key in Keys(gs[1..]) {
          var g' :| g' in gs[1..] && g'.key == g.key;
          var j :| 0 <= j < |gs[1..]| && gs[1..][j] == g';
          assert gs[j + 1].key == g.key;
        }
      }
      forall i, j | 0 <= i < j < |r|
        ensures r[i].key != r[j].key
      {
        if i == 0 {
          assert r[j] in rest;
        } else {
          assert r[i] == rest[i - 1] && r[j] == rest[j - 1];
        }
      }
    }
  }

  /** A key with no group totals 0. */
  lemma {:induction false} KeyAbsentTotal(gs: seq<Group>, k: GroupKey)
    ensures k !in Keys(gs) ==> TotalOf(gs, k) == 0
    decreases |gs|
  {
    if |gs| > 0 {
      KeyAbsentTotal(gs[1..], k);
      assert Keys(gs[1..]) <= Keys(gs);
    }
  }

  /** The grouped query, groups in order of first appearance. */
  function GroupBy(p: Period, es: seq<Entry>): (gs: seq<Group>)
    requires ValidEntries(es)
  {
    if |es| == 0 then []
    else AddTo(GroupBy(p, es[..|es| - 1]), KeyOf(p, es[|es| - 1]), es[|es| - 1].amount)
  }

  /**
    The grouping has one group per key that occurs, none for a key that does
    not, and each group's total is the sum of its entries' amounts.
  */
  lemma {:induction false} GroupByCorrect(p: Period, es: seq<Entry>)
    requires ValidEntries(es)
    ensures DistinctKeys(GroupBy(p, es))
    ensures forall k :: k in Keys(GroupBy(p, es)) <==> k in KeySeq(p, es)
    ensures forall k :: TotalOf(GroupBy(p, es), k) == TotalFor(p, es, k)
    decreases |es|
  {
    if |es| > 0 {
      var init := es[..|es| - 1];
      GroupByCorrect(p, init);
      GroupByStepTotals(p, es, init);
      GroupByStepKeys(p, es, init);
    }
  }

  /** The last entry adds its amount to its own key's total and to no other. */
  lemma GroupByStepTotals(p: Period, es: seq<Entry>, init: seq<Entry>)
    requires ValidEntries(es) && |es| > 0 && init == es[..|es| - 1]
    requires DistinctKeys(GroupBy(p, init))
    requires forall k :: TotalOf(GroupBy(p, init), k) == TotalFor(p, init, k)
    ensures DistinctKeys(GroupBy(p, es))
    ensures forall k :: TotalOf(GroupBy(p, es), k) == TotalFor(p, es, k)
  {
    var e := es[|es| - 1];
    forall k
      ensures TotalOf(GroupBy(p, es), k) == TotalFor(p, es, k)
    {
      AddToTotals(GroupBy(p, init), KeyOf(p, e), e.amount, k);
    }
    AddToTotals(GroupBy(p, init), KeyOf(p, e), e.amount, KeyOf(p, e));
  }

  /** The last entry's key joins the keys of the earlier entries. */
  lemma GroupByStepKeys(p: Period, es: seq<Entry>, init: seq<Entry>)
    requires ValidEntries(es) && |es| > 0 && init == es[..|es| - 1]
    requires forall k :: k in Keys(GroupBy(p, init)) <==> k in KeySeq(p, init)
    ensures forall k :: k in Keys(GroupBy(p, es)) <==> k in KeySeq(p, es)
  {
    var e := es[|es| - 1];
    assert Keys(GroupBy(p, es)) == Keys(GroupBy(p, init)) + {KeyOf(p, e)};
    assert KeySeq(p, es) == KeySeq(p, init) + [KeyOf(p, e)];
  }

  // ----- Signs -----

  /** The flat report's rule (record/views.py:234-237): income counts positive, anything else negative. */
  function FlatSigned(op: OpType, amount: int): (r: int)
    ensures op == Income ==> r == amount
    ensures op != Income ==> r == -amount
  {
    if op == Income then amount else -amount
  }

  /**
    The hierarchical report's and the profit's rule (record/views.py:427-428,
    461-465): expense counts negative, anything else positive.
  */
  function LedgerSigned(op: OpType, amount: int): (r: int)
    ensures op == Expense ==> r == -amount
    ensures op != Expense ==> r == amount
  {
    if op == Expense then -amount else amount
  }

  /**
    The two rules agree on the two operation types the schema offers and
    disagree on any other stored value.
  */
  lemma SignRulesAgree(op: OpType, amount: int)
    ensures op != OtherOp ==> FlatSigned(op, amount) == LedgerSigned(op, amount)
    ensures op == OtherOp ==> FlatSigned(op, amount) == -LedgerSigned(op, amount)
  {
  }

  // ----- `ReportProfitView` -----

  function SignedTotal(es: seq<Entry>, place: int): int
  {
    if |es| == 0 then 0
    else SignedTotal(es[..|es| - 1], place)
         + (if es[|es| - 1].place == Some(place) then LedgerSigned(es[|es| - 1].op, es[|es| - 1].amount) else 0)
  }

  predicate HasRecordAt(es: seq<Entry>, place: int)
  {
    exists i :: 0 <= i < |es| && es[i].place == Some(place)
  }

  /**
    record/views.py:459-466: the signed sum over the records of one place;
    SQL's `SUM` over no rows is null.
  */
  function Profit(es: seq<Entry>, place: int): (r: Option<int>)
    ensures r.None? <==> !HasRecordAt(es, place)
  {
    if HasRecordAt(es, place) then Some(SignedTotal(es, place)) else None
  }

  /** The amounts of one place's records of one operation type. */
  function AmountOf(es: seq<Entry>, place: int, op: OpType): int
  {
    if |es| == 0 then 0
    else AmountOf(es[..|es| - 1], place, op)
         + (if es[|es| - 1].place == Some(place) && es[|es| - 1].op == op then es[|es| - 1].amount else 0)
  }

  /** Profit is income minus expense, with any other operation type counted like income. */
  lemma {:induction false} ProfitIsIncomeMinusExpense(es: seq<Entry>, place: int)
    ensures HasRecordAt(es, place) ==>
              Profit(es, place) == Some(AmountOf(es, place, Income) - AmountOf(es, place, Expense) + AmountOf(es, place, OtherOp))
    ensures SignedTotal(es, place) ==
              AmountOf(es, place, Income) - AmountOf(es, place, Expense) + AmountOf(es, place, OtherOp)
    decreases |es|
  {
    if |es| > 0 {
      ProfitIsIncomeMinusExpense(es[..|es| - 1], place);
    }
  }

  /** The profit of two batches of records is the sum of their profits. */
  lemma {:induction false} ProfitAppend(a: seq<Entry>, b: seq<Entry>, place: int)
    ensures SignedTotal(a + b, place) == SignedTotal(a, place) + SignedTotal(b, place)
    decreases |b|
  {
    if |b| == 0 {
      assert a + b == a;
    } else {
      assert (a + b)[..|a + b| - 1] == a + b[..|b| - 1];
      ProfitAppend(a, b[..|b| - 1], place);
    }
  }
}
