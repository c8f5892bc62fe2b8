/** The metrics page: the active debtors and their visible payments, the
    summary figures, the pie chart and the table of amounts received per
    debtor. */
module Metrics {
  import opened Wrappers
  import opened Seqs
  import opened Records
  import opened Balance

  /** The debtors the metrics count: neither deleted nor archived, in snapshot order. */
  function ActiveDebtors(all: seq<Debtor>): seq<Debtor> {
    Filter(all, IsActive)
  }

  /** Position `i` holds the last debtor of `ds` with identifier `id`. */
  predicate LastWith(ds: seq<Debtor>, id: string, i: int) {
    0 <= i < |ds| && ds[i].id == id && forall j :: i < j < |ds| ==> ds[j].id != id
  }

  /** `debtorById[id]`: the map is built by spreading the debtors in order, so
      the last debtor with the identifier wins. */
  function ById(ds: seq<Debtor>, id: string): (r: Option<Debtor>)
    ensures r.None? <==> forall i :: 0 <= i < |ds| ==> ds[i].id != id
    ensures r.Some? ==> exists i :: LastWith(ds, id, i) && ds[i] == r.value
  {
    if |ds| == 0 then None
    else if ds[|ds| - 1].id == id then
      assert LastWith(ds, id, |ds| - 1);
      Some(ds[|ds| - 1])
    else
      var r := ById(ds[..|ds| - 1], id);
      ByIdStep(ds, ds[..|ds| - 1], id, r);
      r
  }

  lemma {:induction false} ByIdStep(ds: seq<Debtor>, pre: seq<Debtor>, id: string, r: Option<Debtor>)
    requires |ds| > 0 && ds[|ds| - 1].id != id && pre == ds[..|ds| - 1]
    requires r.None? <==> forall i :: 0 <= i < |pre| ==> pre[i].id != id
    requires r.Some? ==> exists i :: LastWith(pre, id, i) && pre[i] == r.value
    ensures r.None? <==> forall i :: 0 <= i < |ds| ==> ds[i].id != id
    ensures r.Some? ==> exists i :: LastWith(ds, id, i) && ds[i] == r.value
  {
    assert forall i :: 0 <= i < |pre| ==> pre[i] == ds[i];
    if r.Some? {
      var i :| LastWith(pre, id, i) && pre[i] == r.value;
      assert LastWith(ds, id, i);
    }
  }

  /** A payment the metrics count: not deleted, and of an active debtor. */
  function VisibleIn(active: seq<Debtor>): Payment -> bool {
    (p: Payment) => !p.deleted && ById(active, p.debtorId).Some?
  }

  function PaymentsVisible(active: seq<Debtor>, all: seq<Payment>): seq<Payment> {
    Filter(all, VisibleIn(active))
  }

  /** A payment counts as visible exactly when it is live and some active
      debtor has its debtor identifier. */
  lemma {:induction false} PaymentsVisibleMember(active: seq<Debtor>, all: seq<Payment>, p: Payment)
    ensures p in PaymentsVisible(active, all) <==>
      p in all && !p.deleted && exists i :: 0 <= i < |active| && active[i].id == p.debtorId
  {
    FilterMember(all, VisibleIn(active), p);
  }

  /** `p.date >= mStart && p.date <= mEnd`: a payment without a date is in no month. */
  function InMonth(mStart: int, mEnd: int): Payment -> bool {
    (p: Payment) => p.date.Some? && mStart <= p.date.value <= mEnd
  }

  datatype Stats = Stats(totalDevedores: nat, totalDevido: int, pagoTotal: int, pagoMensal: int, pendente: int)

  /** The summary figures: the count of active debtors, what they owe in all,
      what the visible payments add up to, the part paid in the month from
      `mStart` to `mEnd`, and what is still pending. */
  method ComputeStats(active: seq<Debtor>, visible: seq<Payment>, mStart: int, mEnd: int) returns (s: Stats)
    ensures s.totalDevedores == |active|
    ensures s.totalDevido == Sum(active, TotalOf)
    ensures s.pagoTotal == Sum(visible, AmountOf)
    ensures s.pagoMensal == Sum(Filter(visible, InMonth(mStart, mEnd)), AmountOf)
    ensures s.pendente >= 0 && s.pendente >= s.totalDevido - s.pagoTotal
    ensures s.pendente == 0 || s.pendente == s.totalDevido - s.pagoTotal
    ensures (forall i :: 0 <= i < |visible| ==> AmountOf(visible[i]) >= 0) ==> 0 <= s.pagoMensal <= s.pagoTotal
  {
    var totalDevido := Sum(active, TotalOf);
    var pagoTotal, pagoMensal := 0, 0;
    var inMonth := InMonth(mStart, mEnd);
    var i := 0;
    while i < |visible|
      invariant 0 <= i <= |visible|
      invariant pagoTotal == Sum(visible[..i], AmountOf)
      invariant pagoMensal == Sum(Filter(visible[..i], inMonth), AmountOf)
    {
      var p := visible[i];
      assert visible[..i + 1] == visible[..i] + [p];
      SumAppend(visible[..i], [p], AmountOf);
      FilterAppend(visible[..i], [p], inMonth);
      SumAppend(Filter(visible[..i], inMonth), Filter([p], inMonth), AmountOf);
      pagoTotal := pagoTotal + AmountOf(p);
      if p.date.Some? && mStart <= p.date.value && p.date.value <= mEnd {
        pagoMensal := pagoMensal + AmountOf(p);
      }
      i := i + 1;
    }
    assert visible[..i] == visible;
    if forall j :: 0 <= j < |visible| ==> AmountOf(visible[j]) >= 0 {
      SumFilterBound(visible, inMonth, AmountOf);
      var f := Filter(visible, inMonth);
      forall j | 0 <= j < |f|
        ensures AmountOf(f[j]) >= 0
      {
        FilterMember(visible, inMonth, f[j]);
      }
      SumNonNegative(f, AmountOf);
    }
    s := Stats(|active|, totalDevido, pagoTotal, pagoMensal, Remaining(totalDevido, pagoTotal));
  }

  datatype ViewMode = Total | Monthly

  /** The payments the table of received amounts covers. */
  function PaymentsForView(view: ViewMode, visible: seq<Payment>, mStart: int, mEnd: int): (r: seq<Payment>)
    ensures view == Total ==> r == visible
    ensures forall p :: p in r <==> p in visible && (view == Total || InMonth(mStart, mEnd)(p))
  {
    FilterMemberAll(visible, InMonth(mStart, mEnd));
    if view == Total then visible else Filter(visible, InMonth(mStart, mEnd))
  }

  lemma {:induction false} FilterMemberAll<T>(s: seq<T>, p: T -> bool)
    ensures forall x :: x in Filter(s, p) <==> x in s && p(x)
  {
    forall x
      ensures x in Filter(s, p) <==> x in s && p(x)
    {
      FilterMember(s, p, x);
    }
  }

  datatype Slice = Slice(name: string, value: int)

  /** The pie chart: paid (or received this month) and pending, then the
      number of debtors when there is any. */
  function PieData(view: ViewMode, s: Stats): (r: seq<Slice>)
    ensures |r| == if s.totalDevedores > 0 then 3 else 2
    ensures r[0] == (if view == Total then Slice("Pago", s.pagoTotal) else Slice("Recebido no mês", s.pagoMensal))
    ensures r[1] == Slice("Pendente", s.pendente)
    ensures |r| == 3 ==> r[2] == Slice("Devedores", s.totalDevedores)
  {
    var first := if view == Total then Slice("Pago", s.pagoTotal) else Slice("Recebido no mês", s.pagoMensal);
    var data := [first, Slice("Pendente", s.pendente)];
    if s.totalDevedores > 0 then data + [Slice("Devedores", s.totalDevedores)] else data
  }

  /** In the overall view the two money slices add up to the larger of what is
      owed and what was paid: the pie covers the whole debt until it is overpaid. */
  lemma {:induction false} PieCoversDebt(s: Stats)
    requires s.pendente == Remaining(s.totalDevido, s.pagoTotal)
    ensures var r := PieData(Total, s);
      r[0].value + r[1].value == if s.totalDevido >= s.pagoTotal then s.totalDevido else s.pagoTotal
  {
  }

  /** A line of the table of received amounts. */
  datatype Row = Row(id: string, name: string, createdAt: Option<int>, value: int)

  function RowValue(r: Row): int {
    r.value
  }

  function RowId(r: Row): string {
    r.id
  }

  /** The payments of one debtor. */
  function OfDebtor(id: string): Payment -> bool {
    (p: Payment) => p.debtorId == id
  }

  /** `debtorById[id]?.name ?? '(Sem nome)'`. */
  function NameOf(active: seq<Debtor>, id: string): string {
    match ById(active, id)
    case None => "(Sem nome)"
    case Some(d) => d.name
  }

  function CreatedOf(active: seq<Debtor>, id: string): Option<int> {
    match ById(active, id)
    case None => None
    case Some(d) => d.createdAt
  }

  /** The sum of `m` over the keys `ks`; a missing key adds nothing. */
  function KeyedSum(ks: seq<string>, m: map<string, int>): int {
    if |ks| == 0 then 0 else (if ks[0] in m then m[ks[0]] else 0) + KeyedSum(ks[1..], m)
  }

  predicate Distinct(ks: seq<string>) {
    forall i, j :: 0 <= i < j < |ks| ==> ks[i] != ks[j]
  }

  lemma {:induction false} KeyedSumAppend(ks: seq<string>, m: map<string, int>, k: string)
    ensures KeyedSum(ks + [k], m) == KeyedSum(ks, m) + (if k in m then m[k] else 0)
  {
    if |ks| > 0 {
      assert (ks + [k])[1..] == ks[1..] + [k];
      KeyedSumAppend(ks[1..], m, k);
    }
  }

  /** Changing the value of a key that is not listed changes nothing. */
  lemma {:induction false} KeyedSumOther(ks: seq<string>, m: map<string, int>, k: string, v: int)
    requires k !in ks
    ensures KeyedSum(ks, m[k := v]) == KeyedSum(ks, m)
  {
    if |ks| > 0 {
      KeyedSumOther(ks[1..], m, k, v);
    }
  }

  /** Changing the value of a key listed once changes the sum by the difference. */
  lemma {:induction false} KeyedSumUpdate(ks: seq<string>, m: map<string, int>, k: string, v: int)
    requires Distinct(ks) && k in ks && k in m
    ensures KeyedSum(ks, m[k := v]) == KeyedSum(ks, m) - m[k] + v
  {
    if ks[0] == k {
      assert k !in ks[1..];
      KeyedSumOther(ks[1..], m, k, v);
    } else {
      KeyedSumUpdate(ks[1..], m, k, v);
    }
  }

  /** What the grouping loop knows after the payments `seen`: each debtor
      identifier listed once, in `ks` exactly when it has a payment, mapped to
      the sum of its payments, and all of it adding up to the sum of `seen`. */
  ghost predicate Grouped(seen: seq<Payment>, ks: seq<string>, m: map<string, int>) {
    Distinct(ks)
    && (forall k :: k in ks <==> k in m)
    && (forall k :: k in ks <==> exists p :: p in seen && p.debtorId == k)
    && (forall k :: k in m ==> m[k] == Sum(Filter(seen, OfDebtor(k)), AmountOf))
    && KeyedSum(ks, m) == Sum(seen, AmountOf)
  }

  /** One turn of the loop: `map[did] = (map[did] || 0) + amount`. */
  function GroupStep(ks: seq<string>, m: map<string, int>, p: Payment): (seq<string>, map<string, int>) {
    if p.debtorId in m then (ks, m[p.debtorId := m[p.debtorId] + AmountOf(p)])
    else (ks + [p.debtorId], m[p.debtorId := AmountOf(p)])
  }

  lemma {:induction false} GroupStepKeeps(seen: seq<Payment>, ks: seq<string>, m: map<string, int>, p: Payment)
    requires Grouped(seen, ks, m)
    ensures Grouped(seen + [p], GroupStep(ks, m, p).0, GroupStep(ks, m, p).1)
  {
    var (ks', m') := GroupStep(ks, m, p);
    GroupStepKeys(seen, ks, m, p);
    GroupStepSums(seen, ks, m, p);
    GroupStepTotal(seen, ks, m, p);
  }

  lemma {:induction false} GroupStepKeys(seen: seq<Payment>, ks: seq<string>, m: map<string, int>, p: Payment)
    requires Grouped(seen, ks, m)
    ensures var (ks', m') := GroupStep(ks, m, p);
      Distinct(ks') && (forall k :: k in ks' <==> k in m')
      && forall k :: k in ks' <==> exists q :: q in seen + [p] && q.debtorId == k
  {
    var (ks', m') := GroupStep(ks, m, p);
    forall k
      ensures k in ks' <==> exists q :: q in seen + [p] && q.debtorId == k
    {
      GroupStepKeyAt(seen, ks, p, k);
    }
  }

  /** A key is listed after the step exactly when it was before or is the new payment's. */
  lemma {:induction false} GroupStepKeyAt(seen: seq<Payment>, ks: seq<string>, p: Payment, k: string)
    requires k in ks <==> exists q :: q in seen && q.debtorId == k
    ensures k in ks || k == p.debtorId <==> exists q :: q in seen + [p] && q.debtorId == k
  {
    if k in ks && k != p.debtorId {
      var q :| q in seen && q.debtorId == k;
      assert q in seen + [p];
    }
    if k == p.debtorId {
      assert p in seen + [p];
    }
  }

  lemma {:induction false} GroupStepSums(seen: seq<Payment>, ks: seq<string>, m: map<string, int>, p: Payment)
    requires Grouped(seen, ks, m)
    ensures var m' := GroupStep(ks, m, p).1;
      forall k :: k in m' ==> m'[k] == Sum(Filter(seen + [p], OfDebtor(k)), AmountOf)
  {
    var m' := GroupStep(ks, m, p).1;
    forall k | k in m'
      ensures m'[k] == Sum(Filter(seen + [p], OfDebtor(k)), AmountOf)
    {
      if k in m {
        GroupStepSumAt(seen, p, k, m[k]);
      } else {
        EmptyFilter(seen, k);
        GroupStepSumAt(seen, p, k, 0);
      }
    }
  }

  /** Adding a payment to the sum of a debtor's earlier payments gives the sum
      of its payments so far. */
  lemma {:induction false} GroupStepSumAt(seen: seq<Payment>, p: Payment, k: string, v: int)
    requires v == Sum(Filter(seen, OfDebtor(k)), AmountOf)
    ensures Sum(Filter(seen + [p], OfDebtor(k)), AmountOf) == v + (if p.debtorId == k then AmountOf(p) else 0)
  {
    FilterAppend(seen, [p], OfDebtor(k));
    SumAppend(Filter(seen, OfDebtor(k)), Filter([p], OfDebtor(k)), AmountOf);
  }

  lemma {:induction false} GroupStepTotal(seen: seq<Payment>, ks: seq<string>, m: map<string, int>, p: Payment)
    requires Distinct(ks) && (forall k :: k in ks <==> k in m) && KeyedSum(ks, m) == Sum(seen, AmountOf)
    ensures KeyedSum(GroupStep(ks, m, p).0, GroupStep(ks, m, p).1) == Sum(seen + [p], AmountOf)
  {
    var did := p.debtorId;
    SumAppend(seen, [p], AmountOf);
    if did in m {
      KeyedSumUpdate(ks, m, did, m[did] + AmountOf(p));
    } else {
      KeyedSumOther(ks, m, did, AmountOf(p));
      KeyedSumAppend(ks, m[did := AmountOf(p)], did);
    }
  }

  /** The grouping loop of the table, keys in order of first appearance. */
  method GroupByDebtor(view: seq<Payment>) returns (ks: seq<string>, m: map<string, int>)
    ensures Distinct(ks)
    ensures forall k :: k in ks <==> k in m
    ensures forall k :: k in ks <==> exists p :: p in view && p.debtorId == k
    ensures forall k :: k in m ==> m[k] == Sum(Filter(view, OfDebtor(k)), AmountOf)
    ensures KeyedSum(ks, m) == Sum(view, AmountOf)
  {
    ks, m := [], map[];
    var i := 0;
    while i < |view|
      invariant 0 <= i <= |view|
      invariant Grouped(view[..i], ks, m)
    {
      assert view[..i + 1] == view[..i] + [view[i]];
      GroupStepKeeps(view[..i], ks, m, view[i]);
      ks, m := GroupStep(ks, m, view[i]).0, GroupStep(ks, m, view[i]).1;
      i := i + 1;
    }
    assert view[..i] == view;
  }

  /** No payment of a debtor that does not occur leaves nothing after filtering. */
  lemma {:induction false} EmptyFilter(ps: seq<Payment>, id: string)
    requires forall p :: p in ps ==> p.debtorId != id
    ensures Filter(ps, OfDebtor(id)) == []
  {
    if |ps| > 0 {
      EmptyFilter(ps[1..], id);
    }
  }

  /** The table line of debtor `k`. */
  function MakeRow(active: seq<Debtor>, m: map<string, int>, k: string): Row {
    Row(k, NameOf(active, k), CreatedOf(active, k), if k in m then m[k] else 0)
  }

  function RowsOf(ks: seq<string>, m: map<string, int>, active: seq<Debtor>): (r: seq<Row>)
    ensures |r| == |ks|
    ensures forall i :: 0 <= i < |ks| ==> r[i] == MakeRow(active, m, ks[i])
  {
    if |ks| == 0 then [] else [MakeRow(active, m, ks[0])] + RowsOf(ks[1..], m, active)
  }

  lemma {:induction false} RowsOfSum(ks: seq<string>, m: map<string, int>, active: seq<Debtor>)
    ensures Sum(RowsOf(ks, m, active), RowValue) == KeyedSum(ks, m)
  {
    if |ks| > 0 {
      RowsOfSum(ks[1..], m, active);
      assert RowsOf(ks, m, active)[1..] == RowsOf(ks[1..], m, active);
    }
  }

  /** `receivedByDebtor`: one line per debtor with a payment in the view, with
      the debtor's name and creation date and the sum of its payments, largest
      sum first. The lines add up to the sum of the view, the total the table's
      footer shows. */
  method ReceivedByDebtor(view: seq<Payment>, active: seq<Debtor>) returns (rows: seq<Row>)
    ensures Sum(rows, RowValue) == Sum(view, AmountOf)
    ensures SortedDesc(rows, RowValue)
    ensures DistinctBy(rows, RowId)
    ensures forall r :: r in rows ==>
      r.value == Sum(Filter(view, OfDebtor(r.id)), AmountOf)
      && r.name == NameOf(active, r.id) && r.createdAt == CreatedOf(active, r.id)
    ensures (set r | r in rows :: r.id) == (set p | p in view :: p.debtorId)
  {
    var ks, m := GroupByDebtor(view);
    var unsorted := RowsOf(ks, m, active);
    rows := SortDesc(unsorted, RowValue);
    SortDescSorted(unsorted, RowValue);
    SortDescPermutes(unsorted, RowValue);
    RowsOfSum(ks, m, active);
    SumPermutation(rows, unsorted, RowValue);
    SortDescDistinct(unsorted, RowValue, RowId);
    SortedRowsValues(view, active, ks, m, rows);
    SortedRowsIds(view, active, ks, m, rows);
  }

  lemma {:induction false} SortedRowsValues(view: seq<Payment>, active: seq<Debtor>, ks: seq<string>, m: map<string, int>, rows: seq<Row>)
    requires forall k :: k in ks <==> k in m
    requires forall k :: k in m ==> m[k] == Sum(Filter(view, OfDebtor(k)), AmountOf)
    requires multiset(rows) == multiset(RowsOf(ks, m, active))
    ensures forall r :: r in rows ==>
      r.value == Sum(Filter(view, OfDebtor(r.id)), AmountOf)
      && r.name == NameOf(active, r.id) && r.createdAt == CreatedOf(active, r.id)
  {
    var unsorted := RowsOf(ks, m, active);
    forall r | r in rows
      ensures r.value == Sum(Filter(view, OfDebtor(r.id)), AmountOf)
      ensures r.name == NameOf(active, r.id) && r.createdAt == CreatedOf(active, r.id)
    {
      assert r in multiset(rows);
      var i :| 0 <= i < |unsorted| && unsorted[i] == r;
      assert ks[i] in ks;
    }
  }

  lemma {:induction false} SortedRowsIds(view: seq<Payment>, active: seq<Debtor>, ks: seq<string>, m: map<string, int>, rows: seq<Row>)
    requires forall k :: k in ks <==> exists p :: p in view && p.debtorId == k
    requires multiset(rows) == multiset(RowsOf(ks, m, active))
    ensures (set r | r in rows :: r.id) == (set p | p in view :: p.debtorId)
  {
    var unsorted := RowsOf(ks, m, active);
    var a, b := set r | r in rows :: r.id, set p | p in view :: p.debtorId;
    forall k | k in a
      ensures k in b
    {
      var r :| r in rows && r.id == k;
      RowIdListed(ks, m, active, rows, r);
      var p :| p in view && p.debtorId == k;
    }
    forall k | k in b
      ensures k in a
    {
      var p :| p in view && p.debtorId == k;
      assert k in ks;
      var i :| 0 <= i < |ks| && ks[i] == k;
      assert unsorted[i] in multiset(rows);
    }
  }

  lemma {:induction false} RowIdListed(ks: seq<string>, m: map<string, int>, active: seq<Debtor>, rows: seq<Row>, r: Row)
    requires multiset(rows) == multiset(RowsOf(ks, m, active)) && r in rows
    ensures r.id in ks
  {
    var unsorted := RowsOf(ks, m, active);
    assert r in multiset(rows);
    var i :| 0 <= i < |unsorted| && unsorted[i] == r;
    assert ks[i] in ks;
  }
}
