/** The balance card of a debtor, shared by the dashboard, the month page of the
    calendar and the debtor page: paid so far, what remains, whether the debt
    counts as settled, and the progress bar. Amounts are whole cents. */
module Balance {
  import opened Wrappers
  import opened Records
  import opened Seqs

  /** `EPS = 0.01`: a remainder of at most one cent counts as settled. */
  const EpsCents: int := 1

  /** The amount a payment contributes to a paid sum: nothing once it is deleted. */
  function LiveAmount(p: Payment): int {
    if p.deleted then 0 else AmountOf(p)
  }

  /** The paid sum of the debtor page: the live payments, then their amounts added up. */
  function LivePaid(ps: seq<Payment>): int {
    Sum(Filter(ps, IsLivePayment), AmountOf)
  }

  /** The paid sum of the dashboard and the month page: one pass over the
      payment snapshot that adds the amount of each payment not marked deleted. */
  method SnapshotPaid(ps: seq<Payment>) returns (sum: int)
    ensures sum == LivePaid(ps)
  {
    sum := 0;
    var i := 0;
    while i < |ps|
      invariant 0 <= i <= |ps|
      invariant sum == Sum(ps[..i], LiveAmount)
    {
      SumAppend(ps[..i], [ps[i]], LiveAmount);
      assert ps[..i + 1] == ps[..i] + [ps[i]];
      if !ps[i].deleted {
        sum := sum + AmountOf(ps[i]);
      }
      i := i + 1;
    }
    assert ps[..i] == ps;
    LivePaidBySkipping(ps);
  }

  /** Skipping deleted payments while adding up and filtering them out first
      give the same paid sum. */
  lemma {:induction false} LivePaidBySkipping(ps: seq<Payment>)
    ensures Sum(ps, LiveAmount) == LivePaid(ps)
  {
    if |ps| > 0 {
      LivePaidBySkipping(ps[1..]);
      var head := if IsLivePayment(ps[0]) then [ps[0]] else [];
      SumAppend(head, Filter(ps[1..], IsLivePayment), AmountOf);
    }
  }

  /** A deleted payment adds nothing to the paid sum; a live one adds its amount. */
  lemma {:induction false} LivePaidAppend(ps: seq<Payment>, p: Payment)
    ensures LivePaid(ps + [p]) == LivePaid(ps) + LiveAmount(p)
  {
    LivePaidBySkipping(ps + [p]);
    LivePaidBySkipping(ps);
    SumAppend(ps, [p], LiveAmount);
  }

  /** `Math.max(0, total - paid)`. */
  function Remaining(total: int, paid: int): (r: int)
    ensures r >= 0 && r >= total - paid
    ensures r == 0 || r == total - paid
  {
    if total - paid > 0 then total - paid else 0
  }

  /** `remaining <= EPS`. */
  predicate IsSettled(total: int, paid: int) {
    Remaining(total, paid) <= EpsCents
  }

  /** A debt is settled exactly when at most one cent of it is unpaid. */
  lemma SettledIff(total: int, paid: int)
    ensures IsSettled(total, paid) <==> paid >= total - EpsCents
  {
  }

  /** `Math.round(n / d)` for a positive `d`: the nearest integer, halves rounded up. */
  function RoundDiv(n: int, d: int): (r: int)
    requires d > 0
    ensures 2 * d * r <= 2 * n + d < 2 * d * (r + 1)
  {
    DivFloor(2 * n + d, 2 * d);
    (2 * n + d) / (2 * d)
  }

  /** Euclidean division by a positive divisor rounds down. */
  lemma {:induction false} DivFloor(n: int, q: int)
    requires q > 0
    ensures q * (n / q) <= n < q * (n / q + 1)
  {
  }

  /** The progress bar: `Math.min(100, Math.round(paid / total * 100))` when the
      total is positive; otherwise full exactly when the debt counts as settled. */
  function Progress(total: int, paid: int): (r: int)
    ensures r <= 100
    ensures total > 0 && paid >= 0 ==> r >= 0
    ensures total > 0 && r < 100 ==> 2 * total * r <= 200 * paid + total < 2 * total * (r + 1)
    ensures total > 0 && r == 100 ==> 200 * paid + total >= 200 * total
    ensures total <= 0 ==> (r == 100 <==> IsSettled(total, paid)) && (r != 100 ==> r == 0)
  {
    if total > 0 then
      var pct := RoundDiv(100 * paid, total);
      if pct < 100 then pct
      else
        MulMonotone(2 * total, 100, pct);
        100
    else if IsSettled(total, paid) then 100
    else 0
  }

  /** Paying more never moves the bar back. */
  lemma {:induction false} ProgressMonotone(total: int, paid1: int, paid2: int)
    requires paid1 <= paid2
    ensures Progress(total, paid1) <= Progress(total, paid2)
  {
    if total > 0 {
      var a, b := RoundDiv(100 * paid1, total), RoundDiv(100 * paid2, total);
      MulCancel(2 * total, a, b + 1);
    }
  }

  lemma {:induction false} MulMonotone(k: int, x: int, y: int)
    requires k > 0 && x <= y
    ensures k * x <= k * y
  {
  }

  lemma {:induction false} MulCancel(k: int, x: int, y: int)
    requires k > 0 && k * x < k * y
    ensures x < y
  {
  }

  /** A debt paid in full shows a full bar and counts as settled. */
  lemma {:induction false} PaidInFull(total: int, paid: int)
    requires paid >= total
    ensures Progress(total, paid) == 100 && IsSettled(total, paid) && Remaining(total, paid) == 0
  {
    if total > 0 {
      var pct := RoundDiv(100 * paid, total);
      MulMonotone(200, total, paid);
      assert 2 * total * pct > 200 * total - 2 * total by {
        assert 200 * paid + total < 2 * total * (pct + 1);
      }
      if pct < 100 {
        MulMonotone(2 * total, pct, 99);
        assert false;
      }
    }
  }

  /** What a balance card shows. */
  datatype Card = Card(paid: int, remaining: int, settled: bool, progress: int)

  /** The card of a debtor whose live payments add up to `paid`. */
  function CardOf(d: Debtor, paid: int): (c: Card)
    ensures c.paid == paid && c.remaining >= 0
    ensures c.remaining == Remaining(TotalOf(d), paid) && c.progress == Progress(TotalOf(d), paid)
    ensures c.settled <==> paid >= TotalOf(d) - EpsCents
    ensures c.progress <= 100 && (paid >= 0 && TotalOf(d) >= 0 ==> c.progress >= 0)
    ensures TotalOf(d) <= 0 ==> (c.progress == 100 <==> c.settled) && (c.progress != 100 ==> c.progress == 0)
  {
    SettledIff(TotalOf(d), paid);
    Card(paid, Remaining(TotalOf(d), paid), IsSettled(TotalOf(d), paid), Progress(TotalOf(d), paid))
  }

  /** The worked example on the figures alone: 1.000,00 owed and 550,50 paid
      leave 449,50 open and a bar at 55%. */
  lemma {:induction false} BalanceExample(total: int, paid: int)
    requires total == 100000 && paid == 30000 + 25050
    ensures Remaining(total, paid) == 44950
    ensures !IsSettled(total, paid)
    ensures Progress(total, paid) == 55
  {
    assert RoundDiv(100 * paid, total) == 55;
  }

  /** The worked example on the records: a total of 1.000,00 with live payments
      of 300,00 and 250,50 and a deleted one of 500,00; the deleted payment
      counts for nothing. */
  lemma {:induction false} LedgerExample(d: Debtor, ps: seq<Payment>)
    requires d.total == Some(100000) && |ps| == 3
    requires ps[0].amount == Some(30000) && !ps[0].deleted
    requires ps[1].amount == Some(25050) && !ps[1].deleted
    requires ps[2].amount == Some(50000) && ps[2].deleted
    ensures LivePaid(ps) == 55050
    ensures CardOf(d, LivePaid(ps)) == Card(55050, 44950, false, 55)
  {
    LivePaidBySkipping(ps);
    assert Sum(ps[2..], LiveAmount) == 0 by {
      assert ps[2..][1..] == [];
    }
    assert Sum(ps[1..], LiveAmount) == 25050 by {
      assert ps[1..][1..] == ps[2..];
    }
    BalanceExample(100000, 55050);
  }
}
