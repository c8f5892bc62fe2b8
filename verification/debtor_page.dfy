/** The page of one debtor: the live debtor and payment listeners, the balance,
    the searchable and sortable payment list, and the forms that add a payment,
    delete a payment and delete the debtor. */
module DebtorPage {
  import opened Wrappers
  import opened Text
  import opened Money
  import opened Seqs
  import opened Records
  import opened Balance

  /** The debtor listener: a missing document clears the page; a deleted one is
      not stored (the page leaves instead); any other snapshot replaces the
      current debtor. */
  function OnDebtorSnapshot(cur: Option<Debtor>, snap: Option<Debtor>): (r: Option<Debtor>)
    ensures snap.None? ==> r.None?
    ensures snap.Some? && snap.value.deleted ==> r == cur
    ensures snap.Some? && !snap.value.deleted ==> r == snap
  {
    match snap
    case None => None
    case Some(d) => if d.deleted then cur else snap
  }

  /** The debtor the page holds after a run of snapshots. */
  function ReplaySnapshots(cur: Option<Debtor>, snaps: seq<Option<Debtor>>): Option<Debtor>
    decreases |snaps|
  {
    if |snaps| == 0 then cur else ReplaySnapshots(OnDebtorSnapshot(cur, snaps[0]), snaps[1..])
  }

  predicate HoldsLive(cur: Option<Debtor>) {
    cur.None? || !cur.value.deleted
  }

  /** The page never holds a deleted debtor, whatever the listener delivers. */
  lemma {:induction false} ReplayNeverDeleted(cur: Option<Debtor>, snaps: seq<Option<Debtor>>)
    requires HoldsLive(cur)
    ensures HoldsLive(ReplaySnapshots(cur, snaps))
    decreases |snaps|
  {
    if |snaps| > 0 {
      ReplayNeverDeleted(OnDebtorSnapshot(cur, snaps[0]), snaps[1..]);
    }
  }

  /** Deleting the debtor from this page marks it deleted by the current user;
      the page keeps showing the debtor it had. */
  function SoftDeleteDebtor(d: Debtor, uid: string, now: int): (r: Debtor)
    ensures r.deleted && r.deletedAt == Some(now) && r.deletedBy == Some(uid)
    ensures !IsLive(r) && !IsActive(r) && !IsArchivedView(r)
    ensures r.(deleted := d.deleted, deletedAt := d.deletedAt, deletedBy := d.deletedBy) == d
  {
    d.(deleted := true, deletedAt := Some(now), deletedBy := Some(uid))
  }

  lemma {:induction false} SoftDeletedSnapshotIgnored(cur: Option<Debtor>, d: Debtor, uid: string, now: int)
    ensures OnDebtorSnapshot(cur, Some(SoftDeleteDebtor(d, uid, now))) == cur
  {
  }

  /** The payment listener keeps the payments not marked deleted, in snapshot order. */
  function LivePayments(ps: seq<Payment>): (r: seq<Payment>) {
    Filter(ps, IsLivePayment)
  }

  /** A payment is listed exactly when it is in the snapshot and not deleted. */
  lemma {:induction false} LivePaymentsMember(ps: seq<Payment>, p: Payment)
    ensures p in LivePayments(ps) <==> p in ps && !p.deleted
  {
    FilterMember(ps, IsLivePayment, p);
  }

  /** The balance of the page: zero before the debtor has loaded, otherwise the
      total less the listed payments, never below zero. */
  function PageRemaining(debtor: Option<Debtor>, listed: seq<Payment>): (r: int)
    ensures r >= 0
    ensures debtor.None? ==> r == 0
  {
    match debtor
    case None => 0
    case Some(d) => Remaining(TotalOf(d), Sum(listed, AmountOf))
  }

  /** The page shows the same balance as the dashboard card of the debtor. */
  lemma {:induction false} PageRemainingMatchesCard(d: Debtor, ps: seq<Payment>)
    ensures PageRemaining(Some(d), LivePayments(ps)) == CardOf(d, LivePaid(ps)).remaining
  {
  }

  /** `dateMs`: the payment date, or 0 when it is not a finite number. */
  function DateMs(p: Payment): int {
    p.date.GetOr(0)
  }

  function NegDateMs(p: Payment): int {
    -DateMs(p)
  }

  datatype SortOrder = Desc | Asc

  /** The search filter: every payment for an empty query; otherwise those with a
      note that contains the query, ignoring case. */
  function NoteMatches(q: string): Payment -> bool {
    (p: Payment) => q == "" || (p.note.Some? && Contains(Lower(p.note.value), Lower(q)))
  }

  /** The list the page shows: the search filter, then a stable sort by date. */
  function FilteredPayments(listed: seq<Payment>, q: string, order: SortOrder): seq<Payment> {
    SortDesc(Filter(listed, NoteMatches(q)), if order == Desc then DateMs else NegDateMs)
  }

  /** The shown list holds exactly the listed payments that match the query, each
      as often as listed: with an empty query every payment, otherwise those with
      a note that contains the query, ignoring case. */
  lemma {:induction false} FilteredPaymentsMembers(listed: seq<Payment>, q: string, order: SortOrder)
    ensures multiset(FilteredPayments(listed, q, order)) == multiset(Filter(listed, NoteMatches(q)))
    ensures forall p :: p in FilteredPayments(listed, q, order) <==>
      p in listed && (q == "" || (p.note.Some? && Contains(Lower(p.note.value), Lower(q))))
  {
    var f := Filter(listed, NoteMatches(q));
    var r := FilteredPayments(listed, q, order);
    SortDescPermutes(f, if order == Desc then DateMs else NegDateMs);
    forall p
      ensures p in r <==> p in listed && NoteMatches(q)(p)
    {
      FilterMember(listed, NoteMatches(q), p);
      assert p in r <==> p in multiset(r);
    }
  }

  /** The shown list is in date order: newest first for `Desc`, oldest first for `Asc`. */
  lemma {:induction false} FilteredPaymentsOrdered(listed: seq<Payment>, q: string, order: SortOrder)
    ensures var r := FilteredPayments(listed, q, order);
      (order == Desc ==> forall i, j :: 0 <= i < j < |r| ==> DateMs(r[i]) >= DateMs(r[j]))
      && (order == Asc ==> forall i, j :: 0 <= i < j < |r| ==> DateMs(r[i]) <= DateMs(r[j]))
  {
    var f := Filter(listed, NoteMatches(q));
    var r := FilteredPayments(listed, q, order);
    if order == Desc {
      SortDescSorted(f, DateMs);
    } else {
      SortDescSorted(f, NegDateMs);
      forall i, j | 0 <= i < j < |r|
        ensures DateMs(r[i]) <= DateMs(r[j])
      {
        assert NegDateMs(r[i]) >= NegDateMs(r[j]);
      }
    }
  }

  /** With an empty query the shown list is a reordering of all listed payments. */
  lemma {:induction false} EmptyQueryShowsAll(listed: seq<Payment>, order: SortOrder)
    ensures multiset(FilteredPayments(listed, "", order)) == multiset(listed)
  {
    FilteredPaymentsMembers(listed, "", order);
    forall p
      ensures multiset(Filter(listed, NoteMatches("")))[p] == multiset(listed)[p]
    {
      FilterMultiset(listed, NoteMatches(""), p);
    }
  }

  /** Why the payment form refuses its input; checked in this order. */
  datatype AddError = InvalidAmount | MissingMethodLabel | InvalidDate

  /** `addPayment`: validates the form and builds the payment document to store.
      `pid` is the identifier the store assigns, `when` the parsed date field
      (`None` for an invalid date) and `now` is `Date.now()`. */
  function AddPayment(pid: string, debtorId: string, uid: string, amountRaw: string, code: string,
                      otherRaw: string, noteRaw: string, when: Option<int>, now: int): (r: Result<Payment, AddError>)
    ensures r == Err(InvalidAmount) <==> ParseAmount(amountRaw).None? || ParseAmount(amountRaw).value.mant < 0
    ensures r == Err(MissingMethodLabel) <==>
      ParseAmount(amountRaw).Some? && ParseAmount(amountRaw).value.mant >= 0 && code == "outros" && Trim(otherRaw) == ""
    ensures r == Err(InvalidDate) <==>
      ParseAmount(amountRaw).Some? && ParseAmount(amountRaw).value.mant >= 0
      && (code != "outros" || Trim(otherRaw) != "") && when.None?
    ensures r.Ok? ==>
      var p := r.value;
      p.id == pid && p.debtorId == debtorId && p.ownerUid == uid && IsLivePayment(p)
      && p.amount.Some? && p.amount.value >= 0 && p.date == when && p.createdAt == now
      && p.methodCode == Some(code)
      && p.methodOther == (if code == "outros" then Some(Trim(otherRaw)) else None)
      && (code == "outros" ==> p.methodOther.value != "")
      && (p.note.None? <==> Trim(noteRaw) == "") && (p.note.Some? ==> p.note.value == Trim(noteRaw))
  {
    match ParseAmount(amountRaw)
    case None => Err(InvalidAmount)
    case Some(x) =>
      if x.mant < 0 then Err(InvalidAmount)
      else if code == "outros" && Trim(otherRaw) == "" then Err(MissingMethodLabel)
      else if when.None? then Err(InvalidDate)
      else
        var note := if Trim(noteRaw) == "" then None else Some(Trim(noteRaw));
        var other := if code == "outros" then Some(Trim(otherRaw)) else None;
        Ok(Payment(pid, debtorId, uid, Some(RoundCents(x)), when, note, now, Some(code), other, false, None, None))
  }

  /** A stored payment lowers the balance by its amount, and the amount is the
      typed one rounded to the cent. */
  lemma {:induction false} AddedPaymentCounts(ps: seq<Payment>, pid: string, debtorId: string, uid: string, amountRaw: string,
                                              code: string, otherRaw: string, noteRaw: string, when: Option<int>, now: int)
    requires AddPayment(pid, debtorId, uid, amountRaw, code, otherRaw, noteRaw, when, now).Ok?
    ensures var p := AddPayment(pid, debtorId, uid, amountRaw, code, otherRaw, noteRaw, when, now).value;
      LivePaid(ps + [p]) == LivePaid(ps) + AmountOf(p)
      && p in LivePayments(ps + [p])
      && AmountOf(p) == RoundCents(ParseAmount(amountRaw).value)
  {
    var p := AddPayment(pid, debtorId, uid, amountRaw, code, otherRaw, noteRaw, when, now).value;
    LivePaidAppend(ps, p);
    LivePaymentsMember(ps + [p], p);
  }

  /** Typing back an amount the page displays stores exactly that amount. */
  lemma {:induction false} AddFromDisplayed(pid: string, debtorId: string, uid: string, c: nat, code: string,
                                            otherRaw: string, noteRaw: string, t: int, now: int)
    requires code != "outros" || Trim(otherRaw) != ""
    ensures AddPayment(pid, debtorId, uid, FormatCents(c), code, otherRaw, noteRaw, Some(t), now).Ok?
    ensures AmountOf(AddPayment(pid, debtorId, uid, FormatCents(c), code, otherRaw, noteRaw, Some(t), now).value) == c
  {
    ParseFormat(c);
    RoundCentsExact(c);
  }

  /** The position of the first payment with identifier `pid`. */
  function FindPayment(ps: seq<Payment>, pid: string): (r: Option<nat>)
    ensures r.None? <==> forall i :: 0 <= i < |ps| ==> ps[i].id != pid
    ensures r.Some? ==> r.value < |ps| && ps[r.value].id == pid
    ensures r.Some? ==> forall i :: 0 <= i < r.value ==> ps[i].id != pid
  {
    if |ps| == 0 then None
    else if ps[0].id == pid then Some(0)
    else match FindPayment(ps[1..], pid)
      case None => None
      case Some(i) => Some(i + 1)
  }

  datatype DeleteError = NotFound

  /** `deletePayment`: a transaction that fails when the payment does not exist
      and otherwise marks it deleted by `uid` at `now`. Nothing else changes; a
      payment already deleted is marked again. */
  function DeletePayment(ps: seq<Payment>, pid: string, uid: string, now: int): (r: Result<seq<Payment>, DeleteError>)
    ensures r.Err? <==> forall i :: 0 <= i < |ps| ==> ps[i].id != pid
    ensures r.Ok? ==> |r.value| == |ps|
    ensures r.Ok? ==> exists i :: DeletedAt(ps, r.value, i, pid, uid, now)
  {
    match FindPayment(ps, pid)
    case None => Err(NotFound)
    case Some(i) =>
      var r := ps[i := ps[i].(deleted := true, deletedBy := Some(uid), deletedAt := Some(now))];
      assert DeletedAt(ps, r, i, pid, uid, now);
      Ok(r)
  }

  /** `r` is `ps` with the payment at `i`, whose identifier is `pid`, marked
      deleted by `uid` at `now`, and every other payment as it was. */
  predicate DeletedAt(ps: seq<Payment>, r: seq<Payment>, i: int, pid: string, uid: string, now: int) {
    0 <= i < |ps| == |r| && ps[i].id == pid
    && r[i] == ps[i].(deleted := true, deletedBy := Some(uid), deletedAt := Some(now))
    && forall j :: 0 <= j < |ps| && j != i ==> r[j] == ps[j]
  }

  /** Deleting a payment takes exactly its amount off the paid sum when it was
      live, removes it from the listed payments and leaves the others listed. */
  lemma {:induction false} DeletePaymentPaid(ps: seq<Payment>, pid: string, uid: string, now: int)
    requires DeletePayment(ps, pid, uid, now).Ok?
    ensures var i := FindPayment(ps, pid).value;
      var r := DeletePayment(ps, pid, uid, now).value;
      LivePaid(r) == LivePaid(ps) - LiveAmount(ps[i])
      && r[i] !in LivePayments(r)
  {
    var i := FindPayment(ps, pid).value;
    var r := DeletePayment(ps, pid, uid, now).value;
    LivePaidBySkipping(ps);
    LivePaidBySkipping(r);
    SumUpdate(ps, i, r[i], LiveAmount);
    LivePaymentsMember(r, r[i]);
  }
}
