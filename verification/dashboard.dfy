/** The dashboard: the list of active debtors, the paid-sum map its cards read,
    and the form that creates a debtor. */
module Dashboard {
  import opened Wrappers
  import opened Text
  import opened Money
  import opened Seqs
  import opened Records
  import opened Balance

  /** The debtors the dashboard lists: neither deleted nor archived, newest first. */
  function ActiveList(ds: seq<Debtor>): seq<Debtor> {
    SortDesc(Filter(ds, IsActive), CreatedKey)
  }

  /** The list holds every active debtor of the snapshot and nothing else, as
      often as the snapshot holds it, newest first; debtors created at the same
      instant keep their snapshot order. */
  lemma {:induction false} ActiveListCorrect(ds: seq<Debtor>)
    ensures forall d :: d in ActiveList(ds) <==> d in ds && IsActive(d)
    ensures multiset(ActiveList(ds)) == multiset(Filter(ds, IsActive))
    ensures SortedDesc(ActiveList(ds), CreatedKey)
    ensures forall k :: Filter(ActiveList(ds), KeyIs(CreatedKey, k)) == Filter(Filter(ds, IsActive), KeyIs(CreatedKey, k))
  {
    var f := Filter(ds, IsActive);
    SortDescCorrect(f, CreatedKey);
    forall d
      ensures d in ActiveList(ds) <==> d in ds && IsActive(d)
    {
      FilterMember(ds, IsActive, d);
      assert d in ActiveList(ds) <==> d in multiset(ActiveList(ds));
    }
    forall k
      ensures Filter(ActiveList(ds), KeyIs(CreatedKey, k)) == Filter(f, KeyIs(CreatedKey, k))
    {
      SortDescStable(f, CreatedKey, k);
    }
  }

  /** The paid sums per debtor id, as the payment listeners last reported them. */
  type PaidMap = map<string, int>

  /** `paidByDebtor[d.id] ?? 0`: a debtor whose sum has not arrived shows 0. */
  function PaidOf(m: PaidMap, id: string): int {
    if id in m then m[id] else 0
  }

  /** A payment listener of debtor `id` reporting the sum of its snapshot. */
  function ReportPaid(m: PaidMap, id: string, ps: seq<Payment>): (r: PaidMap)
    ensures PaidOf(r, id) == LivePaid(ps)
    ensures forall other :: other != id ==> PaidOf(r, other) == PaidOf(m, other)
  {
    m[id := LivePaid(ps)]
  }

  /** The card the dashboard draws for a debtor. */
  function DashboardCard(m: PaidMap, d: Debtor): (c: Card)
    ensures c.paid == PaidOf(m, d.id)
    ensures c.settled <==> PaidOf(m, d.id) >= TotalOf(d) - EpsCents
  {
    CardOf(d, PaidOf(m, d.id))
  }

  /** Why the creation form refuses its input; checked in this order. */
  datatype CreateError = InvalidTotal | NegativeTotal | BlankName

  /** `createDebtor`: validates the form and builds the document to store.
      `id` is the identifier the store assigns and `now` is `Date.now()`. */
  function CreateDebtor(id: string, uid: string, nameRaw: string, totalRaw: string, now: int): (r: Result<Debtor, CreateError>)
    ensures r == Err(InvalidTotal) <==> ParseAmount(totalRaw).None?
    ensures r == Err(NegativeTotal) <==> ParseAmount(totalRaw).Some? && ParseAmount(totalRaw).value.mant < 0
    ensures r == Err(BlankName) <==>
      ParseAmount(totalRaw).Some? && ParseAmount(totalRaw).value.mant >= 0 && Trim(nameRaw) == ""
    ensures r.Ok? ==>
      var d := r.value;
      d.id == id && d.ownerUid == uid && d.name == Trim(nameRaw) && d.name != ""
      && d.total.Some? && d.total.value >= 0 && d.createdAt == Some(now)
      && IsActive(d) && d.deletedAt.None? && d.deletedBy.None? && d.archivedAt.None?
    ensures r.Ok? ==> r.value.total == Some(RoundCents(ParseAmount(totalRaw).value))
  {
    match ParseAmount(totalRaw)
    case None => Err(InvalidTotal)
    case Some(x) =>
      if x.mant < 0 then Err(NegativeTotal)
      else if Trim(nameRaw) == "" then Err(BlankName)
      else Ok(Debtor(id, uid, Trim(nameRaw), Some(RoundCents(x)), Some(now), false, None, None, false, None))
  }

  /** Typing back an amount the dashboard displays creates a debtor owing exactly it. */
  lemma {:induction false} CreateFromDisplayed(id: string, uid: string, nameRaw: string, c: nat, now: int)
    requires Trim(nameRaw) != ""
    ensures CreateDebtor(id, uid, nameRaw, FormatCents(c), now).Ok?
    ensures TotalOf(CreateDebtor(id, uid, nameRaw, FormatCents(c), now).value) == c
  {
    ParseFormat(c);
    RoundCentsExact(c);
  }

  /** A created debtor shows up on the dashboard once the snapshot holds it. */
  lemma {:induction false} CreatedDebtorListed(ds: seq<Debtor>, id: string, uid: string, nameRaw: string, totalRaw: string, now: int)
    requires CreateDebtor(id, uid, nameRaw, totalRaw, now).Ok?
    ensures CreateDebtor(id, uid, nameRaw, totalRaw, now).value in ActiveList(ds + [CreateDebtor(id, uid, nameRaw, totalRaw, now).value])
  {
    var d := CreateDebtor(id, uid, nameRaw, totalRaw, now).value;
    ActiveListCorrect(ds + [d]);
  }
}
