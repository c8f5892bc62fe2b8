/** The two stored record kinds of `src/types.ts`, the visibility predicates
    every page filters by, and the payment-method label shown in the payment
    list and the report. Amounts are whole cents; instants are epoch
    milliseconds. */
module Records {
  import opened Wrappers

  /** A debtor document. `total` is `None` when the stored field is missing or
      not a number; `createdAt`, `deletedAt` and `archivedAt` are `None` when
      absent or `null`. The three flags default to `false` when absent. */
  datatype Debtor = Debtor(
    id: string,
    ownerUid: string,
    name: string,
    total: Option<int>,
    createdAt: Option<int>,
    deleted: bool,
    deletedAt: Option<int>,
    deletedBy: Option<string>,
    archived: bool,
    archivedAt: Option<int>)

  /** A payment document of a debtor's `payments` sub-collection. `date` is
      `None` when the stored value is not a finite number. `methodCode` and
      `methodOther` are the `paymentMethod` and `paymentMethodOther` fields the
      payment form writes. */
  datatype Payment = Payment(
    id: string,
    debtorId: string,
    ownerUid: string,
    amount: Option<int>,
    date: Option<int>,
    note: Option<string>,
    createdAt: int,
    methodCode: Option<string>,
    methodOther: Option<string>,
    deleted: bool,
    deletedAt: Option<int>,
    deletedBy: Option<string>)

  /** `d.total || 0`: a missing or non-numeric total counts as zero. */
  function TotalOf(d: Debtor): int {
    d.total.GetOr(0)
  }

  /** `Number(p.amount || 0)`: a missing or non-numeric amount counts as zero. */
  function AmountOf(p: Payment): int {
    p.amount.GetOr(0)
  }

  /** `d.createdAt ?? 0`, the key the debtor lists sort by. */
  function CreatedKey(d: Debtor): int {
    d.createdAt.GetOr(0)
  }

  /** `d.archivedAt ?? 0`, the key the archived list sorts by. */
  function ArchivedKey(d: Debtor): int {
    d.archivedAt.GetOr(0)
  }

  /** Not soft-deleted: shown by the calendar pages. */
  predicate IsLive(d: Debtor) {
    !d.deleted
  }

  /** Neither deleted nor archived: shown by the dashboard and counted by the metrics. */
  predicate IsActive(d: Debtor) {
    !d.deleted && !d.archived
  }

  /** Archived but not deleted: shown by the archive page. */
  predicate IsArchivedView(d: Debtor) {
    !d.deleted && d.archived
  }

  /** A payment that is not soft-deleted: the only kind any sum counts. */
  predicate IsLivePayment(p: Payment) {
    !p.deleted
  }

  /** The active and the archived views split the live debtors between them:
      every live debtor is in exactly one, and a deleted debtor in neither. */
  lemma ViewsPartitionLive(d: Debtor)
    ensures IsLive(d) <==> IsActive(d) || IsArchivedView(d)
    ensures !(IsActive(d) && IsArchivedView(d))
  {
  }

  /** `paymentMethodLabels[m]`: the display name of the five codes the form offers. */
  function LabelTable(m: string): Option<string> {
    if m == "pix" then Some("PIX")
    else if m == "credito" then Some("Cartão de Crédito")
    else if m == "debito" then Some("Cartão de Débito")
    else if m == "dinheiro" then Some("Dinheiro")
    else if m == "outros" then Some("Outros")
    else None
  }

  /** The method text of a payment: nothing without a method; otherwise its
      display name, or the raw code when the table has none, followed by
      `": "` and the free-text label for `outros` when that label is not empty. */
  function MethodText(code: Option<string>, other: Option<string>): (r: string)
    ensures r == "" <==> (code.None? || code.value == "")
    ensures code.Some? && LabelTable(code.value).None? ==> r == code.value
    ensures code.Some? && code.value == "outros" && other.Some? && other.value != "" ==> r == "Outros: " + other.value
    ensures code == Some("outros") && (other.None? || other.value == "") ==> r == "Outros"
    ensures code.Some? && LabelTable(code.value).Some? && code.value != "outros" ==> r == LabelTable(code.value).value
  {
    match code
    case None => ""
    case Some(m) =>
      if m == "" then ""
      else
        var shown := LabelTable(m).GetOr(m);
        if m == "outros" && other.Some? && other.value != "" then shown + ": " + other.value else shown
  }
}
