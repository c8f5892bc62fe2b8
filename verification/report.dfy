/** The spreadsheet the metrics page downloads: a header, then one line per
    visible payment of each active debtor, or one line for a debtor without
    any. Dates are written by `fmt`, the `toLocaleString('pt-BR')` of the
    running browser. */
module Report {
  import opened Wrappers
  import opened Seqs
  import opened Records
  import opened Money
  import opened Csv
  import opened Metrics

  const HeaderLine: seq<Cell> := [Bare("DEVEDOR"), Bare("TOTAL DEVIDO"), Bare("CRIADO EM"), Bare("VALOR PAGO"),
                                   Bare("DATA PAGAMENTO"), Bare("MÉTODO PAGAMENTO"), Bare("OBSERVACAO")]

  /** `t ? new Date(t).toLocaleString('pt-BR') : ''`: nothing for a missing or zero instant. */
  function WhenText(t: Option<int>, fmt: int -> string): string {
    if t.None? || t.value == 0 then "" else fmt(t.value)
  }

  /** The line of one payment of debtor `d`. */
  function PaymentCells(d: Debtor, fmt: int -> string, p: Payment): seq<Cell> {
    [Quoted(d.name), Quoted(FormatMoney(d.total)), Quoted(WhenText(d.createdAt, fmt)),
     Quoted(FormatMoney(p.amount)), Quoted(WhenText(p.date, fmt)),
     Quoted(MethodText(p.methodCode, p.methodOther)), Quoted(p.note.GetOr(""))]
  }

  function PaymentLine(d: Debtor, fmt: int -> string): Payment -> seq<Cell> {
    (p: Payment) => PaymentCells(d, fmt, p)
  }

  /** The lines of debtor `d` with its payments `plist`. */
  function DebtorLines(d: Debtor, plist: seq<Payment>, fmt: int -> string): (r: seq<seq<Cell>>)
    ensures |r| == if |plist| == 0 then 1 else |plist|
  {
    if |plist| == 0 then
      [[Quoted(d.name), Quoted(FormatMoney(d.total)), Quoted(WhenText(d.createdAt, fmt)), Bare(""), Bare(""), Bare(""), Bare("")]]
    else Map(plist, PaymentLine(d, fmt))
  }

  /** The lines of all the debtors, each with its own visible payments in order. */
  function BodyLines(ds: seq<Debtor>, visible: seq<Payment>, fmt: int -> string): seq<seq<Cell>> {
    if |ds| == 0 then []
    else DebtorLines(ds[0], Filter(visible, OfDebtor(ds[0].id)), fmt) + BodyLines(ds[1..], visible, fmt)
  }

  function ReportLines(active: seq<Debtor>, visible: seq<Payment>, fmt: int -> string): seq<seq<Cell>> {
    [HeaderLine] + BodyLines(active, visible, fmt)
  }

  /** `downloadCsv`: the text of the file. */
  function ReportText(active: seq<Debtor>, visible: seq<Payment>, fmt: int -> string): string {
    RenderFile(ReportLines(active, visible, fmt))
  }

  /** How many lines a debtor takes: one per payment, at least one. */
  function LinesFor(visible: seq<Payment>): Debtor -> int {
    (d: Debtor) => var n := |Filter(visible, OfDebtor(d.id))|; if n == 0 then 1 else n
  }

  /** Every line has the seven columns of the header and can be read back. */
  predicate WellShaped(ls: seq<seq<Cell>>) {
    forall i :: 0 <= i < |ls| ==> |ls[i]| == 7 && ReadableLine(ls[i])
  }

  lemma {:induction false} HeaderShaped()
    ensures |HeaderLine| == 7 && ReadableLine(HeaderLine)
  {
    forall i | 0 <= i < 7
      ensures ReadableCell(HeaderLine[i])
    {
      PlainText(HeaderLine[i].text);
    }
  }

  /** Upper-case letters, spaces and accented capitals are safe to write bare. */
  lemma {:induction false} PlainText(s: string)
    requires forall i :: 0 <= i < |s| ==> 'A' <= s[i] <= 'Z' || s[i] == ' ' || s[i] == 'É'
    ensures forall i :: 0 <= i < |s| ==> s[i] != ';' && s[i] != '\r' && s[i] != '"'
  {
  }

  lemma {:induction false} DebtorLinesShaped(d: Debtor, plist: seq<Payment>, fmt: int -> string)
    ensures WellShaped(DebtorLines(d, plist, fmt))
  {
    if |plist| == 0 {
      var l := DebtorLines(d, plist, fmt)[0];
      assert l[3..] == [Bare(""), Bare(""), Bare(""), Bare("")];
      forall j | 0 <= j < |l|
        ensures ReadableCell(l[j])
      {
      }
    } else {
      PaymentLinesShaped(d, plist, fmt);
    }
  }

  lemma {:induction false} PaymentLinesShaped(d: Debtor, plist: seq<Payment>, fmt: int -> string)
    ensures WellShaped(Map(plist, PaymentLine(d, fmt)))
  {
    var r := Map(plist, PaymentLine(d, fmt));
    forall i | 0 <= i < |r|
      ensures |r[i]| == 7 && ReadableLine(r[i])
    {
      assert r[i] == PaymentCells(d, fmt, plist[i]);
      PaymentCellsShaped(d, fmt, plist[i]);
    }
  }

  lemma {:induction false} PaymentCellsShaped(d: Debtor, fmt: int -> string, p: Payment)
    ensures |PaymentCells(d, fmt, p)| == 7 && ReadableLine(PaymentCells(d, fmt, p))
  {
    QuotedLine(PaymentCells(d, fmt, p));
  }

  /** A line of quoted cells reads back. */
  lemma {:induction false} QuotedLine(l: seq<Cell>)
    requires |l| > 0 && forall j :: 0 <= j < |l| ==> l[j].Quoted?
    ensures ReadableLine(l)
  {
  }

  lemma {:induction false} BodyLinesFacts(ds: seq<Debtor>, visible: seq<Payment>, fmt: int -> string)
    ensures |BodyLines(ds, visible, fmt)| == Sum(ds, LinesFor(visible))
    ensures WellShaped(BodyLines(ds, visible, fmt))
  {
    if |ds| > 0 {
      BodyLinesFacts(ds[1..], visible, fmt);
      var a := DebtorLines(ds[0], Filter(visible, OfDebtor(ds[0].id)), fmt);
      var b := BodyLines(ds[1..], visible, fmt);
      DebtorLinesShaped(ds[0], Filter(visible, OfDebtor(ds[0].id)), fmt);
      forall i | 0 <= i < |a + b|
        ensures |(a + b)[i]| == 7 && ReadableLine((a + b)[i])
      {
        if i < |a| {
          assert (a + b)[i] == a[i];
        } else {
          assert (a + b)[i] == b[i - |a|];
        }
      }
    }
  }

  /** The file has the header and then, per active debtor, one line for each of
      its visible payments, or a single line when it has none; every line has
      the seven columns of the header. */
  lemma {:induction false} ReportShape(active: seq<Debtor>, visible: seq<Payment>, fmt: int -> string)
    ensures |ReportLines(active, visible, fmt)| == 1 + Sum(active, LinesFor(visible))
    ensures WellShaped(ReportLines(active, visible, fmt))
  {
    var ls := ReportLines(active, visible, fmt);
    var body := BodyLines(active, visible, fmt);
    BodyLinesFacts(active, visible, fmt);
    HeaderShaped();
    forall i | 0 <= i < |ls|
      ensures |ls[i]| == 7 && ReadableLine(ls[i])
    {
      if i > 0 {
        assert ls[i] == body[i - 1];
      }
    }
  }

  /** Reading the file back gives every cell that was written, whatever the
      names, notes and method labels hold. */
  lemma {:induction false} ReportReadsBack(active: seq<Debtor>, visible: seq<Payment>, fmt: int -> string)
    ensures ReadFile(ReportText(active, visible, fmt)) == Some(ReportLines(active, visible, fmt))
  {
    ReportShape(active, visible, fmt);
    ReadFileRender(ReportLines(active, visible, fmt));
  }

  /** The amount column of a payment line reads back, through the amount
      parser, as the stored amount to the cent. */
  lemma {:induction false} AmountCellParses(d: Debtor, p: Payment, fmt: int -> string)
    ensures PaymentLine(d, fmt)(p)[3] == Quoted(FormatMoney(p.amount))
    ensures ParseAmount(PaymentLine(d, fmt)(p)[3].text) == Some(Dec(AmountOf(p), 2))
  {
    ParseFormat(AmountOf(p));
  }
}
