/** The calendar pages: the years with debtors, the months of a year with
    debtors, and the debtors created in one month. The browser's local time
    zone enters as a `LocalTime`: the instant each calendar month starts and
    the month each instant falls in, months counted as `12 * year + month`
    with `month` from 0 to 11. */
module Calendar {
  import opened Wrappers
  import opened Text
  import opened Money
  import opened Seqs
  import opened Records

  /** `monthStart(12 * y + m)` is `new Date(y, m, 1).getTime()`; `monthOf(t)` is
      `12 * getFullYear() + getMonth()` of `new Date(t)`. */
  datatype LocalTime = LocalTime(monthStart: int -> int, monthOf: int -> int)

  /** Months start in order, and every instant lies in the month it belongs to. */
  ghost predicate WellFormed(c: LocalTime) {
    (forall a, b :: a < b ==> c.monthStart(a) < c.monthStart(b))
    && (forall t :: c.monthStart(c.monthOf(t)) <= t < c.monthStart(c.monthOf(t) + 1))
  }

  /** `new Date(t).getFullYear()`. */
  function YearOf(c: LocalTime, t: int): int {
    c.monthOf(t) / 12
  }

  /** `new Date(t).getMonth()`. */
  function MonthIndexOf(c: LocalTime, t: int): (r: int)
    ensures 0 <= r < 12
  {
    c.monthOf(t) % 12
  }

  /** An instant lies between the starts of month `k` and the month after
      exactly when it belongs to month `k`. */
  lemma {:induction false} BetweenStartsIff(c: LocalTime, t: int, k: int)
    requires WellFormed(c)
    ensures c.monthStart(k) <= t <= c.monthStart(k + 1) - 1 <==> c.monthOf(t) == k
  {
    var j := c.monthOf(t);
    assert c.monthStart(j) <= t < c.monthStart(j + 1);
    if c.monthStart(k) <= t < c.monthStart(k + 1) {
      assert c.monthStart(j) < c.monthStart(k + 1);
      assert c.monthStart(k) < c.monthStart(j + 1);
    }
  }

  /** The range query of a year, `new Date(y, 0, 1)` to `new Date(y + 1, 0, 1) - 1`,
      holds exactly the instants of that year. */
  lemma {:induction false} YearRangeIff(c: LocalTime, t: int, y: int)
    requires WellFormed(c)
    ensures c.monthStart(12 * y) <= t <= c.monthStart(12 * y + 12) - 1 <==> YearOf(c, t) == y
  {
    var j := c.monthOf(t);
    assert c.monthStart(j) <= t < c.monthStart(j + 1);
    if c.monthStart(12 * y) <= t < c.monthStart(12 * y + 12) {
      assert c.monthStart(j) < c.monthStart(12 * y + 12);
      assert c.monthStart(12 * y) < c.monthStart(j + 1);
    }
  }

  /** The years page: live debtors with a creation instant (a zero instant is
      skipped like a missing one). */
  predicate HasCreated(d: Debtor) {
    d.createdAt.Some? && d.createdAt.value != 0
  }

  function CreatedYear(c: LocalTime): Debtor -> int {
    (d: Debtor) => YearOf(c, d.createdAt.GetOr(0))
  }

  function Id(x: int): int {
    x
  }

  /** `years`: the distinct creation years of the live debtors, latest first. */
  function Years(ds: seq<Debtor>, c: LocalTime): seq<int> {
    Dedupe(SortDesc(Map(Filter(Filter(ds, IsLive), HasCreated), CreatedYear(c)), Id))
  }

  /** The creation years of the live debtors that have one. */
  function CreationYears(ds: seq<Debtor>, c: LocalTime): seq<int> {
    Map(Filter(Filter(ds, IsLive), HasCreated), CreatedYear(c))
  }

  lemma {:induction false} CreationYearsMember(ds: seq<Debtor>, c: LocalTime, y: int)
    ensures y in CreationYears(ds, c) <==> exists d :: d in ds && IsLive(d) && HasCreated(d) && YearOf(c, d.createdAt.value) == y
  {
    var ys := CreationYears(ds, c);
    if y in ys {
      var i :| 0 <= i < |ys| && ys[i] == y;
      CreationYearWitness(ds, c, i);
    }
    if exists d :: d in ds && IsLive(d) && HasCreated(d) && YearOf(c, d.createdAt.value) == y {
      var d :| d in ds && IsLive(d) && HasCreated(d) && YearOf(c, d.createdAt.value) == y;
      CreationYearListed(ds, c, d);
    }
  }

  lemma {:induction false} CreationYearWitness(ds: seq<Debtor>, c: LocalTime, i: int)
    requires 0 <= i < |CreationYears(ds, c)|
    ensures var d := Filter(Filter(ds, IsLive), HasCreated)[i];
      d in ds && IsLive(d) && HasCreated(d) && YearOf(c, d.createdAt.value) == CreationYears(ds, c)[i]
  {
    var live := Filter(Filter(ds, IsLive), HasCreated);
    FilterTwice(ds, IsLive, HasCreated, live[i]);
  }

  lemma {:induction false} CreationYearListed(ds: seq<Debtor>, c: LocalTime, d: Debtor)
    requires d in ds && IsLive(d) && HasCreated(d)
    ensures YearOf(c, d.createdAt.value) in CreationYears(ds, c)
  {
    var live := Filter(Filter(ds, IsLive), HasCreated);
    FilterTwice(ds, IsLive, HasCreated, d);
    var i :| 0 <= i < |live| && live[i] == d;
    assert CreationYears(ds, c)[i] == YearOf(c, d.createdAt.value);
  }

  /** A year is listed exactly when a live debtor was created in it, each year
      once, latest first. */
  lemma {:induction false} YearsCorrect(ds: seq<Debtor>, c: LocalTime, y: int)
    ensures StrictlyDesc(Years(ds, c))
    ensures y in Years(ds, c) <==> exists d :: d in ds && IsLive(d) && HasCreated(d) && YearOf(c, d.createdAt.value) == y
  {
    var ys := CreationYears(ds, c);
    var sorted := SortDesc(ys, Id);
    SortDescCorrect(ys, Id);
    DedupeCorrect(sorted);
    assert y in sorted <==> y in multiset(sorted);
    assert y in ys <==> y in multiset(ys);
    CreationYearsMember(ds, c, y);
  }

  /** The months page of year `y`: the range query on the creation instant,
      then the live debtors. A debtor without a creation instant is never
      returned by a range query. */
  function InRange(lo: int, hi: int): Debtor -> bool {
    (d: Debtor) => d.createdAt.Some? && lo <= d.createdAt.value <= hi
  }

  /** The live debtors a range query from `lo` to `hi` returns. */
  function LiveInRange(ds: seq<Debtor>, lo: int, hi: int): seq<Debtor> {
    Filter(Filter(ds, InRange(lo, hi)), IsLive)
  }

  function YearItems(ds: seq<Debtor>, c: LocalTime, y: int): seq<Debtor> {
    LiveInRange(ds, c.monthStart(12 * y), c.monthStart(12 * y + 12) - 1)
  }

  /** `monthsPresent`: the months (0 to 11) in which an item was created. */
  function MonthsPresent(ds: seq<Debtor>, c: LocalTime, y: int): (r: set<int>)
    ensures forall m :: m in r ==> 0 <= m < 12
  {
    set d | d in YearItems(ds, c, y) && d.createdAt.Some? :: MonthIndexOf(c, d.createdAt.value)
  }

  /** A month of year `y` is enabled exactly when a live debtor was created in it. */
  lemma {:induction false} MonthEnabledIff(ds: seq<Debtor>, c: LocalTime, y: int, m: int)
    requires WellFormed(c) && 0 <= m < 12
    ensures m in MonthsPresent(ds, c, y) <==>
      exists d :: d in ds && IsLive(d) && d.createdAt.Some? && c.monthOf(d.createdAt.value) == 12 * y + m
  {
    if m in MonthsPresent(ds, c, y) {
      var d :| d in YearItems(ds, c, y) && d.createdAt.Some? && MonthIndexOf(c, d.createdAt.value) == m;
      EnabledMonthWitness(ds, c, y, m, d);
    }
    if exists d :: d in ds && IsLive(d) && d.createdAt.Some? && c.monthOf(d.createdAt.value) == 12 * y + m {
      var d :| d in ds && IsLive(d) && d.createdAt.Some? && c.monthOf(d.createdAt.value) == 12 * y + m;
      CreatedMonthEnabled(ds, c, y, m, d);
    }
  }

  lemma {:induction false} EnabledMonthWitness(ds: seq<Debtor>, c: LocalTime, y: int, m: int, d: Debtor)
    requires WellFormed(c) && 0 <= m < 12
    requires d in YearItems(ds, c, y) && d.createdAt.Some? && MonthIndexOf(c, d.createdAt.value) == m
    ensures d in ds && IsLive(d) && c.monthOf(d.createdAt.value) == 12 * y + m
  {
    var lo, hi := c.monthStart(12 * y), c.monthStart(12 * y + 12) - 1;
    RangeLiveMember(ds, lo, hi, d);
    YearRangeIff(c, d.createdAt.value, y);
  }

  lemma {:induction false} CreatedMonthEnabled(ds: seq<Debtor>, c: LocalTime, y: int, m: int, d: Debtor)
    requires WellFormed(c) && 0 <= m < 12
    requires d in ds && IsLive(d) && d.createdAt.Some? && c.monthOf(d.createdAt.value) == 12 * y + m
    ensures m in MonthsPresent(ds, c, y)
  {
    MonthSplit(y, m);
    YearRangeIff(c, d.createdAt.value, y);
    InYearListed(ds, c, y, m, d);
  }

  /** The month index `12 * y + m` falls in year `y` at month `m`. */
  lemma {:induction false} MonthSplit(y: int, m: int)
    requires 0 <= m < 12
    ensures (12 * y + m) / 12 == y && (12 * y + m) % 12 == m
  {
  }

  lemma {:induction false} InYearListed(ds: seq<Debtor>, c: LocalTime, y: int, m: int, d: Debtor)
    requires d in ds && IsLive(d) && d.createdAt.Some? && c.monthOf(d.createdAt.value) == 12 * y + m
    requires c.monthStart(12 * y) <= d.createdAt.value <= c.monthStart(12 * y + 12) - 1
    requires (12 * y + m) % 12 == m
    ensures m in MonthsPresent(ds, c, y)
  {
    var lo, hi := c.monthStart(12 * y), c.monthStart(12 * y + 12) - 1;
    RangeLiveMember(ds, lo, hi, d);
    assert MonthIndexOf(c, d.createdAt.value) == m;
  }

  /** Every listed year has at least one enabled month. */
  lemma {:induction false} ListedYearHasMonth(ds: seq<Debtor>, c: LocalTime, y: int)
    requires WellFormed(c) && y in Years(ds, c)
    ensures exists m :: 0 <= m < 12 && m in MonthsPresent(ds, c, y)
  {
    YearsCorrect(ds, c, y);
    var d :| d in ds && IsLive(d) && HasCreated(d) && YearOf(c, d.createdAt.value) == y;
    var m := MonthIndexOf(c, d.createdAt.value);
    MonthEnabledIff(ds, c, y, m);
  }

  /** `String(n)` of an integer. */
  function IntText(n: int): string {
    SignText(n < 0) + NatToDigits(Abs(n))
  }

  /** `Number()` reads back what `String()` wrote: the year segment of a link. */
  lemma {:induction false} IntTextRoundTrip(n: int)
    ensures ToNumber(IntText(n)) == Some(Dec(n, 0))
  {
    ToNumberInteger(n < 0, NatToDigits(Abs(n)));
  }

  /** The link of month `m` of year `y`: `/calendar/<y>/<mm>`. */
  function MonthPath(y: int, m: nat): string
    requires m < 12
  {
    "/calendar/" + IntText(y) + "/" + Pad2(m + 1)
  }

  /** The month page reads the month segment with `Number(month) - 1`: the
      link of month `m` opens month `m`. */
  lemma {:induction false} MonthSegmentRoundTrip(m: nat)
    requires m < 12
    ensures ToNumber(Pad2(m + 1)) == Some(Dec(m + 1, 0))
  {
    ToNumberInteger(false, Pad2(m + 1));
    assert SignText(false) + Pad2(m + 1) == Pad2(m + 1);
  }

  /** The debtors of month `mIndex` of year `y`: the range query, the live
      ones, newest first. */
  function MonthDebtors(ds: seq<Debtor>, c: LocalTime, y: int, mIndex: int): seq<Debtor> {
    var k := 12 * y + mIndex;
    SortDesc(LiveInRange(ds, c.monthStart(k), c.monthStart(k + 1) - 1), CreatedKey)
  }

  /** Two filters in a row keep what passes both. */
  lemma {:induction false} FilterTwice(ds: seq<Debtor>, p: Debtor -> bool, q: Debtor -> bool, d: Debtor)
    ensures d in Filter(Filter(ds, p), q) <==> d in ds && p(d) && q(d)
  {
    FilterMember(Filter(ds, p), q, d);
    FilterMember(ds, p, d);
  }

  /** A sorted list holds what it sorts. */
  lemma {:induction false} SortedMember(s: seq<Debtor>, key: Debtor -> int, d: Debtor)
    ensures d in SortDesc(s, key) <==> d in s
  {
    SortDescPermutes(s, key);
    assert d in SortDesc(s, key) <==> d in multiset(SortDesc(s, key));
  }

  lemma {:induction false} MonthDebtorsMembers(ds: seq<Debtor>, c: LocalTime, y: int, mIndex: int, d: Debtor)
    ensures var k := 12 * y + mIndex;
      d in MonthDebtors(ds, c, y, mIndex) <==>
      d in ds && IsLive(d) && d.createdAt.Some? && c.monthStart(k) <= d.createdAt.value <= c.monthStart(k + 1) - 1
  {
    var k := 12 * y + mIndex;
    var lo, hi := c.monthStart(k), c.monthStart(k + 1) - 1;
    var f := LiveInRange(ds, lo, hi);
    assert MonthDebtors(ds, c, y, mIndex) == SortDesc(f, CreatedKey);
    SortedMember(f, CreatedKey, d);
    RangeLiveMember(ds, lo, hi, d);
  }

  /** The range query followed by the live filter keeps the live debtors
      created between `lo` and `hi`. */
  lemma {:induction false} RangeLiveMember(ds: seq<Debtor>, lo: int, hi: int, d: Debtor)
    ensures d in LiveInRange(ds, lo, hi) <==>
      d in ds && IsLive(d) && d.createdAt.Some? && lo <= d.createdAt.value <= hi
  {
    FilterTwice(ds, InRange(lo, hi), IsLive, d);
  }

  lemma {:induction false} MonthDebtorsSorted(ds: seq<Debtor>, c: LocalTime, y: int, mIndex: int)
    ensures SortedDesc(MonthDebtors(ds, c, y, mIndex), CreatedKey)
  {
    var k := 12 * y + mIndex;
    var f := LiveInRange(ds, c.monthStart(k), c.monthStart(k + 1) - 1);
    SortDescSorted(f, CreatedKey);
  }

  /** A debtor is on the page of a month exactly when it is live and was
      created in that month; the page lists newest first. */
  lemma {:induction false} MonthDebtorsCorrect(ds: seq<Debtor>, c: LocalTime, y: int, mIndex: int, d: Debtor)
    requires WellFormed(c)
    ensures d in MonthDebtors(ds, c, y, mIndex) <==>
      d in ds && IsLive(d) && d.createdAt.Some? && c.monthOf(d.createdAt.value) == 12 * y + mIndex
    ensures SortedDesc(MonthDebtors(ds, c, y, mIndex), CreatedKey)
  {
    MonthDebtorsMembers(ds, c, y, mIndex, d);
    MonthDebtorsSorted(ds, c, y, mIndex);
    if d.createdAt.Some? {
      BetweenStartsIff(c, d.createdAt.value, 12 * y + mIndex);
    }
  }

  /** An enabled month never opens an empty page. */
  lemma {:induction false} EnabledMonthNotEmpty(ds: seq<Debtor>, c: LocalTime, y: int, m: nat)
    requires WellFormed(c) && m < 12 && m in MonthsPresent(ds, c, y)
    ensures |MonthDebtors(ds, c, y, m)| > 0
  {
    MonthEnabledIff(ds, c, y, m);
    var d :| d in ds && IsLive(d) && d.createdAt.Some? && c.monthOf(d.createdAt.value) == 12 * y + m;
    MonthDebtorsCorrect(ds, c, y, m, d);
  }
}
