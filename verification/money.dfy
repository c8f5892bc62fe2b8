/** The amount parser and formatter of `src/lib/money.ts`: free-form amounts in
    mixed Brazilian and American notation are read into exact decimals, and
    amounts in cents are written back in Brazilian notation ("1.000,50"). */
module Money {
  import opened Wrappers
  import opened Text

  /** The exact decimal `mant / 10^scale`. JavaScript reads amounts into binary
      doubles; the model keeps them exact. */
  datatype Dec = Dec(mant: int, scale: nat)

  predicate IsNegative(d: Dec) {
    d.mant < 0
  }

  /** The sign prefix `Number()` accepts in front of a literal, as text. */
  function SignText(neg: bool): string {
    if neg then "-" else ""
  }

  function Abs(c: int): nat {
    if c < 0 then -c else c
  }

  function Signed(neg: bool, v: int): int {
    if neg then -v else v
  }

  /** An unsigned decimal literal: digits with at most one `.` and at least one
      digit in all. */
  function ReadUnsigned(body: string): Option<Dec> {
    var k := IndexOf(body, '.');
    var whole := body[..k];
    var frac := if k < |body| then body[k + 1..] else "";
    if AllDigits(whole) && AllDigits(frac) && |whole| + |frac| > 0 then
      Some(Dec(DigitsValue(whole + frac), |frac|))
    else
      None
  }

  function Negate(r: Option<Dec>): Option<Dec> {
    match r
    case None => None
    case Some(d) => Some(Dec(-d.mant, d.scale))
  }

  /** JavaScript's `Number(x)` on the decimal-literal part of its grammar: an
      optional `+` or `-`, then digits with at most one `.`, at least one digit in
      all; the empty string reads as 0. Anything else is `NaN` (`None`). */
  function ToNumber(x: string): Option<Dec> {
    if x == "" then Some(Dec(0, 0))
    else if x[0] == '-' then Negate(ReadUnsigned(x[1..]))
    else if x[0] == '+' then ReadUnsigned(x[1..])
    else ReadUnsigned(x)
  }

  /** A character that is neither a digit nor the point makes the literal unreadable. */
  lemma {:induction false} ReadUnsignedRejects(body: string, i: nat)
    requires i < |body| && body[i] != '.' && !IsDigit(body[i])
    ensures ReadUnsigned(body) == None
  {
    var k := IndexOf(body, '.');
    if i < k {
      assert body[..k][i] == body[i];
    } else {
      assert body[k + 1..][i - k - 1] == body[i];
    }
  }

  /** A comma is never part of a number. */
  lemma {:induction false} ToNumberRejectsComma(x: string)
    requires ',' in x
    ensures ToNumber(x) == None
  {
    var i :| 0 <= i < |x| && x[i] == ',';
    if x[0] == '-' || x[0] == '+' {
      assert x[1..][i - 1] == ',';
      ReadUnsignedRejects(x[1..], i - 1);
    } else {
      ReadUnsignedRejects(x, i);
    }
  }

  lemma {:induction false} ReadUnsignedInteger(a: string)
    requires AllDigits(a) && |a| > 0
    ensures ReadUnsigned(a) == Some(Dec(DigitsValue(a), 0))
  {
    assert '.' !in a;
    IndexOfAbsent(a, '.');
    assert a[..|a|] == a && a + "" == a;
  }

  lemma {:induction false} ReadUnsignedFixed(a: string, b: string)
    requires AllDigits(a) && AllDigits(b) && |a| + |b| > 0
    ensures ReadUnsigned(a + "." + b) == Some(Dec(DigitsValue(a + b), |b|))
  {
    var body := a + "." + b;
    assert '.' !in a;
    IndexOfAt(a, '.', "." + b);
    assert body == a + ("." + b);
    assert body[..|a|] == a;
    assert body[|a| + 1..] == b;
  }

  /** A leading `-` negates; without a sign the literal is read as it stands. */
  lemma {:induction false} ToNumberSign(neg: bool, body: string)
    requires |body| > 0 && body[0] != '-' && body[0] != '+'
    ensures ToNumber(SignText(neg) + body) == if neg then Negate(ReadUnsigned(body)) else ReadUnsigned(body)
  {
    var x := SignText(neg) + body;
    if neg {
      assert x[0] == '-' && x[1..] == body;
    } else {
      assert x == body;
    }
  }

  /** A literal `a.b` never starts with a sign. */
  lemma {:induction false} DecimalTextUnsigned(a: string, b: string)
    requires AllDigits(a) && |a| + |b| > 0
    ensures (a + "." + b)[0] != '-' && (a + "." + b)[0] != '+'
  {
    if |a| > 0 {
      assert (a + "." + b)[0] == a[0];
    }
  }

  /** `Number()` reads `[-]a.b` as the decimal of the digits of `a` and `b`
      scaled by the number of digits after the point. */
  lemma {:induction false} ToNumberFixed(neg: bool, a: string, b: string)
    requires AllDigits(a) && AllDigits(b) && |a| + |b| > 0
    ensures ToNumber(SignText(neg) + (a + "." + b)) == Some(Dec(Signed(neg, DigitsValue(a + b)), |b|))
  {
    DecimalTextUnsigned(a, b);
    ToNumberSign(neg, a + "." + b);
    ReadUnsignedFixed(a, b);
  }

  /** `Number()` reads a non-empty digit string with an optional `-` as an integer. */
  lemma {:induction false} ToNumberInteger(neg: bool, a: string)
    requires AllDigits(a) && |a| > 0
    ensures ToNumber(SignText(neg) + a) == Some(Dec(Signed(neg, DigitsValue(a)), 0))
  {
    assert a[0] != '-' && a[0] != '+';
    ToNumberSign(neg, a);
    ReadUnsignedInteger(a);
  }

  /** The text `parseAmountBR` hands to `Number()` once the white space is gone:
      the separator policy of the parser. */
  function Normalize(s0: string): string {
    var hasComma := ',' in s0;
    var hasDot := '.' in s0;
    if hasComma && hasDot then
      if LastIndex(s0, ',') > LastIndex(s0, '.') then
        // the comma comes last: it is the decimal point, the dots group thousands
        ReplaceFirst(RemoveAll(s0, '.'), ',', '.')
      else
        // the dot comes last: it is the decimal point, the commas group thousands
        RemoveAll(s0, ',')
    else if hasComma then
      ReplaceFirst(RemoveAll(s0, '.'), ',', '.')
    else if hasDot then
      if Count(s0, '.') >= 2 then
        RemoveAll(s0, '.')
      else
        SingleDot(s0)
    else
      s0
  }

  /** A lone dot with exactly three digits after it, and something before it,
      groups thousands and is dropped; otherwise it stays as the decimal point. */
  function SingleDot(s0: string): string {
    var k := IndexOf(s0, '.');
    var intPart := s0[..k];
    var fracPart := if k < |s0| then s0[k + 1..] else "";
    if |fracPart| == 3 && |intPart| >= 1 then intPart + fracPart else s0
  }

  /** `parseAmountBR(raw)`: `None` stands for `NaN`. */
  function ParseAmount(raw: string): Option<Dec> {
    var s0 := StripSpaces(raw);
    if s0 == "" then None else ToNumber(Normalize(s0))
  }

  /** An empty or all-white-space entry is rejected; it never reads as 0. */
  lemma {:induction false} ParseAmountBlank(raw: string)
    requires forall i :: 0 <= i < |raw| ==> IsSpace(raw[i])
    ensures ParseAmount(raw) == None
  {
    StripSpacesBlank(raw);
  }

  /** White space anywhere in the entry is ignored. */
  lemma {:induction false} ParseAmountIgnoresSpace(s: string, i: nat, w: char)
    requires i <= |s| && IsSpace(w)
    ensures ParseAmount(s[..i] + [w] + s[i..]) == ParseAmount(s)
  {
    StripSpacesAppend(s[..i] + [w], s[i..]);
    StripSpacesAppend(s[..i], [w]);
    StripSpacesAppend(s[..i], s[i..]);
    assert StripSpaces([w]) == "";
    assert s[..i] + s[i..] == s;
    assert StripSpaces(s[..i] + [w] + s[i..]) == StripSpaces(s);
  }

  /** Once the white space is gone, `parseAmountBR` is `Number()` of the
      normalized text. */
  lemma {:induction false} ParseAmountVia(s: string, x: string)
    requires NoSpace(s) && s != "" && Normalize(s) == x
    ensures ParseAmount(s) == ToNumber(x)
  {
    StripSpacesOfNoSpace(s);
  }

  /** Removing one character keeps another one out. */
  lemma {:induction false} RemoveAllKeepsAbsent(s: string, c: char, d: char)
    requires c != d && c !in s
    ensures c !in RemoveAll(s, d)
  {
    CountAbsent(s, c);
    CountRemoveOther(s, c, d);
    CountAbsent(RemoveAll(s, d), c);
  }

  /** A comma followed only by digits is the decimal point: the dots before it
      are dropped and the comma becomes a dot. */
  lemma {:induction false} NormalizeCommaDecimal(pre: string, frac: string)
    requires ',' !in pre && AllDigits(frac)
    ensures Normalize(pre + "," + frac) == RemoveAll(pre, '.') + "." + frac
  {
    var s := pre + "," + frac;
    assert ',' !in frac && '.' !in frac;
    assert ',' in s by { assert s[|pre|] == ','; }
    if '.' in s {
      LastIndexAt(pre, ',', frac);
      LastIndexBefore(pre, ',', '.', frac);
    }
    RemoveAllAppend(pre + ",", frac, '.');
    RemoveAllAppend(pre, ",", '.');
    RemoveAllAbsent(",", '.');
    RemoveAllAbsent(frac, '.');
    RemoveAllKeepsAbsent(pre, ',', '.');
    ReplaceFirstAt(RemoveAll(pre, '.'), ',', '.', frac);
  }

  /** A dot followed only by digits, after a comma: the dot is the decimal
      point and the commas are dropped. */
  lemma {:induction false} NormalizeDotDecimal(pre: string, frac: string)
    requires ',' in pre && '.' !in pre && AllDigits(frac)
    ensures Normalize(pre + "." + frac) == RemoveAll(pre, ',') + "." + frac
  {
    var s := pre + "." + frac;
    assert ',' !in frac && '.' !in frac;
    assert ',' in s;
    assert '.' in s by { assert s[|pre|] == '.'; }
    LastIndexAt(pre, '.', frac);
    LastIndexBefore(pre, '.', ',', frac);
    RemoveAllAppend(pre + ".", frac, ',');
    RemoveAllAppend(pre, ".", ',');
    RemoveAllAbsent(".", ',');
    RemoveAllAbsent(frac, ',');
  }

  /** A single dot between digit runs. */
  lemma {:induction false} NormalizeOneDot(a: string, b: string)
    requires AllDigits(a) && AllDigits(b)
    ensures Normalize(a + "." + b) == if |b| == 3 && |a| >= 1 then a + b else a + "." + b
  {
    var s := a + "." + b;
    assert ',' !in s;
    assert '.' in s by { assert s[|a|] == '.'; }
    assert '.' !in a && '.' !in b;
    CountAppend(a + ".", b, '.');
    CountAppend(a, ".", '.');
    CountAbsent(a, '.');
    CountAbsent(b, '.');
    IndexOfAt(a, '.', "." + b);
    assert s == a + ("." + b);
    assert s[..|a|] == a && s[|a| + 1..] == b;
    NormalizeSingleDot(s);
  }

  /** The branch of a single dot and no comma. */
  lemma {:induction false} NormalizeSingleDot(s0: string)
    requires ',' !in s0 && '.' in s0 && Count(s0, '.') < 2
    ensures Normalize(s0) == SingleDot(s0)
  {
  }

  /** Brazilian notation: digit groups separated by dots, then a comma and the
      fraction. The comma is the decimal point and every dot is dropped. With a
      single group this is the comma-only case ("1234,56"). */
  lemma {:induction false} ParseAmountCommaDecimal(gs: seq<string>, frac: string)
    requires |gs| >= 1 && AllDigitGroups(gs) && |gs[0]| > 0 && AllDigits(frac)
    ensures AllDigits(Concat(gs) + frac)
    ensures ParseAmount(JoinWith(gs, '.') + "," + frac) == Some(Dec(DigitsValue(Concat(gs) + frac), |frac|))
  {
    ConcatDigits(gs);
    DigitsValueAppend(Concat(gs), frac);
    var j := JoinWith(gs, '.');
    var s := j + "," + frac;
    JoinWithChars(gs, '.');
    assert NoSpace(s);
    assert ',' !in j;
    assert |Concat(gs)| > 0 by {
      assert Concat(gs) == gs[0] + Concat(gs[1..]);
    }
    NormalizeCommaDecimal(j, frac);
    JoinWithRemove(gs, '.');
    ParseAmountVia(s, Concat(gs) + "." + frac);
    ToNumberFixed(false, Concat(gs), frac);
    assert SignText(false) + (Concat(gs) + "." + frac) == Concat(gs) + "." + frac;
  }

  /** American notation: two or more digit groups separated by commas, then a dot
      and the fraction. The dot is the decimal point and every comma is dropped. */
  lemma {:induction false} ParseAmountDotDecimal(gs: seq<string>, frac: string)
    requires |gs| >= 2 && AllDigitGroups(gs) && |gs[0]| > 0 && AllDigits(frac)
    ensures AllDigits(Concat(gs) + frac)
    ensures ParseAmount(JoinWith(gs, ',') + "." + frac) == Some(Dec(DigitsValue(Concat(gs) + frac), |frac|))
  {
    ConcatDigits(gs);
    DigitsValueAppend(Concat(gs), frac);
    var j := JoinWith(gs, ',');
    var s := j + "." + frac;
    JoinWithChars(gs, ',');
    assert NoSpace(s);
    assert '.' !in j;
    assert ',' in j by { assert j[|gs[0]|] == ','; }
    assert |Concat(gs)| > 0 by {
      assert Concat(gs) == gs[0] + Concat(gs[1..]);
    }
    NormalizeDotDecimal(j, frac);
    JoinWithRemove(gs, ',');
    ParseAmountVia(s, Concat(gs) + "." + frac);
    ToNumberFixed(false, Concat(gs), frac);
    assert SignText(false) + (Concat(gs) + "." + frac) == Concat(gs) + "." + frac;
  }

  /** When the comma is the decimal point only the first comma is converted, so
      a second comma makes the entry unreadable ("1,2,3" and "1.234,5,6"). */
  lemma {:induction false} ParseAmountTwoCommas(raw: string)
    requires Count(StripSpaces(raw), ',') >= 2
    requires '.' !in StripSpaces(raw) || LastIndex(StripSpaces(raw), ',') > LastIndex(StripSpaces(raw), '.')
    ensures ParseAmount(raw) == None
  {
    var s0 := StripSpaces(raw);
    var t := RemoveAll(s0, '.');
    CountAbsent(s0, ',');
    assert Normalize(s0) == ReplaceFirst(t, ',', '.');
    CountRemoveOther(s0, ',', '.');
    CountAbsent(t, ',');
    CountReplaceFirst(t, ',', '.');
    CountAbsent(ReplaceFirst(t, ',', '.'), ',');
    ToNumberRejectsComma(ReplaceFirst(t, ',', '.'));
  }

  /** Two or more dots and no comma: every dot groups thousands. The groups may
      even be empty, so ".." reads as `Number("")`, which is 0. */
  lemma {:induction false} ParseAmountManyDots(gs: seq<string>)
    requires |gs| >= 3 && AllDigitGroups(gs)
    ensures AllDigits(Concat(gs))
    ensures ParseAmount(JoinWith(gs, '.')) == Some(Dec(DigitsValue(Concat(gs)), 0))
  {
    ConcatDigits(gs);
    var s := JoinWith(gs, '.');
    JoinWithChars(gs, '.');
    assert NoSpace(s);
    JoinWithCount(gs, '.');
    CountAbsent(s, '.');
    assert ',' !in s;
    JoinWithRemove(gs, '.');
    assert Normalize(s) == Concat(gs);
    ParseAmountVia(s, Concat(gs));
    if |Concat(gs)| > 0 {
      ToNumberInteger(false, Concat(gs));
      assert SignText(false) + Concat(gs) == Concat(gs);
    }
  }

  /** A single dot: with three digits after it and something before it, it
      groups thousands ("1.000" is 1000); otherwise it is the decimal point
      ("1.5", "1234.56", ".5"). */
  lemma {:induction false} ParseAmountOneDot(a: string, b: string)
    requires AllDigits(a) && AllDigits(b) && |a| + |b| > 0
    ensures AllDigits(a + b)
    ensures |b| == 3 && |a| >= 1 ==> ParseAmount(a + "." + b) == Some(Dec(DigitsValue(a + b), 0))
    ensures !(|b| == 3 && |a| >= 1) ==> ParseAmount(a + "." + b) == Some(Dec(DigitsValue(a + b), |b|))
  {
    DigitsValueAppend(a, b);
    var s := a + "." + b;
    assert NoSpace(s);
    NormalizeOneDot(a, b);
    ParseAmountVia(s, Normalize(s));
    if |b| == 3 && |a| >= 1 {
      ToNumberInteger(false, a + b);
      assert SignText(false) + (a + b) == a + b;
    } else {
      ToNumberFixed(false, a, b);
      assert SignText(false) + (a + "." + b) == s;
    }
  }

  /** Plain digits read as an integer. */
  lemma {:induction false} ParseAmountDigits(a: string)
    requires AllDigits(a) && |a| > 0
    ensures ParseAmount(a) == Some(Dec(DigitsValue(a), 0))
  {
    assert NoSpace(a);
    assert ',' !in a && '.' !in a;
    ParseAmountVia(a, a);
    ToNumberInteger(false, a);
    assert SignText(false) + a == a;
  }

  /** The examples of the parser's documentation, and the boundary cases. */
  lemma {:induction false} ParseAmountExamples()
    ensures ParseAmount("1.234,56") == Some(Dec(123456, 2))
    ensures ParseAmount("1234,56") == Some(Dec(123456, 2))
    ensures ParseAmount("1,234.56") == Some(Dec(123456, 2))
    ensures ParseAmount("1234.56") == Some(Dec(123456, 2))
    ensures ParseAmount("1.000") == Some(Dec(1000, 0))
    ensures ParseAmount("1.000.000") == Some(Dec(1000000, 0))
    ensures ParseAmount("1000") == Some(Dec(1000, 0))
    ensures ParseAmount("1.5") == Some(Dec(15, 1))
    ensures ParseAmount("") == None
    ensures ParseAmount("..") == Some(Dec(0, 0))
    ensures ParseAmount("1,2,3") == None
  {
    ExampleGroupedComma("1.234,56");
    ExamplePlainComma("1234,56");
    ExampleGroupedDot("1,234.56");
    ExamplePlainDot("1234.56");
    ExampleThousands("1.000");
    ExampleMillions("1.000.000");
    ExampleInteger("1000");
    ExampleShortFraction("1.5");
    ParseAmountBlank("");
    ExampleOnlyDots("..");
    ExampleTwoCommas("1,2,3");
  }

  lemma {:induction false} Digits123456()
    ensures DigitsValue("123456") == 123456
  {
    assert "123456"[..5] == "12345";
    assert "12345"[..4] == "1234";
    assert "1234"[..3] == "123";
    assert "123"[..2] == "12";
    assert "12"[..1] == "1";
    assert "1"[..0] == "";
  }

  lemma {:induction false} Digits1000000()
    ensures DigitsValue("1000") == 1000
    ensures DigitsValue("1000000") == 1000000
  {
    assert "1000000"[..6] == "100000";
    assert "100000"[..5] == "10000";
    assert "10000"[..4] == "1000";
    assert "1000"[..3] == "100";
    assert "100"[..2] == "10";
    assert "10"[..1] == "1";
    assert "1"[..0] == "";
  }

  lemma {:induction false} TextGroupedComma()
    ensures JoinWith(["1", "234"], '.') + "," + "56" == "1.234,56"
    ensures Concat(["1", "234"]) + "56" == "123456"
  {
  }

  lemma {:induction false} ExampleGroupedComma(s: string)
    requires s == "1.234,56"
    ensures ParseAmount(s) == Some(Dec(123456, 2))
  {
    TextGroupedComma();
    ParseAmountCommaDecimal(["1", "234"], "56");
    Digits123456();
  }

  lemma {:induction false} TextPlainComma()
    ensures JoinWith(["1234"], '.') + "," + "56" == "1234,56"
    ensures Concat(["1234"]) + "56" == "123456"
  {
  }

  lemma {:induction false} ExamplePlainComma(s: string)
    requires s == "1234,56"
    ensures ParseAmount(s) == Some(Dec(123456, 2))
  {
    TextPlainComma();
    ParseAmountCommaDecimal(["1234"], "56");
    Digits123456();
  }

  lemma {:induction false} TextGroupedDot()
    ensures JoinWith(["1", "234"], ',') + "." + "56" == "1,234.56"
    ensures Concat(["1", "234"]) + "56" == "123456"
  {
  }

  lemma {:induction false} ExampleGroupedDot(s: string)
    requires s == "1,234.56"
    ensures ParseAmount(s) == Some(Dec(123456, 2))
  {
    TextGroupedDot();
    ParseAmountDotDecimal(["1", "234"], "56");
    Digits123456();
  }

  lemma {:induction false} TextPlainDot()
    ensures "1234" + "." + "56" == "1234.56"
    ensures "1234" + "56" == "123456"
  {
  }

  lemma {:induction false} ExamplePlainDot(s: string)
    requires s == "1234.56"
    ensures ParseAmount(s) == Some(Dec(123456, 2))
  {
    TextPlainDot();
    ParseAmountOneDot("1234", "56");
    Digits123456();
  }

  lemma {:induction false} TextThousands()
    ensures "1" + "." + "000" == "1.000"
    ensures "1" + "000" == "1000"
  {
  }

  lemma {:induction false} ExampleThousands(s: string)
    requires s == "1.000"
    ensures ParseAmount(s) == Some(Dec(1000, 0))
  {
    TextThousands();
    ParseAmountOneDot("1", "000");
    Digits1000000();
  }

  lemma {:induction false} TextMillions()
    ensures JoinWith(["1", "000", "000"], '.') == "1.000.000"
    ensures Concat(["1", "000", "000"]) == "1000000"
  {
  }

  lemma {:induction false} ExampleMillions(s: string)
    requires s == "1.000.000"
    ensures ParseAmount(s) == Some(Dec(1000000, 0))
  {
    TextMillions();
    ParseAmountManyDots(["1", "000", "000"]);
    Digits1000000();
  }

  lemma {:induction false} ExampleInteger(s: string)
    requires s == "1000"
    ensures ParseAmount(s) == Some(Dec(1000, 0))
  {
    ParseAmountDigits("1000");
    Digits1000000();
  }

  lemma {:induction false} TextShortFraction()
    ensures "1" + "." + "5" == "1.5"
    ensures "1" + "5" == "15"
    ensures DigitsValue("15") == 15
  {
    assert "15"[..1] == "1";
    assert "1"[..0] == "";
  }

  lemma {:induction false} ExampleShortFraction(s: string)
    requires s == "1.5"
    ensures ParseAmount(s) == Some(Dec(15, 1))
  {
    var a, b := "1", "5";
    assert AllDigits(a) && AllDigits(b);
    ParseAmountOneDot(a, b);
    TextShortFraction();
  }

  lemma {:induction false} TextOnlyDots()
    ensures JoinWith(["", "", ""], '.') == ".."
    ensures Concat(["", "", ""]) == ""
  {
  }

  lemma {:induction false} ExampleOnlyDots(s: string)
    requires s == ".."
    ensures ParseAmount(s) == Some(Dec(0, 0))
  {
    TextOnlyDots();
    ParseAmountManyDots(["", "", ""]);
  }

  lemma {:induction false} TextTwoCommas()
    ensures NoSpace("1,2,3") && '.' !in "1,2,3"
    ensures Count("1,2,3", ',') == 2
  {
  }

  lemma {:induction false} ExampleTwoCommas(s: string)
    requires s == "1,2,3"
    ensures ParseAmount(s) == None
  {
    TextTwoCommas();
    StripSpacesOfNoSpace(s);
    ParseAmountTwoCommas(s);
  }

  /** `Math.round(x * 100) / 100` on a non-negative exact decimal, as
      `Number(x.toFixed(2))` does before a value is stored: the nearest whole
      number of cents, halves rounded up. */
  function RoundCents(d: Dec): (c: int)
    requires d.mant >= 0
    ensures c >= 0
    ensures 2 * Pow10(d.scale) * c <= 200 * d.mant + Pow10(d.scale) < 2 * Pow10(d.scale) * (c + 1)
  {
    var p := Pow10(d.scale);
    var n := 200 * d.mant + p;
    DivBounds(n, 2 * p);
    n / (2 * p)
  }

  /** Euclidean division brackets its dividend. */
  lemma {:induction false} DivBounds(n: int, q: int)
    requires n >= 0 && q > 0
    ensures n / q >= 0
    ensures q * (n / q) <= n < q * (n / q + 1)
  {
  }

  /** An amount given in whole cents, or with fewer places, is stored exactly. */
  lemma {:induction false} RoundCentsExact(c: nat)
    ensures RoundCents(Dec(c, 2)) == c
    ensures RoundCents(Dec(c, 1)) == 10 * c
    ensures RoundCents(Dec(c, 0)) == 100 * c
  {
    assert Pow10(2) == 100 && Pow10(1) == 10 && Pow10(0) == 1;
  }

  /** Thousands grouping: a dot before every complete group of three digits,
      counted from the right. */
  function Group(d: string): string {
    if |d| <= 3 then d else Group(d[..|d| - 3]) + "." + d[|d| - 3..]
  }

  lemma {:induction false} GroupFacts(d: string)
    requires AllDigits(d)
    ensures NoSpace(Group(d)) && ',' !in Group(d)
    ensures RemoveAll(Group(d), '.') == d
    ensures ('.' in Group(d)) <==> |d| > 3
    ensures |d| > 0 ==> exists gs ::
      |gs| > 0 && Group(d) == JoinWith(gs, '.') && Concat(gs) == d
      && 1 <= |gs[0]| <= 3 && forall i :: 1 <= i < |gs| ==> |gs[i]| == 3
  {
    GroupNoSpace(d);
    GroupRemove(d);
    GroupDot(d);
    if |d| > 0 {
      GroupJoin(d);
      var gs := Triples(d);
      assert Group(d) == JoinWith(gs, '.') && Concat(gs) == d;
    }
  }

  /** The digits cut into groups of three from the right; the first group
      holds the one to three digits left over. */
  function Triples(d: string): (gs: seq<string>)
    requires |d| > 0
    ensures |gs| >= 1 && 1 <= |gs[0]| <= 3
    ensures forall i :: 1 <= i < |gs| ==> |gs[i]| == 3
    ensures Concat(gs) == d
    decreases |d|
  {
    if |d| <= 3 then
      assert Concat([d][1..]) == "";
      [d]
    else
      var hi, lo := d[..|d| - 3], d[|d| - 3..];
      var r := Triples(hi) + [lo];
      ConcatSnoc(Triples(hi), lo);
      assert hi + lo == d;
      r
  }

  /** The grouped digits are the groups of three joined by dots. */
  lemma {:induction false} GroupJoin(d: string)
    requires |d| > 0
    ensures Group(d) == JoinWith(Triples(d), '.')
    decreases |d|
  {
    if |d| > 3 {
      var hi, lo := d[..|d| - 3], d[|d| - 3..];
      GroupJoin(hi);
      JoinWithSnoc(Triples(hi), lo, '.');
    }
  }

  /** The grouped digits hold no white space and no comma. */
  lemma {:induction false} GroupNoSpace(d: string)
    requires AllDigits(d)
    ensures NoSpace(Group(d)) && ',' !in Group(d)
    decreases |d|
  {
    if |d| <= 3 {
      DigitsNoSpace(d);
      DigitsNoSeparator(d);
    } else {
      var hi, lo := d[..|d| - 3], d[|d| - 3..];
      GroupNoSpace(hi);
      DigitsNoSpace(lo);
      NoSpaceAppend(Group(hi), ".");
      NoSpaceAppend(Group(hi) + ".", lo);
      DigitsNoSeparator(lo);
    }
  }

  /** Removing the dots from the grouped digits gives the digits back. */
  lemma {:induction false} GroupRemove(d: string)
    requires AllDigits(d)
    ensures RemoveAll(Group(d), '.') == d
    decreases |d|
  {
    if |d| <= 3 {
      DigitsNoSeparator(d);
      RemoveAllAbsent(d, '.');
    } else {
      var hi, lo := d[..|d| - 3], d[|d| - 3..];
      GroupRemove(hi);
      RemoveAllAppend(Group(hi) + ".", lo, '.');
      RemoveAllAppend(Group(hi), ".", '.');
      DigitsNoSeparator(lo);
      RemoveAllAbsent(lo, '.');
      assert hi + lo == d;
    }
  }

  /** The grouped digits hold a dot exactly when there are more than three digits. */
  lemma {:induction false} GroupDot(d: string)
    requires AllDigits(d)
    ensures ('.' in Group(d)) <==> |d| > 3
  {
    if |d| <= 3 {
      DigitsNoSeparator(d);
    } else {
      var hi, lo := d[..|d| - 3], d[|d| - 3..];
      assert (Group(hi) + "." + lo)[|Group(hi)|] == '.';
    }
  }

  /** `formatMoneyBR` on an amount in cents: sign, grouped whole part, comma,
      two decimals. */
  function FormatCents(c: int): string {
    SignText(c < 0) + Group(NatToDigits(Abs(c) / 100)) + "," + Pad2(Abs(c) % 100)
  }

  /** `formatMoneyBR(n)`: `Number(n) || 0` sends a missing or `NaN` amount to 0. */
  function FormatMoney(n: Option<int>): (r: string)
    ensures n.None? ==> r == "0,00"
  {
    var r := FormatCents(n.GetOr(0));
    assert n.None? ==> r == "0,00" by {
      assert NatToDigits(0) == "0";
      assert Pad2(0) == "00";
    }
    r
  }

  /** The formatter on the amounts of its documentation and the boundary cases. */
  lemma {:induction false} FormatExamples()
    ensures FormatCents(100050) == "1.000,50"
    ensures FormatCents(0) == "0,00"
    ensures FormatCents(123456789) == "1.234.567,89"
    ensures FormatCents(-5) == "-0,05"
  {
    FormatThousand(100050);
    FormatZero(0);
    FormatMillion(123456789);
    FormatNegative(-5);
  }

  lemma {:induction false} NatToDigitsSmall()
    ensures NatToDigits(0) == "0" && NatToDigits(1) == "1"
    ensures NatToDigits(10) == "10" && NatToDigits(12) == "12"
    ensures NatToDigits(100) == "100" && NatToDigits(123) == "123"
  {
  }

  lemma {:induction false} NatToDigitsLarge()
    ensures NatToDigits(1000) == "1000"
    ensures NatToDigits(1234567) == "1234567"
  {
    NatToDigitsSmall();
    assert NatToDigits(1234) == "1234";
    assert NatToDigits(12345) == "12345";
    assert NatToDigits(123456) == "123456";
  }

  lemma {:induction false} GroupExamples()
    ensures Group("0") == "0"
    ensures Group("1000") == "1.000"
    ensures Group("1234567") == "1.234.567"
  {
    assert "1000"[..1] == "1" && "1000"[1..] == "000";
    assert "1234567"[..4] == "1234" && "1234567"[4..] == "567";
    assert "1234"[..1] == "1" && "1234"[1..] == "234";
  }

  lemma {:induction false} Pad2Examples()
    ensures Pad2(0) == "00" && Pad2(5) == "05" && Pad2(50) == "50" && Pad2(89) == "89"
  {
  }

  lemma {:induction false} FormatExampleFacts()
    ensures Abs(100050) / 100 == 1000 && Abs(100050) % 100 == 50
    ensures Abs(0) / 100 == 0 && Abs(0) % 100 == 0
    ensures Abs(123456789) / 100 == 1234567 && Abs(123456789) % 100 == 89
    ensures Abs(-5) / 100 == 0 && Abs(-5) % 100 == 5
    ensures SignText(false) + "1.000" + "," + "50" == "1.000,50"
    ensures SignText(false) + "0" + "," + "00" == "0,00"
    ensures SignText(false) + "1.234.567" + "," + "89" == "1.234.567,89"
    ensures SignText(true) + "0" + "," + "05" == "-0,05"
  {
  }

  lemma {:induction false} FormatParts(c: int, d: string, p: string)
    requires NatToDigits(Abs(c) / 100) == d && Pad2(Abs(c) % 100) == p
    ensures FormatCents(c) == SignText(c < 0) + Group(d) + "," + p
  {
  }

  lemma {:induction false} FormatThousand(c: int)
    requires c == 100050
    ensures FormatCents(c) == "1.000,50"
  {
    FormatExampleFacts();
    NatToDigitsLarge();
    GroupExamples();
    Pad2Examples();
    FormatParts(c, "1000", "50");
  }

  lemma {:induction false} FormatZero(c: int)
    requires c == 0
    ensures FormatCents(c) == "0,00"
  {
    FormatExampleFacts();
    NatToDigitsSmall();
    GroupExamples();
    Pad2Examples();
    FormatParts(c, "0", "00");
  }

  lemma {:induction false} FormatMillion(c: int)
    requires c == 123456789
    ensures FormatCents(c) == "1.234.567,89"
  {
    FormatExampleFacts();
    NatToDigitsLarge();
    GroupExamples();
    Pad2Examples();
    FormatParts(c, "1234567", "89");
  }

  lemma {:induction false} FormatNegative(c: int)
    requires c == -5
    ensures FormatCents(c) == "-0,05"
  {
    FormatExampleFacts();
    NatToDigitsSmall();
    GroupExamples();
    Pad2Examples();
    FormatParts(c, "0", "05");
  }

  /** Parsing what the formatter writes gives back the amount, to the cent:
      `parseAmountBR(formatMoneyBR(v)) == v` for every two-place value `v`. */
  lemma {:induction false} ParseFormat(c: int)
    ensures ParseAmount(FormatCents(c)) == Some(Dec(c, 2))
  {
    var digits, cents := NatToDigits(Abs(c) / 100), Pad2(Abs(c) % 100);
    FormatNoSpace(c);
    NormalizeFormat(c);
    ParseAmountVia(FormatCents(c), SignText(c < 0) + (digits + "." + cents));
    ToNumberFixed(c < 0, digits, cents);
    FormatDigitsValue(c);
  }

  /** The shape the formatter writes, a sign, grouped digits, a comma and the
      fraction digits, has no white space and no comma before the last one. */
  lemma {:induction false} GroupedChars(neg: bool, d: string, frac: string)
    requires AllDigits(d) && AllDigits(frac)
    ensures NoSpace(SignText(neg) + Group(d) + "," + frac)
    ensures ',' !in SignText(neg) + Group(d)
  {
    GroupFacts(d);
    DigitsNoSpace(frac);
    NoSpaceAppend(SignText(neg), Group(d));
    NoSpaceAppend(SignText(neg) + Group(d), ",");
    NoSpaceAppend(SignText(neg) + Group(d) + ",", frac);
  }

  /** The formatter's shape normalizes to the plain literal `[-]d.frac`. */
  lemma {:induction false} GroupedText(neg: bool, d: string, frac: string)
    requires AllDigits(d) && AllDigits(frac)
    ensures Normalize(SignText(neg) + Group(d) + "," + frac) == SignText(neg) + (d + "." + frac)
  {
    var sign, g := SignText(neg), Group(d);
    GroupedChars(neg, d, frac);
    NormalizeCommaDecimal(sign + g, frac);
    SignedGroupRemove(neg, d);
    Regroup(sign, d, ".", frac);
  }

  lemma {:induction false} SignedGroupRemove(neg: bool, d: string)
    requires AllDigits(d)
    ensures RemoveAll(SignText(neg) + Group(d), '.') == SignText(neg) + d
  {
    GroupFacts(d);
    RemoveAllAppend(SignText(neg), Group(d), '.');
    RemoveAllAbsent(SignText(neg), '.');
  }

  lemma {:induction false} FormatNoSpace(c: int)
    ensures NoSpace(FormatCents(c)) && FormatCents(c) != ""
  {
    GroupedChars(c < 0, NatToDigits(Abs(c) / 100), Pad2(Abs(c) % 100));
  }

  /** The formatter's text normalizes to the plain literal `[-]digits.cents`. */
  lemma {:induction false} NormalizeFormat(c: int)
    ensures Normalize(FormatCents(c)) == SignText(c < 0) + (NatToDigits(Abs(c) / 100) + "." + Pad2(Abs(c) % 100))
  {
    GroupedText(c < 0, NatToDigits(Abs(c) / 100), Pad2(Abs(c) % 100));
  }

  lemma {:induction false} FormatDigitsValue(c: int)
    ensures Signed(c < 0, DigitsValue(NatToDigits(Abs(c) / 100) + Pad2(Abs(c) % 100))) == c
  {
    var q, r := Abs(c) / 100, Abs(c) % 100;
    DigitsValueAppend(NatToDigits(q), Pad2(r));
    assert Pow10(2) == 100;
    assert DigitsValue(NatToDigits(q) + Pad2(r)) == q * 100 + r;
    assert q * 100 + r == Abs(c);
  }
}
