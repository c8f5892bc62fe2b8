/** Character and string helpers used by the amount parser, the formatter, the
    payment search and the report writer. Strings are sequences of Unicode
    scalar values. */
module Text {

  /** The characters JavaScript's `\s` class and `String.prototype.trim` treat as
      white space: the ECMAScript WhiteSpace and LineTerminator code points. */
  predicate IsSpace(c: char) {
    || c == ' ' || c == '\t' || c == '\n' || c == '\U{000B}' || c == '\U{000C}' || c == '\r'
    || c == '\U{00A0}' || c == '\U{1680}' || ('\U{2000}' <= c <= '\U{200A}')
    || c == '\U{2028}' || c == '\U{2029}' || c == '\U{202F}' || c == '\U{205F}'
    || c == '\U{3000}' || c == '\U{FEFF}'
  }

  predicate NoSpace(s: string) {
    forall i :: 0 <= i < |s| ==> !IsSpace(s[i])
  }

  lemma {:induction false} NoSpaceAppend(a: string, b: string)
    requires NoSpace(a) && NoSpace(b)
    ensures NoSpace(a + b)
  {
    forall i | 0 <= i < |a + b|
      ensures !IsSpace((a + b)[i])
    {
      if i < |a| {
        assert (a + b)[i] == a[i];
      } else {
        assert (a + b)[i] == b[i - |a|];
      }
    }
  }

  /** `s.replace(/\s/g, '')`: every white-space character removed. */
  function StripSpaces(s: string): (r: string)
    ensures |r| <= |s|
  {
    if |s| == 0 then ""
    else if IsSpace(s[0]) then StripSpaces(s[1..])
    else [s[0]] + StripSpaces(s[1..])
  }

  lemma {:induction false} StripSpacesAppend(a: string, b: string)
    ensures StripSpaces(a + b) == StripSpaces(a) + StripSpaces(b)
  {
    if |a| == 0 {
      assert a + b == b;
    } else {
      assert (a + b)[1..] == a[1..] + b;
      StripSpacesAppend(a[1..], b);
    }
  }

  lemma {:induction false} StripSpacesBlank(s: string)
    requires forall i :: 0 <= i < |s| ==> IsSpace(s[i])
    ensures StripSpaces(s) == ""
  {
    if |s| > 0 {
      StripSpacesBlank(s[1..]);
    }
  }

  lemma {:induction false} StripSpacesOfNoSpace(s: string)
    requires NoSpace(s)
    ensures StripSpaces(s) == s
  {
    if |s| > 0 {
      StripSpacesOfNoSpace(s[1..]);
    }
  }

  /** `s.trim()`: leading and trailing white space removed. */
  function TrimStart(s: string): (r: string)
    ensures |r| <= |s| && r == s[|s| - |r|..]
    ensures |r| > 0 ==> !IsSpace(r[0])
    ensures forall i :: 0 <= i < |s| - |r| ==> IsSpace(s[i])
  {
    if |s| > 0 && IsSpace(s[0]) then TrimStart(s[1..]) else s
  }

  function TrimEnd(s: string): (r: string)
    ensures |r| <= |s| && r == s[..|r|]
    ensures |r| > 0 ==> !IsSpace(r[|r| - 1])
    ensures forall i :: |r| <= i < |s| ==> IsSpace(s[i])
  {
    if |s| > 0 && IsSpace(s[|s| - 1]) then TrimEnd(s[..|s| - 1]) else s
  }

  function Trim(s: string): (r: string)
    ensures |r| > 0 ==> !IsSpace(r[0]) && !IsSpace(r[|r| - 1])
    ensures r == "" <==> forall i :: 0 <= i < |s| ==> IsSpace(s[i])
  {
    TrimBlank(s);
    TrimKeeps(s);
    TrimEnd(TrimStart(s))
  }

  /** Trimming leaves nothing exactly when the text is all white space. */
  lemma {:induction false} TrimBlank(s: string)
    ensures TrimEnd(TrimStart(s)) == "" <==> forall i :: 0 <= i < |s| ==> IsSpace(s[i])
  {
    var t := TrimStart(s);
    if forall i :: 0 <= i < |s| ==> IsSpace(s[i]) {
      TrimStartBlank(s);
    } else {
      var i :| 0 <= i < |s| && !IsSpace(s[i]);
      assert |t| > 0;
      assert !IsSpace(t[0]);
    }
  }

  lemma {:induction false} TrimStartBlank(s: string)
    requires forall i :: 0 <= i < |s| ==> IsSpace(s[i])
    ensures TrimStart(s) == ""
  {
    if |s| > 0 {
      TrimStartBlank(s[1..]);
    }
  }

  /** A trimmed text that is not empty starts with the first non-space character. */
  lemma {:induction false} TrimKeeps(s: string)
    ensures |TrimEnd(TrimStart(s))| > 0 ==> TrimEnd(TrimStart(s))[0] == TrimStart(s)[0]
  {
    var t := TrimStart(s);
    var r := TrimEnd(t);
    if |r| > 0 {
      assert r == t[..|r|];
    }
  }

  /** `s.replace(/c/g, '')`: every occurrence of `c` removed, the rest kept in order. */
  function RemoveAll(s: string, c: char): (r: string)
    ensures |r| <= |s|
  {
    if |s| == 0 then ""
    else if s[0] == c then RemoveAll(s[1..], c)
    else [s[0]] + RemoveAll(s[1..], c)
  }

  lemma {:induction false} RemoveAllAppend(a: string, b: string, c: char)
    ensures RemoveAll(a + b, c) == RemoveAll(a, c) + RemoveAll(b, c)
  {
    if |a| == 0 {
      assert a + b == b;
    } else {
      assert (a + b)[1..] == a[1..] + b;
      RemoveAllAppend(a[1..], b, c);
    }
  }

  lemma {:induction false} RemoveAllAbsent(s: string, c: char)
    requires c !in s
    ensures RemoveAll(s, c) == s
  {
    if |s| > 0 {
      RemoveAllAbsent(s[1..], c);
    }
  }

  /** `s.replace(a, b)` with a one-character string pattern: only the first `a` becomes `b`. */
  function ReplaceFirst(s: string, a: char, b: char): (r: string)
    ensures |r| == |s|
  {
    if |s| == 0 then ""
    else if s[0] == a then [b] + s[1..]
    else [s[0]] + ReplaceFirst(s[1..], a, b)
  }

  lemma {:induction false} ReplaceFirstAt(pre: string, a: char, b: char, post: string)
    requires a !in pre
    ensures ReplaceFirst(pre + [a] + post, a, b) == pre + [b] + post
  {
    if |pre| > 0 {
      assert (pre + [a] + post)[1..] == pre[1..] + [a] + post;
      ReplaceFirstAt(pre[1..], a, b, post);
    }
  }

  /** `s.lastIndexOf(c)`: the position of the last `c`, or -1 when there is none. */
  function LastIndex(s: string, c: char): (r: int)
    ensures -1 <= r < |s|
  {
    if |s| == 0 then -1
    else if s[|s| - 1] == c then |s| - 1
    else LastIndex(s[..|s| - 1], c)
  }

  lemma {:induction false} LastIndexAt(pre: string, c: char, post: string)
    requires c !in post
    ensures LastIndex(pre + [c] + post, c) == |pre|
  {
    var s := pre + [c] + post;
    if |post| > 0 {
      assert s[..|s| - 1] == pre + [c] + post[..|post| - 1];
      assert s[|s| - 1] == post[|post| - 1];
      LastIndexAt(pre, c, post[..|post| - 1]);
    }
  }

  lemma {:induction false} LastIndexBefore(pre: string, c: char, d: char, post: string)
    requires d != c && d !in post
    ensures LastIndex(pre + [c] + post, d) < |pre|
  {
    var s := pre + [c] + post;
    if |post| > 0 {
      assert s[..|s| - 1] == pre + [c] + post[..|post| - 1];
      assert s[|s| - 1] == post[|post| - 1];
      LastIndexBefore(pre, c, d, post[..|post| - 1]);
    } else {
      assert s[..|s| - 1] == pre;
    }
  }

  /** `s.indexOf(c)`: the position of the first `c`, or `|s|` when there is none. */
  function IndexOf(s: string, c: char): (r: nat)
    ensures r <= |s|
    ensures r < |s| ==> s[r] == c
  {
    if |s| == 0 then 0
    else if s[0] == c then 0
    else IndexOf(s[1..], c) + 1
  }

  lemma {:induction false} IndexOfAbsent(s: string, c: char)
    requires c !in s
    ensures IndexOf(s, c) == |s|
  {
    if |s| > 0 {
      IndexOfAbsent(s[1..], c);
    }
  }

  lemma {:induction false} IndexOfAt(pre: string, c: char, rest: string)
    requires c !in pre && |rest| > 0 && rest[0] == c
    ensures IndexOf(pre + rest, c) == |pre|
  {
    if |pre| > 0 {
      assert (pre + rest)[1..] == pre[1..] + rest;
      IndexOfAt(pre[1..], c, rest);
    }
  }

  /** The number of occurrences of `c` in `s`. */
  function Count(s: string, c: char): (r: nat)
    ensures r <= |s|
  {
    if |s| == 0 then 0
    else (if s[0] == c then 1 else 0) + Count(s[1..], c)
  }

  lemma {:induction false} CountAbsent(s: string, c: char)
    ensures Count(s, c) == 0 <==> c !in s
  {
    if |s| > 0 {
      CountAbsent(s[1..], c);
      assert c in s <==> s[0] == c || c in s[1..];
    }
  }

  lemma {:induction false} CountAppend(a: string, b: string, c: char)
    ensures Count(a + b, c) == Count(a, c) + Count(b, c)
  {
    if |a| == 0 {
      assert a + b == b;
    } else {
      assert (a + b)[1..] == a[1..] + b;
      CountAppend(a[1..], b, c);
    }
  }

  /** ASCII lower-casing of one character. */
  function LowerChar(c: char): (r: char)
    ensures 'A' <= c <= 'Z' ==> 'a' <= r <= 'z'
    ensures !('A' <= c <= 'Z') ==> r == c
  {
    if 'A' <= c <= 'Z' then (c as int - 'A' as int + 'a' as int) as char else c
  }

  /** `s.toLowerCase()` restricted to the ASCII letters. */
  function Lower(s: string): (r: string)
    ensures |r| == |s|
    ensures forall i :: 0 <= i < |s| ==> r[i] == LowerChar(s[i])
  {
    if |s| == 0 then "" else [LowerChar(s[0])] + Lower(s[1..])
  }

  /** `needle` occurs in `hay` at position `i`. */
  predicate OccursAt(hay: string, needle: string, i: int) {
    0 <= i && i + |needle| <= |hay| && hay[i..i + |needle|] == needle
  }

  /** `hay.includes(needle)`. */
  function Contains(hay: string, needle: string): (r: bool)
    ensures r <==> exists i :: OccursAt(hay, needle, i)
    decreases |hay|
  {
    if |needle| <= |hay| && hay[..|needle|] == needle then
      assert OccursAt(hay, needle, 0);
      true
    else if |hay| == 0 then
      assert forall i :: !OccursAt(hay, needle, i);
      false
    else
      var r := Contains(hay[1..], needle);
      assert !OccursAt(hay, needle, 0);
      assert r ==> exists i :: OccursAt(hay, needle, i) by {
        if r {
          var i :| OccursAt(hay[1..], needle, i);
          OccursShift(hay, needle, i);
        }
      }
      assert (exists i :: OccursAt(hay, needle, i)) ==> r by {
        if exists i :: OccursAt(hay, needle, i) {
          var i :| OccursAt(hay, needle, i);
          OccursShift(hay, needle, i - 1);
        }
      }
      r
  }

  lemma {:induction false} OccursShift(hay: string, needle: string, i: int)
    requires |hay| > 0 && i >= 0
    ensures OccursAt(hay[1..], needle, i) <==> OccursAt(hay, needle, i + 1)
  {
    if 0 <= i && i + |needle| <= |hay| - 1 {
      assert hay[1..][i..i + |needle|] == hay[i + 1..i + 1 + |needle|];
    }
  }

  predicate IsDigit(c: char) {
    '0' <= c <= '9'
  }

  predicate AllDigits(s: string) {
    forall i :: 0 <= i < |s| ==> IsDigit(s[i])
  }

  lemma {:induction false} DigitsNoSpace(s: string)
    requires AllDigits(s)
    ensures NoSpace(s)
  {
    forall i | 0 <= i < |s|
      ensures !IsSpace(s[i])
    {
      assert IsDigit(s[i]);
    }
  }

  /** Concatenation regrouped to the right. */
  lemma {:induction false} Regroup(a: string, b: string, c: string, d: string)
    ensures a + b + c + d == a + (b + (c + d))
  {
  }

  /** A digit string holds neither separator. */
  lemma {:induction false} DigitsNoSeparator(s: string)
    requires AllDigits(s)
    ensures '.' !in s && ',' !in s
  {
    forall i | 0 <= i < |s|
      ensures s[i] != '.' && s[i] != ','
    {
      assert IsDigit(s[i]);
    }
  }

  /** The value of a decimal digit; other characters count as 0. */
  function DigitValue(c: char): (r: nat)
    ensures r < 10
  {
    if IsDigit(c) then c as int - '0' as int else 0
  }

  function DigitChar(d: nat): (r: char)
    requires d < 10
    ensures IsDigit(r) && DigitValue(r) == d
  {
    ('0' as int + d) as char
  }

  /** The value of a string of decimal digits, read most significant first. */
  function DigitsValue(s: string): (r: nat) {
    if |s| == 0 then 0
    else DigitsValue(s[..|s| - 1]) * 10 + DigitValue(s[|s| - 1])
  }

  function Pow10(n: nat): (r: nat)
    ensures r >= 1
  {
    if n == 0 then 1 else 10 * Pow10(n - 1)
  }

  lemma {:induction false} DigitsValueAppend(a: string, b: string)
    ensures AllDigits(a) && AllDigits(b) ==> AllDigits(a + b)
    ensures DigitsValue(a + b) == DigitsValue(a) * Pow10(|b|) + DigitsValue(b)
  {
    if |b| == 0 {
      assert a + b == a;
    } else {
      var b' := b[..|b| - 1];
      var d := DigitValue(b[|b| - 1]);
      assert (a + b)[..|a + b| - 1] == a + b';
      assert (a + b)[|a + b| - 1] == b[|b| - 1];
      DigitsValueAppend(a, b');
      var x, y, p := DigitsValue(a), DigitsValue(b'), Pow10(|b'|);
      assert DigitsValue(a + b) == (x * p + y) * 10 + d;
      assert DigitsValue(b) == y * 10 + d;
      assert Pow10(|b|) == p * 10;
      ShiftDigit(x, p, y, d);
    }
  }

  lemma {:induction false} ShiftDigit(x: int, p: int, y: int, d: int)
    ensures (x * p + y) * 10 + d == x * (p * 10) + (y * 10 + d)
  {
  }

  /** The shortest decimal representation of `n` (`String(n)`). */
  function NatToDigits(n: nat): (r: string)
    ensures |r| >= 1 && AllDigits(r)
    ensures DigitsValue(r) == n
    ensures n < 10 <==> |r| == 1
  {
    if n < 10 then
      var r := [DigitChar(n)];
      assert r[..0] == [];
      r
    else
      var r := NatToDigits(n / 10) + [DigitChar(n % 10)];
      assert r[..|r| - 1] == NatToDigits(n / 10);
      assert AllDigits(r);
      assert DigitsValue(r) == (n / 10) * 10 + n % 10;
      assert |r| >= 2;
      assert DigitsValue(r) == n;
      r
  }

  /** `String(n).padStart(2, '0')` for `n` below 100. */
  function Pad2(n: nat): (r: string)
    requires n < 100
    ensures |r| == 2 && AllDigits(r)
    ensures DigitsValue(r) == n
  {
    var r := [DigitChar(n / 10), DigitChar(n % 10)];
    var h := r[..1];
    assert h[..0] == [];
    assert DigitsValue(h) == n / 10;
    assert DigitsValue(r) == (n / 10) * 10 + n % 10;
    r
  }

  /** `gs.join(sep)` for a one-character separator; `[]` joins to the empty string. */
  function JoinWith(gs: seq<string>, sep: char): string {
    if |gs| == 0 then ""
    else if |gs| == 1 then gs[0]
    else gs[0] + [sep] + JoinWith(gs[1..], sep)
  }

  /** All the strings of `gs`, one after the other (`gs.join('')`). */
  function Concat(gs: seq<string>): string {
    if |gs| == 0 then "" else gs[0] + Concat(gs[1..])
  }

  /** Every element of `gs` is a (possibly empty) string of decimal digits. */
  predicate AllDigitGroups(gs: seq<string>) {
    forall i :: 0 <= i < |gs| ==> AllDigits(gs[i])
  }

  lemma {:induction false} ConcatDigits(gs: seq<string>)
    requires AllDigitGroups(gs)
    ensures AllDigits(Concat(gs))
  {
    if |gs| > 0 {
      ConcatDigits(gs[1..]);
      DigitsValueAppend(gs[0], Concat(gs[1..]));
    }
  }

  /** A joined list of digit groups consists of digits and separators only. */
  lemma {:induction false} JoinWithChars(gs: seq<string>, sep: char)
    requires AllDigitGroups(gs)
    ensures forall i :: 0 <= i < |JoinWith(gs, sep)| ==> IsDigit(JoinWith(gs, sep)[i]) || JoinWith(gs, sep)[i] == sep
  {
    if |gs| > 1 {
      JoinWithChars(gs[1..], sep);
    }
  }

  lemma {:induction false} JoinWithRemove(gs: seq<string>, sep: char)
    requires AllDigitGroups(gs) && !IsDigit(sep)
    ensures RemoveAll(JoinWith(gs, sep), sep) == Concat(gs)
  {
    if |gs| == 1 {
      assert Concat(gs) == gs[0] + "";
      RemoveAllAbsent(gs[0], sep);
    } else if |gs| > 1 {
      RemoveAllAppend(gs[0] + [sep], JoinWith(gs[1..], sep), sep);
      RemoveAllAppend(gs[0], [sep], sep);
      RemoveAllAbsent(gs[0], sep);
      JoinWithRemove(gs[1..], sep);
    }
  }

  /** Joining one more string adds a separator and that string at the end. */
  lemma {:induction false} JoinWithSnoc(gs: seq<string>, g: string, sep: char)
    requires |gs| > 0
    ensures JoinWith(gs + [g], sep) == JoinWith(gs, sep) + [sep] + g
  {
    if |gs| > 1 {
      assert (gs + [g])[1..] == gs[1..] + [g];
      JoinWithSnoc(gs[1..], g, sep);
    } else {
      assert (gs + [g])[1..] == [g];
    }
  }

  /** Concatenating one more string appends it. */
  lemma {:induction false} ConcatSnoc(gs: seq<string>, g: string)
    ensures Concat(gs + [g]) == Concat(gs) + g
  {
    if |gs| == 0 {
      assert gs + [g] == [g];
      assert Concat([g][1..]) == "";
    } else {
      assert (gs + [g])[1..] == gs[1..] + [g];
      ConcatSnoc(gs[1..], g);
    }
  }

  lemma {:induction false} JoinWithCount(gs: seq<string>, sep: char)
    requires |gs| >= 1 && AllDigitGroups(gs) && !IsDigit(sep)
    ensures Count(JoinWith(gs, sep), sep) == |gs| - 1
  {
    assert sep !in gs[0];
    CountAbsent(gs[0], sep);
    if |gs| > 1 {
      CountAppend(gs[0] + [sep], JoinWith(gs[1..], sep), sep);
      CountAppend(gs[0], [sep], sep);
      JoinWithCount(gs[1..], sep);
    }
  }

  lemma {:induction false} CountRemoveOther(s: string, c: char, d: char)
    requires c != d
    ensures Count(RemoveAll(s, d), c) == Count(s, c)
  {
    if |s| > 0 {
      CountRemoveOther(s[1..], c, d);
    }
  }

  lemma {:induction false} CountReplaceFirst(s: string, a: char, b: char)
    requires a != b && a in s
    ensures Count(ReplaceFirst(s, a, b), a) == Count(s, a) - 1
  {
    if s[0] != a {
      assert a in s[1..] by {
        var i :| 0 <= i < |s| && s[i] == a;
        assert s[1..][i - 1] == a;
      }
      CountReplaceFirst(s[1..], a, b);
    } else {
      assert ([b] + s[1..])[1..] == s[1..];
    }
  }
}
