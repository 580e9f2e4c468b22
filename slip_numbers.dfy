/** Slip numbering (`generateSlipNumber` in the backend): a slip number is
    `"PS" + year + MM + DD + sequence`, where the sequence follows the
    lexicographically greatest existing number that starts with today's
    prefix. The store query is modelled by `LastWithPrefix`; the string
    building, including JavaScript's `String`, `padStart`, `slice(-3)` and
    `parseInt`, by the functions below. */
module SlipNumbers {
  import opened Records

  // ---------------------------------------------------------------------
  // Decimal digits and JavaScript's number-to-string conversions

  predicate IsDigit(c: char)
  {
    '0' <= c <= '9'
  }

  function DigitValue(c: char): (d: nat)
    requires IsDigit(c)
    ensures d < 10
  {
    c as int - '0' as int
  }

  function DigitChar(d: nat): (c: char)
    requires d < 10
    ensures IsDigit(c) && DigitValue(c) == d
  {
    ('0' as int + d) as char
  }

  /** `String(n)` for a non-negative integer. */
  function NatToString(n: nat): (s: string)
    ensures 1 <= |s|
    ensures forall i :: 0 <= i < |s| ==> IsDigit(s[i])
    ensures n < 10 <==> |s| == 1
    decreases n
  {
    if n < 10 then [DigitChar(n)] else NatToString(n / 10) + [DigitChar(n % 10)]
  }

  /** `String(n)` for any integer; `parseInt` reads the number back. */
  function IntToString(n: int): (s: string)
    ensures n >= 0 ==> s == NatToString(n)
    ensures n < 0 ==> s == "-" + NatToString(-n)
    ensures ParseInt(s) == Some(n)
  {
    if n < 0 then
      var s := "-" + NatToString(-n);
      ParseMagnitudeOfNatString(-n);
      assert s[1..] == NatToString(-n);
      s
    else
      ParseMagnitudeOfNatString(n);
      NatToString(n)
  }

  /** `s.padStart(width, fill)` with a one-character fill. */
  function PadStart(s: string, width: nat, fill: char): (r: string)
    ensures |r| == if |s| < width then width else |s|
    ensures r[|r| - |s|..] == s
    ensures forall i :: 0 <= i < |r| - |s| ==> r[i] == fill
  {
    if |s| >= width then s
    else
      var r := seq(width - |s|, _ => fill) + s;
      assert r[|r| - |s|..] == s;
      r
  }

  // ---------------------------------------------------------------------
  // `parseInt(s)` with no radix: leading white space, an optional sign,
  // an optional `0x` prefix, then the longest run of digits; no digit at
  // all gives NaN (`None`).

  predicate IsSpace(c: char)
  {
    c == ' ' || c == '\t' || c == '\n' || c == '\r' || c as int == 11 || c as int == 12
  }

  predicate IsHexDigit(c: char)
  {
    IsDigit(c) || 'a' <= c <= 'f' || 'A' <= c <= 'F'
  }

  function HexDigitValue(c: char): (d: nat)
    requires IsHexDigit(c)
    ensures d < 16
  {
    if IsDigit(c) then DigitValue(c)
    else if 'a' <= c <= 'f' then c as int - 'a' as int + 10
    else c as int - 'A' as int + 10
  }

  /** The longest prefix of `s` whose characters satisfy `digit`. */
  function LeadingRun(s: string, digit: char -> bool): (d: string)
    ensures |d| <= |s| && d == s[..|d|]
    ensures forall i :: 0 <= i < |d| ==> digit(d[i])
    ensures |d| < |s| ==> !digit(s[|d|])
  {
    if s == [] || !digit(s[0]) then []
    else [s[0]] + LeadingRun(s[1..], digit)
  }

  /** The value of a digit string in base `radix`, most significant first. */
  function RunValue(ds: string, radix: nat): nat
    requires radix == 10 || radix == 16
    requires forall i :: 0 <= i < |ds| ==> IsHexDigit(ds[i])
  {
    if ds == [] then 0
    else RunValue(ds[..|ds| - 1], radix) * radix + HexDigitValue(ds[|ds| - 1])
  }

  function ParseMagnitude(s: string): (r: Option<nat>)
    ensures (forall i :: 0 <= i < |s| ==> !IsDigit(s[i])) ==> r.None?
  {
    if 2 <= |s| && s[0] == '0' && (s[1] == 'x' || s[1] == 'X') then
      var hs := LeadingRun(s[2..], IsHexDigit);
      if hs == [] then None else Some(RunValue(hs, 16))
    else
      var ds := LeadingRun(s, IsDigit);
      if ds == [] then None else Some(RunValue(ds, 10))
  }

  /** A string without a decimal digit is NaN. */
  function ParseInt(s: string): (r: Option<int>)
    ensures (forall i :: 0 <= i < |s| ==> !IsDigit(s[i])) ==> r.None?
  {
    assert forall i :: 1 <= i < |s| ==> s[1..][i - 1] == s[i];
    if s != [] && IsSpace(s[0]) then ParseInt(s[1..])
    else if s != [] && (s[0] == '-' || s[0] == '+') then
      match ParseMagnitude(s[1..])
      case None => None
      case Some(m) =>
        var v: int := if s[0] == '-' then -(m as int) else m;
        Some(v)
    else
      match ParseMagnitude(s)
      case None => None
      case Some(m) => Some(m)
  }

  // ---------------------------------------------------------------------
  // Building the number

  predicate HasPrefix(s: string, p: string)
  {
    |p| <= |s| && s[..|p|] == p
  }

  /** `PS${year}${month}${day}`, with month and day zero-padded to two
      digits: "PS" and then only digits, six more than the year has. Which
      digits they are is stated by `DatePrefixDigits`. */
  function DatePrefix(d: Date): (r: string)
    ensures HasPrefix(r, "PS")
    ensures forall i :: 2 <= i < |r| ==> IsDigit(r[i])
    ensures d.month < 100 && d.day < 100 ==> |r| == |NatToString(d.year)| + 6
  {
    var y, m, dd := NatToString(d.year), PadStart(NatToString(d.month), 2, '0'),
                    PadStart(NatToString(d.day), 2, '0');
    PadStartDigits(NatToString(d.month), 2);
    PadStartDigits(NatToString(d.day), 2);
    DigitsConcat(y, m);
    DigitsConcat(y + m, dd);
    var digits := y + m + dd;
    var r := "PS" + digits;
    assert forall i :: 2 <= i < |r| ==> r[i] == digits[i - 2];
    assert r[..2] == "PS";
    r
  }

  /** For a month and day below 100 the prefix is "PS", the decimal digits
      of the year, the tens and units digits of the month, and the tens and
      units digits of the day. */
  lemma DatePrefixDigits(d: Date)
    ensures d.month < 100 && d.day < 100 ==>
              DatePrefix(d) == "PS" + NatToString(d.year) +
                               [DigitChar(d.month / 10), DigitChar(d.month % 10),
                                DigitChar(d.day / 10), DigitChar(d.day % 10)]
  {
    if d.month < 100 && d.day < 100 {
      var y, m, dd := NatToString(d.year), PadStart(NatToString(d.month), 2, '0'),
                      PadStart(NatToString(d.day), 2, '0');
      assert DatePrefix(d) == "PS" + (y + m + dd);
      Pad2Digits(d.month);
      Pad2Digits(d.day);
      Concat4("PS", y, m, dd);
    }
  }

  /** 5 January 2024 gives "PS20240105". */
  lemma DatePrefixExample()
    ensures DatePrefix(Date(2024, 1, 5)) == "PS20240105"
  {
    DatePrefixDigits(Date(2024, 1, 5));
    assert NatToString(2024) == "2024" by {
      assert NatToString(2) == "2";
      assert NatToString(20) == "20";
      assert NatToString(202) == "202";
    }
  }

  lemma Concat4(p: string, y: string, m: string, dd: string)
    requires |m| == 2 && |dd| == 2
    ensures p + (y + m + dd) == p + y + [m[0], m[1], dd[0], dd[1]]
  {
    assert m + dd == [m[0], m[1], dd[0], dd[1]];
  }

  lemma DigitsConcat(a: string, b: string)
    requires forall i :: 0 <= i < |a| ==> IsDigit(a[i])
    requires forall i :: 0 <= i < |b| ==> IsDigit(b[i])
    ensures forall i :: 0 <= i < |a + b| ==> IsDigit((a + b)[i])
  {
  }

  /** Zero-padding a digit string gives a digit string. */
  lemma PadStartDigits(s: string, width: nat)
    requires forall i :: 0 <= i < |s| ==> IsDigit(s[i])
    ensures forall i :: 0 <= i < |PadStart(s, width, '0')| ==> IsDigit(PadStart(s, width, '0')[i])
  {
    var r := PadStart(s, width, '0');
    forall i | 0 <= i < |r| ensures IsDigit(r[i]) {
      if i >= |r| - |s| {
        assert r[i] == r[|r| - |s|..][i - (|r| - |s|)];
      }
    }
  }

  /** `slice(-3)`: the last three characters, or all of a shorter string. */
  function SliceLast3(s: string): (r: string)
    ensures |r| == if |s| >= 3 then 3 else |s|
    ensures s == s[..|s| - |r|] + r
  {
    if |s| >= 3 then s[|s| - 3..] else s
  }

  /** `String(parseInt(last.slice(-3)) + 1).padStart(3, '0')`; NaN prints as "NaN". */
  function SequenceAfter(last: string): (r: string)
    ensures 3 <= |r|
  {
    match ParseInt(SliceLast3(last))
    case None => "NaN"
    case Some(n) => PadStart(IntToString(n + 1), 3, '0')
  }

  /** The sequence part: "001" when no number has today's prefix. */
  function NextSequence(last: Option<string>): (r: string)
    ensures 3 <= |r|
    ensures last.None? ==> r == "001"
  {
    if last.None? then "001" else SequenceAfter(last.value)
  }

  /** The number `generateSlipNumber` returns, given the greatest existing
      number with today's prefix (`None` when there is none). */
  function NextSlipNumber(today: Date, last: Option<string>): (r: string)
    ensures HasPrefix(r, DatePrefix(today))
    ensures |DatePrefix(today)| + 3 <= |r|
    ensures last.None? ==> r == DatePrefix(today) + "001"
  {
    var r := DatePrefix(today) + NextSequence(last);
    assert r[..|DatePrefix(today)|] == DatePrefix(today);
    r
  }

  /** The three-digit sequence for a count `k`: what
      `String(k).padStart(3, '0')` gives (`Seq3Digits`). */
  function Seq3(k: nat): (r: string)
    requires k < 1000
    ensures |r| == 3
  {
    [DigitChar(k / 100), DigitChar(k / 10 % 10), DigitChar(k % 10)]
  }

  // ---------------------------------------------------------------------
  // Lexicographic order: how the store sorts `slipNumber` descending

  predicate LexLe(a: string, b: string)
  {
    a == [] || (b != [] && (a[0] < b[0] || (a[0] == b[0] && LexLe(a[1..], b[1..]))))
  }

  lemma LexLeReflexive(a: string)
    ensures LexLe(a, a)
  {
  }

  lemma LexLeTotal(a: string, b: string)
    ensures LexLe(a, b) || LexLe(b, a)
  {
  }

  lemma LexLeTransitive(a: string, b: string, c: string)
    requires LexLe(a, b) && LexLe(b, c)
    ensures LexLe(a, c)
  {
  }

  lemma LexLeAntisymmetric(a: string, b: string)
    requires LexLe(a, b) && LexLe(b, a)
    ensures a == b
  {
    if a != [] && b != [] {
      LexLeAntisymmetric(a[1..], b[1..]);
      assert a == [a[0]] + a[1..] && b == [b[0]] + b[1..];
    }
  }

  /** A common prefix does not change the order. */
  lemma {:induction false} LexLeCommonPrefix(p: string, a: string, b: string)
    ensures LexLe(p + a, p + b) <==> LexLe(a, b)
  {
    if p != [] {
      assert (p + a)[0] == p[0] == (p + b)[0];
      assert (p + a)[1..] == p[1..] + a;
      assert (p + b)[1..] == p[1..] + b;
      assert LexLe(p + a, p + b) == LexLe(p[1..] + a, p[1..] + b);
      LexLeCommonPrefix(p[1..], a, b);
    } else {
      assert p + a == a && p + b == b;
    }
  }

  // ---------------------------------------------------------------------
  // The query: the greatest number carrying today's prefix

  ghost predicate IsLastWithPrefix(nums: set<string>, p: string, last: Option<string>)
  {
    match last
    case None => forall s :: s in nums ==> !HasPrefix(s, p)
    case Some(m) =>
      m in nums && HasPrefix(m, p) && forall s :: s in nums && HasPrefix(s, p) ==> LexLe(s, m)
  }

  lemma {:induction false} LastExists(nums: set<string>, p: string)
    ensures exists last :: IsLastWithPrefix(nums, p, last)
    decreases |nums|
  {
    if nums == {} {
      assert IsLastWithPrefix(nums, p, None);
    } else {
      var x :| x in nums;
      var rest := nums - {x};
      LastExists(rest, p);
      var l :| IsLastWithPrefix(rest, p, l);
      if !HasPrefix(x, p) {
        assert IsLastWithPrefix(nums, p, l);
      } else if l.None? {
        forall s | s in nums && HasPrefix(s, p) ensures LexLe(s, x) {
          assert s == x;
          LexLeReflexive(x);
        }
        assert IsLastWithPrefix(nums, p, Some(x));
      } else if LexLe(l.value, x) {
        forall s | s in nums && HasPrefix(s, p) ensures LexLe(s, x) {
          if s == x { LexLeReflexive(x); } else { LexLeTransitive(s, l.value, x); }
        }
        assert IsLastWithPrefix(nums, p, Some(x));
      } else {
        LexLeTotal(l.value, x);
        assert IsLastWithPrefix(nums, p, l);
      }
    }
  }

  lemma LastUnique(nums: set<string>, p: string, a: Option<string>, b: Option<string>)
    requires IsLastWithPrefix(nums, p, a) && IsLastWithPrefix(nums, p, b)
    ensures a == b
  {
    if a.Some? && b.Some? {
      LexLeAntisymmetric(a.value, b.value);
    }
  }

  /** The result of `findOne({slipNumber: /^prefix/}).sort({slipNumber: -1})`. */
  ghost function LastWithPrefix(nums: set<string>, p: string): (r: Option<string>)
    ensures IsLastWithPrefix(nums, p, r)
  {
    LastExists(nums, p);
    var r :| IsLastWithPrefix(nums, p, r);
    r
  }

  // ---------------------------------------------------------------------
  // Properties of the numbering

  lemma NatToStringTwoDigits(k: nat)
    requires 10 <= k < 100
    ensures NatToString(k) == [DigitChar(k / 10), DigitChar(k % 10)]
  {
    assert NatToString(k / 10) == [DigitChar(k / 10)];
  }

  /** `String(n).padStart(2, '0')` is the tens and units digits of `n`. */
  lemma Pad2Digits(n: nat)
    ensures n < 100 ==> PadStart(NatToString(n), 2, '0') == [DigitChar(n / 10), DigitChar(n % 10)]
  {
    if n < 10 {
      assert NatToString(n) == [DigitChar(n)];
      assert n / 10 == 0 && n % 10 == n;
    } else if n < 100 {
      NatToStringTwoDigits(n);
    }
  }

  /** Distinct dates (month and day below 100) have distinct prefixes, so a
      slip number's prefix tells its date. */
  lemma DatePrefixInjective(d1: Date, d2: Date)
    requires d1.month < 100 && d1.day < 100 && d2.month < 100 && d2.day < 100
    requires DatePrefix(d1) == DatePrefix(d2)
    ensures d1 == d2
  {
    DatePrefixDigits(d1);
    DatePrefixDigits(d2);
    var r := DatePrefix(d1);
    var y1, y2 := NatToString(d1.year), NatToString(d2.year);
    assert |y1| == |y2|;
    assert r[2..|r| - 4] == y1 && r[2..|r| - 4] == y2;
    RunValueOfNatString(d1.year);
    RunValueOfNatString(d2.year);
    assert DigitValue(r[|r| - 4]) == d1.month / 10 == d2.month / 10;
    assert DigitValue(r[|r| - 3]) == d1.month % 10 == d2.month % 10;
    assert DigitValue(r[|r| - 2]) == d1.day / 10 == d2.day / 10;
    assert DigitValue(r[|r| - 1]) == d1.day % 10 == d2.day % 10;
  }

  lemma NatToStringThreeDigits(k: nat)
    requires 100 <= k < 1000
    ensures NatToString(k) == [DigitChar(k / 100), DigitChar(k / 10 % 10), DigitChar(k % 10)]
  {
    var h := k / 10;
    assert 10 <= h < 100 && h / 10 == k / 100 && h % 10 == k / 10 % 10;
    NatToStringTwoDigits(h);
  }

  lemma Seq3Digits(k: nat)
    requires k < 1000
    ensures PadStart(NatToString(k), 3, '0') == Seq3(k)
  {
    if k < 10 {
      assert NatToString(k) == [DigitChar(k)];
      assert k / 100 == 0 && k / 10 % 10 == 0 && k % 10 == k;
    } else if k < 100 {
      NatToStringTwoDigits(k);
      assert k / 100 == 0 && k / 10 % 10 == k / 10;
    } else {
      NatToStringThreeDigits(k);
    }
  }

  /** The value of three decimal digits. */
  lemma RunValue3(s: string)
    requires |s| == 3 && IsDigit(s[0]) && IsDigit(s[1]) && IsDigit(s[2])
    ensures RunValue(s, 10) == (DigitValue(s[0]) * 10 + DigitValue(s[1])) * 10 + DigitValue(s[2])
  {
    assert s[..2][..1] == s[..1];
    assert s[..1][..0] == [];
    assert RunValue(s[..1], 10) == DigitValue(s[0]);
    assert RunValue(s[..2], 10) == DigitValue(s[0]) * 10 + DigitValue(s[1]);
  }

  lemma Decompose(k: nat)
    requires k < 1000
    ensures k == k / 100 * 100 + k / 10 % 10 * 10 + k % 10
    ensures k / 100 < 10 && k / 10 % 10 < 10
  {
  }

  /** The digits of `n`, read most significant first, are worth `n`. */
  lemma {:induction false} RunValueOfNatString(n: nat)
    ensures RunValue(NatToString(n), 10) == n
    decreases n
  {
    var s := NatToString(n);
    if n < 10 {
      assert s[..0] == [];
    } else {
      RunValueOfNatString(n / 10);
      assert s[..|s| - 1] == NatToString(n / 10);
      assert s[|s| - 1] == DigitChar(n % 10);
    }
  }

  /** The digit run of `String(n)` is the whole string and is worth `n`. */
  lemma ParseMagnitudeOfNatString(n: nat)
    ensures ParseMagnitude(NatToString(n)) == Some(n)
  {
    var s := NatToString(n);
    var ds := LeadingRun(s, IsDigit);
    assert |ds| == |s|;
    assert ds == s;
    RunValueOfNatString(n);
  }

  lemma ParseSeq3(k: nat)
    requires k < 1000
    ensures ParseInt(Seq3(k)) == Some(k)
  {
    Decompose(k);
    var s := Seq3(k);
    assert !IsSpace(s[0]) && s[0] != '-' && s[0] != '+' && s[1] != 'x' && s[1] != 'X';
    assert LeadingRun(s[2..], IsDigit) == s[2..];
    assert LeadingRun(s[1..], IsDigit) == s[1..];
    assert LeadingRun(s, IsDigit) == s;
    RunValue3(s);
  }

  /** Three-digit order: the digits of the smaller number come first. */
  lemma DigitsOrder(a2: nat, a1: nat, a0: nat, b2: nat, b1: nat, b0: nat)
    requires a2 < 10 && a1 < 10 && a0 < 10 && b2 < 10 && b1 < 10 && b0 < 10
    requires a2 * 100 + a1 * 10 + a0 < b2 * 100 + b1 * 10 + b0
    ensures a2 < b2 || (a2 == b2 && (a1 < b1 || (a1 == b1 && a0 < b0)))
  {
  }

  lemma DigitCharOrder(x: nat, y: nat)
    requires x < 10 && y < 10
    ensures x < y <==> DigitChar(x) < DigitChar(y)
    ensures x == y <==> DigitChar(x) == DigitChar(y)
  {
  }

  lemma Seq3Increasing(a: nat, b: nat)
    requires a < b < 1000
    ensures LexLe(Seq3(a), Seq3(b)) && Seq3(a) != Seq3(b)
  {
    Decompose(a);
    Decompose(b);
    var a2, a1, a0 := a / 100, a / 10 % 10, a % 10;
    var b2, b1, b0 := b / 100, b / 10 % 10, b % 10;
    DigitsOrder(a2, a1, a0, b2, b1, b0);
    DigitCharOrder(a2, b2);
    DigitCharOrder(a1, b1);
    DigitCharOrder(a0, b0);
    var x, y := Seq3(a), Seq3(b);
    assert x[1..][1..] == [x[2]] && y[1..][1..] == [y[2]];
    assert x[1..][0] == x[1] && y[1..][0] == y[1];
  }

  /** The sequence that follows a number ending in a three-digit count. */
  lemma SequenceAfterCount(p: string, k: nat)
    requires k < 1000
    ensures SequenceAfter(p + Seq3(k)) == PadStart(NatToString(k + 1), 3, '0')
  {
    assert SliceLast3(p + Seq3(k)) == Seq3(k);
    ParseSeq3(k);
  }

  /** When today's numbers are exactly p+001 .. p+k, the greatest is p+k. */
  lemma CountIsLast(nums: set<string>, p: string, k: nat)
    requires 1 <= k < 1000
    requires forall s :: s in nums && HasPrefix(s, p) ==> exists i :: 1 <= i <= k && s == p + Seq3(i)
    requires p + Seq3(k) in nums
    ensures LastWithPrefix(nums, p) == Some(p + Seq3(k))
  {
    var m := p + Seq3(k);
    assert m[..|p|] == p;
    forall s | s in nums && HasPrefix(s, p) ensures LexLe(s, m) {
      var i :| 1 <= i <= k && s == p + Seq3(i);
      if i < k { Seq3Increasing(i, k); } else { LexLeReflexive(Seq3(k)); }
      LexLeCommonPrefix(p, Seq3(i), Seq3(k));
    }
    LastUnique(nums, p, LastWithPrefix(nums, p), Some(m));
  }

  lemma {:induction false} CountSuccessorIsFresh(nums: set<string>, p: string, k: nat)
    requires k < 999
    requires forall s :: s in nums && HasPrefix(s, p) ==> exists i :: 1 <= i <= k && s == p + Seq3(i)
    requires 1 <= k ==> p + Seq3(k) in nums
    ensures NextSequence(LastWithPrefix(nums, p)) == Seq3(k + 1)
    ensures p + Seq3(k + 1) !in nums
  {
    Seq3Digits(k + 1);
    if k == 0 {
      assert LastWithPrefix(nums, p) == None;
      assert Seq3(1) == "001";
    } else {
      CountIsLast(nums, p, k);
      SequenceAfterCount(p, k);
    }
    var next := p + Seq3(k + 1);
    assert next[..|p|] == p;
    if next in nums {
      var i :| 1 <= i <= k && next == p + Seq3(i);
      assert next[|p|..] == Seq3(k + 1) && next[|p|..] == Seq3(i);
      Seq3Increasing(i, k + 1);
    }
  }

  /** After `k < 999` slips today numbered 001..k, the next number is today's
      prefix followed by k+1 in three digits, and no existing slip has it. */
  lemma DailySequenceContinues(nums: set<string>, today: Date, k: nat)
    requires k < 999
    requires forall s :: s in nums && HasPrefix(s, DatePrefix(today)) ==>
               exists i :: 1 <= i <= k && s == DatePrefix(today) + Seq3(i)
    requires 1 <= k ==> DatePrefix(today) + Seq3(k) in nums
    ensures NextSlipNumber(today, LastWithPrefix(nums, DatePrefix(today))) == DatePrefix(today) + Seq3(k + 1)
    ensures DatePrefix(today) + Seq3(k + 1) !in nums
  {
    CountSuccessorIsFresh(nums, DatePrefix(today), k);
  }

  lemma NatToString1000()
    ensures PadStart(NatToString(1000), 3, '0') == "1000"
  {
    assert NatToString(10) == "1" + ['0'];
    assert NatToString(100) == NatToString(10) + ['0'];
    assert NatToString(1000) == NatToString(100) + ['0'];
  }

  lemma {:induction false} RepeatAfter999(nums: set<string>, p: string)
    requires forall s :: s in nums && HasPrefix(s, p) ==>
               s == p + "1000" || exists i :: 1 <= i <= 999 && s == p + Seq3(i)
    requires p + Seq3(999) in nums
    ensures NextSequence(LastWithPrefix(nums, p)) == "1000"
  {
    var m := p + Seq3(999);
    assert m[..|p|] == p;
    forall s | s in nums && HasPrefix(s, p) ensures LexLe(s, m) {
      if s == p + "1000" {
        assert LexLe("1000", Seq3(999));
        LexLeCommonPrefix(p, "1000", Seq3(999));
      } else {
        var i :| 1 <= i <= 999 && s == p + Seq3(i);
        if i < 999 { Seq3Increasing(i, 999); } else { LexLeReflexive(Seq3(999)); }
        LexLeCommonPrefix(p, Seq3(i), Seq3(999));
      }
    }
    LastUnique(nums, p, LastWithPrefix(nums, p), Some(m));
    SequenceAfterCount(p, 999);
    NatToString1000();
  }

  /** Once "1000" exists next to "999", the greatest number stays "...999"
      (since "1000" sorts before "999"), so the "...1000" that already exists
      is produced again. */
  lemma SequenceRepeatsAfter999(nums: set<string>, today: Date)
    requires forall s :: s in nums && HasPrefix(s, DatePrefix(today)) ==>
               s == DatePrefix(today) + "1000" ||
               exists i :: 1 <= i <= 999 && s == DatePrefix(today) + Seq3(i)
    requires DatePrefix(today) + Seq3(999) in nums
    requires DatePrefix(today) + "1000" in nums
    ensures NextSlipNumber(today, LastWithPrefix(nums, DatePrefix(today))) in nums
  {
    RepeatAfter999(nums, DatePrefix(today));
  }
}
