/**
 * Queue file names: a millisecond timestamp in decimal, then ".jpg".  The directory is listed in the
 * byte order of these names; this module says exactly when that is time order.
 */
module FileNames {
  import opened Common

  const SUFFIX := ".jpg"

  function Digit(d: nat): char
    requires d < 10
  {
    '0' + d as char
  }

  function Decimal(n: nat): string {
    if n < 10 then [Digit(n)] else Decimal(n / 10) + [Digit(n % 10)]
  }

  /** Times before 1970 are negative. */
  function Name(ms: int): string {
    (if ms < 0 then "-" + Decimal(-ms) else Decimal(ms)) + SUFFIX
  }

  predicate IsDigit(c: char) {
    '0' <= c <= '9'
  }

  function ParseDecimal(s: string): Option<int> {
    if s == [] || !IsDigit(s[|s|-1]) then None
    else
      var d := (s[|s|-1] - '0') as int;
      if |s| == 1 then Some(d)
      else
        match ParseDecimal(s[..|s|-1])
        case None => None
        case Some(high) => Some(10 * high + d)
  }

  function TrimSuffix(s: string): string {
    if |s| >= |SUFFIX| && s[|s|-|SUFFIX|..] == SUFFIX then s[..|s|-|SUFFIX|] else s
  }

  function ParseTimestamp(name: string): Option<int> {
    var s := TrimSuffix(name);
    if s == [] || s[0] != '-' then ParseDecimal(s)
    else
      match ParseDecimal(s[1..])
      case None => None
      case Some(n) => Some(-n)
  }

  /** The byte order of names that the listing is sorted by. */
  predicate NameLess(a: string, b: string) {
    if b == [] then false
    else if a == [] then true
    else if a[0] != b[0] then a[0] < b[0]
    else NameLess(a[1..], b[1..])
  }

  lemma {:induction false} ParseOfDecimal(n: nat)
    ensures ParseDecimal(Decimal(n)) == Some(n)
  {
    var s := Decimal(n);
    if n >= 10 {
      ParseOfDecimal(n / 10);
      assert s[..|s|-1] == Decimal(n / 10);
    }
  }

  /** Formatting a timestamp as a file name and parsing it back is the identity. */
  lemma NameRoundTrip(ms: int)
    ensures ParseTimestamp(Name(ms)) == Some(ms)
  {
    var n := if ms < 0 then -ms else ms;
    ParseOfDecimal(n);
    DigitsOnly(n);
    FirstIsDigit(n);
    if ms < 0 {
      TrimOf("-" + Decimal(n));
      assert ("-" + Decimal(n))[1..] == Decimal(n);
    } else {
      TrimOf(Decimal(n));
    }
  }

  lemma TrimOf(s: string)
    ensures TrimSuffix(s + SUFFIX) == s
  {
    assert (s + SUFFIX)[|s|..] == SUFFIX;
  }

  lemma FirstIsDigit(n: nat)
    ensures Decimal(n) != [] && IsDigit(Decimal(n)[0])
  {
    DigitsOnly(n);
    assert Decimal(n)[0] in Decimal(n);
  }

  lemma {:induction false} DigitsOnly(n: nat)
    ensures Decimal(n) != [] && forall c :: c in Decimal(n) ==> IsDigit(c)
  {
    if n >= 10 {
      DigitsOnly(n / 10);
    }
  }

  lemma NameExamples()
    ensures Name(0) == "0.jpg" && Name(42) == "42.jpg" && Name(-7) == "-7.jpg"
  {
    assert Decimal(4) == "4" && Decimal(42) == Decimal(4) + "2";
  }

  // ----- names are totally ordered

  lemma {:induction false} NameLessTotal(a: string, b: string)
    ensures NameLess(a, b) || NameLess(b, a) || a == b
    ensures !(NameLess(a, b) && NameLess(b, a))
  {
    if a != [] && b != [] && a[0] == b[0] {
      NameLessTotal(a[1..], b[1..]);
      assert a == [a[0]] + a[1..] && b == [b[0]] + b[1..];
    }
  }

  lemma {:induction false} NameLessTransitive(a: string, b: string, c: string)
    requires NameLess(a, b) && NameLess(b, c)
    ensures NameLess(a, c)
  {
    if a != [] && a[0] == b[0] == c[0] {
      NameLessTransitive(a[1..], b[1..], c[1..]);
    }
  }

  /** The order of the listing. */
  predicate Before(a: int, b: int) {
    NameLess(Name(a), Name(b))
  }

  lemma BeforeTotal(a: int, b: int)
    ensures Before(a, b) || Before(b, a) || a == b
    ensures !(Before(a, b) && Before(b, a))
  {
    NameLessTotal(Name(a), Name(b));
    NameRoundTrip(a);
    NameRoundTrip(b);
  }

  lemma BeforeTransitive(a: int, b: int, c: int)
    requires Before(a, b) && Before(b, c)
    ensures Before(a, c)
  {
    NameLessTransitive(Name(a), Name(b), Name(c));
  }

  // ----- when the order of the names is the order of the times

  lemma {:induction false} CompareHeads(s: string, t: string, x: string, y: string)
    requires |s| == |t|
    ensures NameLess(s + x, t + y) <==> NameLess(s, t) || (s == t && NameLess(x, y))
  {
    if s == [] {
      assert s + x == x && t + y == y;
    } else {
      assert (s + x)[1..] == s[1..] + x && (t + y)[1..] == t[1..] + y;
      CompareHeads(s[1..], t[1..], x, y);
      assert s == [s[0]] + s[1..] && t == [t[0]] + t[1..];
    }
  }

  lemma {:induction false} DecimalOrder(a: nat, b: nat)
    requires |Decimal(a)| == |Decimal(b)|
    ensures NameLess(Decimal(a), Decimal(b)) <==> a < b
    ensures Decimal(a) == Decimal(b) <==> a == b
  {
    ParseOfDecimal(a);
    ParseOfDecimal(b);
    if a >= 10 && b >= 10 {
      DecimalOrder(a / 10, b / 10);
      CompareHeads(Decimal(a / 10), Decimal(b / 10), [Digit(a % 10)], [Digit(b % 10)]);
    } else {
      LongerFromTen(a);
      LongerFromTen(b);
      assert a < 10 && b < 10;
      assert Decimal(a) == [Digit(a)] && Decimal(b) == [Digit(b)];
    }
  }

  lemma LongerFromTen(n: nat)
    ensures |Decimal(n)| >= 1 && (n >= 10 ==> |Decimal(n)| >= 2)
  {
  }

  function Pow10(k: nat): nat {
    if k == 0 then 1 else 10 * Pow10(k - 1)
  }

  lemma {:induction false} DecimalLength(n: nat, k: nat)
    requires k >= 1 && n < Pow10(k) && (k > 1 ==> Pow10(k - 1) <= n)
    ensures |Decimal(n)| == k
  {
    if k == 1 {
      assert Pow10(1) == 10 * Pow10(0);
    } else {
      assert Pow10(k) == 10 * Pow10(k - 1);
      if k == 2 {
        assert Pow10(1) == 10 * Pow10(0);
      } else {
        assert Pow10(k - 1) == 10 * Pow10(k - 2);
        assert Pow10(k - 1) >= 10 by { Pow10Grows(k - 1); }
      }
      DecimalLength(n / 10, k - 1);
    }
  }

  lemma {:induction false} Pow10Grows(k: nat)
    requires k >= 1
    ensures Pow10(k) >= 10
  {
    if k == 1 {
      assert Pow10(1) == 10 * Pow10(0);
    } else {
      Pow10Grows(k - 1);
    }
  }

  const ERA_START: nat := 1_000_000_000_000
  const ERA_END: nat := 10_000_000_000_000

  /** Thirteen-digit milliseconds: September 2001 to November 2286. */
  predicate InEra(ms: int) {
    ERA_START <= ms < ERA_END
  }

  function Digits(n: nat): nat {
    |Decimal(n)|
  }

  lemma EraHasThirteenDigits(ms: nat)
    requires InEra(ms)
    ensures Digits(ms) == 13
  {
    assert Pow10(12) == ERA_START && Pow10(13) == ERA_END;
    DecimalLength(ms, 13);
  }

  /** The number the first k digits of n make. */
  function Lead(n: nat, k: nat): nat
    requires 0 < k <= Digits(n)
    decreases n
  {
    if k == Digits(n) then n else Lead(n / 10, k)
  }

  /** The digits after the first k. */
  lemma {:induction false} LeadSplits(n: nat, k: nat)
    requires 0 < k <= Digits(n)
    ensures Decimal(n)[..k] == Decimal(Lead(n, k)) && Digits(Lead(n, k)) == k
    decreases n
  {
    if k == Digits(n) {
      assert Decimal(n)[..k] == Decimal(n);
    } else {
      LeadSplits(n / 10, k);
      assert Decimal(n)[..k] == Decimal(n / 10)[..k];
    }
  }

  /** The dot sorts before every digit. */
  lemma DotBeforeDigits(n: nat, k: nat)
    requires k < Digits(n)
    ensures NameLess(SUFFIX, Decimal(n)[k..] + SUFFIX)
  {
    DigitsOnly(n);
    assert Decimal(n)[k] in Decimal(n);
    assert (Decimal(n)[k..] + SUFFIX)[0] == Decimal(n)[k];
  }

  lemma NameParts(b: nat, k: nat)
    requires 0 < k < Digits(b)
    ensures Name(b) == Decimal(Lead(b, k)) + (Decimal(b)[k..] + SUFFIX)
  {
    LeadSplits(b, k);
  }

  /** A shorter name against a longer one. */
  lemma ShorterBefore(a: nat, b: nat)
    requires 0 < Digits(a) < Digits(b)
    ensures Before(a, b) <==> a <= Lead(b, Digits(a))
  {
    var k := Digits(a);
    LeadSplits(b, k);
    NameParts(b, k);
    DotBeforeDigits(b, k);
    CompareHeads(Decimal(a), Decimal(Lead(b, k)), SUFFIX, Decimal(b)[k..] + SUFFIX);
    DecimalOrder(a, Lead(b, k));
  }

  lemma {:induction false} LongerIsLater(a: nat, b: nat)
    ensures Digits(a) < Digits(b) ==> a < b
  {
    LongerFromTen(a);
    LongerFromTen(b);
    if a >= 10 && b >= 10 {
      LongerIsLater(a / 10, b / 10);
    }
  }

  /**
   * The exact law: the earlier of two times sorts first if and only if their names are equally
   * long, or it is at most what the later name's leading digits of its own length make.
   */
  lemma NameOrderIff(a: nat, b: nat)
    requires a < b
    ensures 0 < Digits(a) <= Digits(b)
    ensures Before(a, b) <==> a <= Lead(b, Digits(a))
  {
    LongerFromTen(a);
    LongerIsLater(b, a);
    if Digits(a) == Digits(b) {
      NameOrderIsTimeOrder(a, b);
    } else {
      ShorterBefore(a, b);
    }
  }

  /** Times before 1970 all sort first, but among themselves the later one by its distance from 1970. */
  lemma NegativeOrder(a: int, b: int)
    requires a < 0
    ensures Before(a, b) <==> b >= 0 || Before(-a, -b)
  {
    assert Name(a) == "-" + Name(-a);
    if b < 0 {
      assert Name(b) == "-" + Name(-b);
      assert Name(a)[1..] == Name(-a) && Name(b)[1..] == Name(-b);
    } else {
      FirstIsDigit(b);
      assert Name(a)[0] == '-' && Name(b)[0] == Decimal(b)[0];
    }
  }

  /** Names of one length: sorting them sorts times. */
  lemma NameOrderIsTimeOrder(a: nat, b: nat)
    requires Digits(a) == Digits(b)
    ensures Before(a, b) <==> a < b
  {
    DecimalOrder(a, b);
    CompareHeads(Decimal(a), Decimal(b), SUFFIX, SUFFIX);
    NameLessTotal(SUFFIX, SUFFIX);
  }

  /** A clock that starts at 1970: an image from its seconds 500 to 1000 sorts after every one of 2001 to 2128. */
  lemma EarlyClockSortsLate(a: nat, b: nat)
    requires 500_000 <= a < 1_000_000 && 1_000_000_000_000 <= b < 5_000_000_000_000
    ensures a < b && Before(b, a)
  {
    assert Pow10(5) == 100_000 && Pow10(6) == 1_000_000;
    DecimalLength(a, 6);
    EraHasThirteenDigits(b);
    NameOrderIff(a, b);
    LeadBelow(b);
    BeforeTotal(a, b);
  }

  lemma LeadBelow(b: nat)
    requires InEra(b) && b < 5_000_000_000_000
    ensures Digits(b) == 13 && Lead(b, 6) < 500_000
  {
    EraHasThirteenDigits(b);
    LeadBounds(b, 6);
    assert Pow10(7) == 10_000_000;
  }

  /** The leading digits, filled up with zeros, and one more of them enclose the number. */
  lemma {:induction false} LeadBounds(n: nat, k: nat)
    requires 0 < k <= Digits(n)
    ensures var p := Pow10(Digits(n) - k); Lead(n, k) * p <= n < Lead(n, k) * p + p
    decreases n
  {
    if k < Digits(n) {
      LeadBounds(n / 10, k);
      var p, h := Pow10(Digits(n) - 1 - k), Lead(n, k);
      TimesTen(h, p, Pow10(Digits(n) - k));
    } else {
      assert Pow10(0) == 1;
    }
  }

  lemma TimesTen(h: nat, p: nat, p': nat)
    requires p' == 10 * p
    ensures h * p' == 10 * (h * p)
  {
  }
}
