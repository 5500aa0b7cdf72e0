/**
 The text form of a player id: decimal digits, padded on the left with zeros to seven places.
 */
module PlayerId {

  const WIDTH: nat := 7

  function Digit(d: nat): char
    requires d < 10
  {
    '0' + d as char
  }

  predicate IsDigit(c: char) { '0' <= c <= '9' }

  /** Decimal digits of n, most significant first, without leading zeros. */
  function Decimal(n: nat): string {
    if n < 10 then [Digit(n)] else Decimal(n / 10) + [Digit(n % 10)]
  }

  function Zeros(k: nat): string { seq(k, _ => '0') }

  /** The id as the server writes it into profiles: at least WIDTH digits. */
  function Format(n: nat): string {
    var digits := Decimal(n);
    if |digits| < WIDTH then Zeros(WIDTH - |digits|) + digits else digits
  }

  predicate AllDigits(s: string) { forall i | 0 <= i < |s| :: IsDigit(s[i]) }

  /** The number a digit string denotes. */
  function Value(s: string): nat
    requires AllDigits(s)
  {
    if s == [] then 0 else 10 * Value(s[..|s| - 1]) + (s[|s| - 1] as nat - '0' as nat)
  }

  function Pow10(k: nat): nat { if k == 0 then 1 else 10 * Pow10(k - 1) }

  /** Dictionary order on strings. */
  predicate TextBefore(a: string, b: string) {
    b != [] && (a == [] || a[0] < b[0] || (a[0] == b[0] && TextBefore(a[1..], b[1..])))
  }

  lemma {:induction false} DecimalDenotes(n: nat)
    ensures AllDigits(Decimal(n)) && Value(Decimal(n)) == n
  {
    if n < 10 {
      assert Decimal(n)[..0] == [];
    } else {
      DecimalDenotes(n / 10);
      assert Decimal(n)[..|Decimal(n)| - 1] == Decimal(n / 10);
    }
  }

  lemma {:induction false} ValueOfPadded(k: nat, s: string)
    requires AllDigits(s)
    ensures AllDigits(Zeros(k) + s) && Value(Zeros(k) + s) == Value(s)
  {
    if s != [] {
      ValueOfPadded(k, s[..|s| - 1]);
      assert (Zeros(k) + s)[..|Zeros(k) + s| - 1] == Zeros(k) + s[..|s| - 1];
    } else if k > 0 {
      ValueOfPadded(k - 1, s);
      assert (Zeros(k) + s)[..k - 1] == Zeros(k - 1) + s;
    }
  }

  /** Padding loses nothing: the text parses back to the id it was made from. */
  lemma FormatRoundTrip(n: nat)
    ensures AllDigits(Format(n)) && Value(Format(n)) == n
  {
    DecimalDenotes(n);
    if |Decimal(n)| < WIDTH {
      ValueOfPadded(WIDTH - |Decimal(n)|, Decimal(n));
    }
  }

  /** Two ids share a text only when they are the same id. */
  lemma FormatInjective(m: nat, n: nat)
    requires Format(m) == Format(n)
    ensures m == n
  {
    FormatRoundTrip(m);
    FormatRoundTrip(n);
  }

  lemma {:induction false} DecimalLength(n: nat, k: nat)
    requires k >= 1
    ensures |Decimal(n)| <= k <==> n < Pow10(k)
    decreases k
  {
    if n >= 10 {
      if k == 1 {
        assert Pow10(1) == 10;
      } else {
        DecimalLength(n / 10, k - 1);
        assert n < 10 * Pow10(k - 1) <==> n / 10 < Pow10(k - 1);
      }
    } else {
      Pow10Positive(k - 1);
    }
  }

  lemma Pow10Positive(k: nat)
    ensures Pow10(k) >= 1
  {
  }

  /** Exactly the ids below ten million take seven places; larger ids take their own digits. */
  lemma FormatLength(n: nat)
    ensures |Format(n)| >= WIDTH
    ensures |Format(n)| == WIDTH <==> n < 10_000_000
    ensures n >= 10_000_000 ==> Format(n) == Decimal(n)
  {
    DecimalLength(n, WIDTH);
    assert Pow10(7) == 10 * Pow10(6);
    assert Pow10(6) == 10 * Pow10(5);
    assert Pow10(5) == 10 * Pow10(4);
    assert Pow10(4) == 10 * Pow10(3);
    assert Pow10(3) == 10 * Pow10(2);
  }

  /** A number without its last e digits. */
  function Shifted(n: nat, e: nat): nat { if e == 0 then n else Shifted(n / 10, e - 1) }

  lemma {:induction false} ShiftedIsQuotient(n: nat, e: nat)
    ensures Pow10(e) > 0 && Shifted(n, e) == n / Pow10(e)
    decreases e
  {
    Pow10Positive(e);
    if e > 0 {
      ShiftedIsQuotient(n / 10, e - 1);
      TenTimes(n, Pow10(e - 1));
    }
  }

  lemma {:induction false} ShiftedDigit(n: nat, i: nat)
    requires i < |Decimal(n)|
    ensures Decimal(n)[i] == Digit(Shifted(n, |Decimal(n)| - 1 - i) % 10)
  {
    if i < |Decimal(n)| - 1 {
      ShiftedDigit(n / 10, i);
      assert Decimal(n)[i] == Decimal(n / 10)[i];
    }
  }

  lemma DigitCode(d: nat)
    requires d < 10
    ensures Digit(d) as int == '0' as int + d
  {
  }

  /** Every digit of a number is where its power of ten says. */
  lemma DigitAt(n: nat, i: nat)
    requires i < |Decimal(n)|
    ensures Pow10(|Decimal(n)| - 1 - i) > 0
    ensures Decimal(n)[i] as int == '0' as int + (n / Pow10(|Decimal(n)| - 1 - i)) % 10
  {
    var e := |Decimal(n)| - 1 - i;
    ShiftedDigit(n, i);
    ShiftedIsQuotient(n, e);
    DigitCode(Shifted(n, e) % 10);
  }

  lemma TenTimes(n: nat, power: nat)
    requires power > 0
    ensures n / 10 / power == n / (10 * power)
  {
    var q := n / 10;
    var a, b := q / power, q % power;
    assert q == power * a + b;
    var rest := 10 * b + n % 10;
    assert n == 10 * q + n % 10 == 10 * (power * a) + rest;
    Quotient(n, 10 * power, a, rest);
  }

  lemma Quotient(n: nat, divisor: nat, a: nat, rest: nat)
    requires divisor > 0 && rest < divisor && n == divisor * a + rest
    ensures n / divisor == a
  {
    var q, r := n / divisor, n % divisor;
    assert divisor * q + r == divisor * a + rest;
    if q < a {
      Multiples(divisor, q, a);
    } else if a < q {
      Multiples(divisor, a, q);
    }
  }

  lemma Multiples(divisor: nat, a: nat, b: nat)
    requires a < b
    ensures divisor * a + divisor <= divisor * b
  {
    assert divisor * (a + 1) <= divisor * b;
  }

  /** Every text of digits is some zeros and the decimal digits of its value. */
  lemma {:induction false} DigitsAreDecimal(s: string) returns (k: nat)
    requires s != "" && AllDigits(s)
    ensures s == Zeros(k) + Decimal(Value(s))
  {
    var front, c := s[..|s| - 1], s[|s| - 1];
    assert IsDigit(c) && s == front + [c];
    DigitOf(c);
    if front == "" {
      k := 0;
      assert Zeros(0) == "" && Value(front) == 0;
    } else {
      var j := DigitsAreDecimal(front);
      k := if Value(front) == 0 then j + 1 else j;
      OneMoreDigit(front, Value(front), c as nat - '0' as nat, j);
    }
  }

  lemma OneMoreDigit(front: string, v: nat, d: nat, j: nat)
    requires d < 10 && front == Zeros(j) + Decimal(v)
    ensures front + [Digit(d)] == Zeros(if v == 0 then j + 1 else j) + Decimal(10 * v + d)
  {
    TenDivides(v, d);
    if v == 0 {
      assert Zeros(j) + "0" == Zeros(j + 1);
    } else {
      assert Decimal(10 * v + d) == Decimal(v) + [Digit(d)];
      assert Zeros(j) + Decimal(v) + [Digit(d)] == Zeros(j) + (Decimal(v) + [Digit(d)]);
    }
  }

  lemma TenDivides(v: nat, d: nat)
    requires d < 10
    ensures (10 * v + d) / 10 == v && (10 * v + d) % 10 == d
  {
  }

  lemma DigitOf(c: char)
    requires IsDigit(c)
    ensures c as nat - '0' as nat < 10 && Digit(c as nat - '0' as nat) == c
  {
  }

  /** The value of a digit string, split at its first digit. */
  lemma {:induction false} ValueFromFront(s: string)
    requires s != [] && AllDigits(s)
    ensures Value(s) == (s[0] as nat - '0' as nat) * Pow10(|s| - 1) + Value(s[1..])
    ensures Value(s[1..]) < Pow10(|s| - 1)
  {
    if |s| == 1 {
      assert s[..0] == [];
    } else {
      var front, back := s[..|s| - 1], s[1..];
      ValueFromFront(front);
      assert front[1..] == back[..|back| - 1];
      Regroup(s[0] as nat - '0' as nat, Pow10(|s| - 2), Value(front[1..]));
    }
  }

  lemma Regroup(digit: nat, power: nat, rest: nat)
    ensures 10 * (digit * power + rest) == digit * (10 * power) + 10 * rest
  {
  }

  lemma {:induction false} OrderOfEqualLengths(a: string, b: string)
    requires |a| == |b| && AllDigits(a) && AllDigits(b)
    ensures TextBefore(a, b) <==> Value(a) < Value(b)
  {
    if a != [] {
      ValueFromFront(a);
      ValueFromFront(b);
      OrderOfEqualLengths(a[1..], b[1..]);
      var p, x, y := Pow10(|a| - 1), a[0] as nat - '0' as nat, b[0] as nat - '0' as nat;
      if x < y {
        LeadDecides(x, y, p, Value(a[1..]), Value(b[1..]));
      } else if y < x {
        LeadDecides(y, x, p, Value(b[1..]), Value(a[1..]));
      }
    }
  }

  lemma LeadDecides(x: nat, y: nat, p: nat, u: nat, v: nat)
    requires x < y && u < p
    ensures x * p + u < y * p + v
  {
    assert x * p + p == (x + 1) * p <= y * p;
  }

  /** While both ids have seven places, sorting the texts sorts the ids. */
  lemma FormatOrder(m: nat, n: nat)
    requires m < 10_000_000 && n < 10_000_000
    ensures TextBefore(Format(m), Format(n)) <==> m < n
  {
    FormatLength(m);
    FormatLength(n);
    FormatRoundTrip(m);
    FormatRoundTrip(n);
    OrderOfEqualLengths(Format(m), Format(n));
  }

  /** Sorting the texts sorts the ids exactly among ids below ten million. */
  lemma FormatOrderExactlyBelow(bound: nat)
    ensures (forall m: nat, n: nat | m < bound && n < bound :: TextBefore(Format(m), Format(n)) <==> m < n)
       <==> bound <= 10_000_000
  {
    if bound <= 10_000_000 {
      forall m: nat, n: nat | m < bound && n < bound ensures TextBefore(Format(m), Format(n)) <==> m < n {
        FormatOrder(m, n);
      }
    } else {
      FormatOrderEnds();
      var m: nat, n: nat := 10_000_000, 9_999_999;
      assert m < bound && n < bound && TextBefore(Format(m), Format(n)) && !(m < n);
    }
  }

  /** From an eight-digit id on, text order and numeric order part ways. */
  lemma FormatOrderEnds()
    ensures TextBefore(Format(10_000_000), Format(9_999_999))
  {
    FormatLength(10_000_000);
    assert Decimal(10_000_000)[0] == '1' by {
      FirstDigit(10_000_000, 1_000_000); FirstDigit(1_000_000, 100_000); FirstDigit(100_000, 10_000);
      FirstDigit(10_000, 1_000); FirstDigit(1_000, 100); FirstDigit(100, 10); FirstDigit(10, 1);
    }
    assert Decimal(9_999_999)[0] == '9' by {
      FirstDigit(9_999_999, 999_999); FirstDigit(999_999, 99_999); FirstDigit(99_999, 9_999);
      FirstDigit(9_999, 999); FirstDigit(999, 99); FirstDigit(99, 9);
    }
    FormatLength(9_999_999);
    DecimalLength(9_999_999, 6);
    assert |Decimal(9_999_999)| == 7;
  }

  lemma FirstDigit(n: nat, shorter: nat)
    requires n >= 10 && shorter == n / 10
    ensures Decimal(n)[0] == Decimal(shorter)[0]
  {
  }
}
