/** `format!("{:06}", n)`: decimal digits, zero-padded to at least six. */
module Decimal {
  import opened Lexicographic

  const PAD_WIDTH: nat := 6

  function Pow10(n: nat): (r: nat)
    ensures r >= 1
  {
    if n == 0 then 1 else 10 * Pow10(n - 1)
  }

  function DigitChar(d: nat): char
    requires d < 10
  {
    ('0' as int + d) as char
  }

  function Digits(n: nat): string {
    if n < 10 then [DigitChar(n)] else Digits(n / 10) + [DigitChar(n % 10)]
  }

  function ZeroPad(s: string): string {
    if |s| < PAD_WIDTH then seq(PAD_WIDTH - |s|, _ => '0') + s else s
  }

  function Padded(n: nat): string {
    ZeroPad(Digits(n))
  }

  predicate IsDigits(s: string) {
    forall i :: 0 <= i < |s| ==> '0' <= s[i] <= '9'
  }

  /** The number a digit string denotes: the inverse of `Padded`. */
  function Value(s: string): nat
    requires IsDigits(s)
  {
    if s == "" then 0
    else 10 * Value(s[..|s| - 1]) + (s[|s| - 1] as int - '0' as int)
  }

  lemma {:induction false} ValueOfDigits(n: nat)
    ensures IsDigits(Digits(n)) && Value(Digits(n)) == n
  {
    if n >= 10 {
      ValueOfDigits(n / 10);
      var s := Digits(n);
      assert s[..|s| - 1] == Digits(n / 10);
    } else {
      assert Digits(n)[..0] == "";
    }
  }

  lemma {:induction false} ValueIgnoresLeadingZeros(z: nat, s: string)
    requires IsDigits(s)
    ensures IsDigits(seq(z, _ => '0') + s)
    ensures Value(seq(z, _ => '0') + s) == Value(s)
  {
    var t := seq(z, _ => '0') + s;
    if s != "" {
      assert t[..|t| - 1] == seq(z, _ => '0') + s[..|s| - 1];
      ValueIgnoresLeadingZeros(z, s[..|s| - 1]);
    } else if z > 0 {
      assert t[..|t| - 1] == seq(z - 1, _ => '0') + s;
      ValueIgnoresLeadingZeros(z - 1, s);
    }
  }

  /** Reading a padded number back yields the number, for every number. */
  lemma ValueOfPadded(n: nat)
    ensures IsDigits(Padded(n)) && Value(Padded(n)) == n
  {
    ValueOfDigits(n);
    if |Digits(n)| < PAD_WIDTH {
      ValueIgnoresLeadingZeros(PAD_WIDTH - |Digits(n)|, Digits(n));
    }
  }

  /** Text that spells a number in at least six digits, with no leading zero
      beyond the sixth. */
  predicate Spells(text: string, n: nat) {
    IsDigits(text) && Value(text) == n && |text| >= 6 && (|text| > 6 ==> text[0] != '0')
  }

  /** A digit string without a leading zero is as long as its number demands. */
  lemma {:induction false} NoLeadingZero(n: nat)
    ensures n >= 10 ==> Digits(n)[0] != '0'
  {
    if n >= 100 {
      NoLeadingZero(n / 10);
    }
  }

  lemma {:induction false} ValueBounds(text: string)
    requires IsDigits(text) && text != ""
    ensures Value(text) < Pow10(|text|)
    ensures text[0] != '0' ==> Value(text) >= Pow10(|text| - 1)
  {
    var init := text[..|text| - 1];
    if init == "" {
      assert Pow10(1) == 10 && Pow10(0) == 1;
    } else {
      ValueBounds(init);
      assert Pow10(|text|) == 10 * Pow10(|init|) && Pow10(|init|) == 10 * Pow10(|init| - 1);
    }
  }

  lemma {:induction false} PowersGrow(i: nat, j: nat)
    requires i <= j
    ensures Pow10(i) <= Pow10(j)
  {
    if i < j {
      PowersGrow(i, j - 1);
    }
  }

  lemma SpellsWidth(a: string, b: string, n: nat)
    requires Spells(a, n) && Spells(b, n)
    ensures |a| <= |b|
  {
    if |a| > |b| {
      ValueBounds(a);
      ValueBounds(b);
      PowersGrow(|b|, |a| - 1);
    }
  }

  /** The padded form is the one text that spells the number. */
  lemma PaddedExact(text: string, n: nat)
    ensures text == Padded(n) <==> Spells(text, n)
  {
    ValueOfPadded(n);
    NoLeadingZero(n);
    assert Spells(Padded(n), n);
    if Spells(text, n) {
      SpellsWidth(text, Padded(n), n);
      SpellsWidth(Padded(n), text, n);
      SameWidthOrder(text, Padded(n));
    }
  }

  lemma PaddedInjective(a: nat, b: nat)
    requires Padded(a) == Padded(b)
    ensures a == b
  {
    ValueOfPadded(a);
    ValueOfPadded(b);
  }

  /** The first k digits are the quotient by the power of ten cut off. */
  lemma {:induction false} ValueOfPrefix(s: string, k: nat)
    requires IsDigits(s) && k <= |s|
    ensures Value(s[..k]) == Value(s) / Pow10(|s| - k)
  {
    if k == |s| {
      assert s[..k] == s;
    } else {
      var t := s[..|s| - 1];
      var p := Pow10(|t| - k);
      ValueOfPrefix(t, k);
      assert t[..k] == s[..k] && Pow10(|s| - k) == 10 * p && Value(t) == Value(s) / 10;
      DivideTwice(Value(s), p);
    }
  }

  lemma DivideTwice(x: nat, p: nat)
    requires p >= 1
    ensures x / 10 / p == x / (10 * p)
  {
    var q, r := x / 10 / p, x / 10 % p;
    assert x / 10 == p * q + r;
    assert x == 10 * (p * q + r) + x % 10 == (10 * p) * q + (10 * r + x % 10);
    QuotientIs(x, 10 * p, q, 10 * r + x % 10);
  }

  lemma QuotientIs(x: nat, d: nat, q: nat, r: nat)
    requires r < d && x == d * q + r
    ensures x / d == q
  {
    var q', r' := x / d, x % d;
    assert x == d * q' + r';
    if q' < q {
      ProductStep(d, q', q);
    } else if q < q' {
      ProductStep(d, q, q');
    }
  }

  lemma ProductStep(d: nat, x: nat, y: nat)
    requires x < y
    ensures d * x + d <= d * y
  {
    assert d * y == d * (x + 1) + d * (y - x - 1);
  }

  /** On digit strings of one length, string order is numeric order. */
  lemma {:induction false} SameWidthOrder(a: string, b: string)
    requires IsDigits(a) && IsDigits(b) && |a| == |b|
    ensures Less(a, b) <==> Value(a) < Value(b)
    ensures a == b <==> Value(a) == Value(b)
  {
    if a != "" {
      var a', b' := a[..|a| - 1], b[..|b| - 1];
      var x, y := a[|a| - 1], b[|b| - 1];
      assert a == a' + [x] && b == b' + [y];
      SameWidthOrder(a', b');
      LessSnoc(a', x, b', y);
    }
  }

  /** How many digits the padded form has. */
  lemma {:induction false} DigitsWidth(n: nat, w: nat)
    requires w >= 1
    ensures |Digits(n)| <= w <==> n < Pow10(w)
  {
    if n < 10 {
      assert Pow10(w) == 10 * Pow10(w - 1);
    } else if w > 1 {
      DigitsWidth(n / 10, w - 1);
      assert Pow10(w) == 10 * Pow10(w - 1);
    } else {
      assert Pow10(1) == 10 * Pow10(0) == 10;
      assert |Digits(n / 10)| >= 1;
    }
  }

  lemma PowersOfTen()
    ensures Pow10(1) == 10 && Pow10(6) == 1_000_000 && Pow10(7) == 10_000_000
  {
  }

  lemma PaddedWidth(n: nat)
    ensures n <= 999_999 ==> |Padded(n)| == 6
    ensures 1_000_000 <= n < 10_000_000 ==> |Padded(n)| == 7
  {
    PowersOfTen();
    DigitsWidth(n, 6);
    DigitsWidth(n, 7);
  }

  /** Exactly how padded numbers sort as strings, for all pairs: numerically
      at equal widths, and otherwise by the wider number's leading digits. */
  lemma PaddedOrder(a: nat, b: nat)
    ensures |Padded(a)| == |Padded(b)| ==> (Less(Padded(a), Padded(b)) <==> a < b)
    ensures |Padded(a)| < |Padded(b)| ==>
              (Less(Padded(a), Padded(b)) <==> a <= b / Pow10(|Padded(b)| - |Padded(a)|))
    ensures |Padded(b)| < |Padded(a)| ==>
              (Less(Padded(a), Padded(b)) <==> a / Pow10(|Padded(a)| - |Padded(b)|) < b)
  {
    var s, t := Padded(a), Padded(b);
    ValueOfPadded(a);
    ValueOfPadded(b);
    if |s| == |t| {
      SameWidthOrder(s, t);
    } else if |s| < |t| {
      WiderOrder(t, s);
      Total(s, t);
      if Less(s, t) {
        Asymmetric(s, t);
      }
    } else {
      WiderOrder(s, t);
    }
  }

  lemma WiderOrder(wide: string, narrow: string)
    requires IsDigits(wide) && IsDigits(narrow) && |narrow| < |wide|
    ensures Less(wide, narrow) <==> Value(wide) / Pow10(|wide| - |narrow|) < Value(narrow)
  {
    LessTruncated(narrow, wide);
    ValueOfPrefix(wide, |narrow|);
    SameWidthOrder(wide[..|narrow|], narrow);
  }

  lemma {:induction false} DigitsGrow(a: nat, b: nat)
    requires a <= b
    ensures |Digits(a)| <= |Digits(b)|
  {
    if a >= 10 {
      DigitsGrow(a / 10, b / 10);
    }
  }

  /** A smaller number sorts first unless the larger one is wider and starts
      with smaller digits. */
  predicate SortsBefore(a: nat, b: nat) {
    a < b && (|Padded(a)| < |Padded(b)| ==> a <= b / Pow10(|Padded(b)| - |Padded(a)|))
  }

  lemma SortsBeforeExact(a: nat, b: nat)
    requires a <= b
    ensures Less(Padded(a), Padded(b)) <==> SortsBefore(a, b)
  {
    DigitsGrow(a, b);
    PaddedOrder(a, b);
    if a == b && Less(Padded(a), Padded(b)) {
      Asymmetric(Padded(a), Padded(b));
    }
  }

  /** String order is numeric order on all of 0..n exactly up to 999,999. */
  lemma PaddedOrderBound(n: nat)
    ensures (forall a: nat, b: nat :: a < b <= n ==> Less(Padded(a), Padded(b))) <==> n <= 999_999
  {
    if n <= 999_999 {
      forall a: nat, b: nat | a < b <= n
        ensures Less(Padded(a), Padded(b))
      {
        PaddedWidth(a);
        PaddedWidth(b);
        PaddedOrder(a, b);
      }
    } else {
      MillionSortsFirst();
      Asymmetric(Padded(1_000_000), Padded(999_999));
    }
  }

  lemma MillionSortsFirst()
    ensures Less(Padded(1_000_000), Padded(999_999))
  {
  }
}
