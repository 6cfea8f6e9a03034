/** Decimal numerals, as `format!` writes them and `parse` reads them, and the byte order of `str`. */
module Decimal {
  import opened Text

  function Digit(n: int): (c: char)
    requires 0 <= n < 10
    ensures IsDigit(c)
  {
    ('0' as int + n) as char
  }

  function DigitValue(c: char): (n: int)
    requires IsDigit(c)
    ensures 0 <= n < 10 && Digit(n) == c
  {
    c as int - '0' as int
  }

  predicate AllDigits(s: string) {
    forall i | 0 <= i < |s| :: IsDigit(s[i])
  }

  function Digits(n: nat): (s: string)
    ensures s != [] && AllDigits(s)
  {
    if n < 10 then [Digit(n)] else Digits(n / 10) + [Digit(n % 10)]
  }

  /** `s.parse()` on digits, before any range check. */
  function Value(s: string): nat
    requires AllDigits(s)
  {
    if s == [] then 0 else 10 * Value(s[..|s| - 1]) + DigitValue(s[|s| - 1])
  }

  /** No leading zero, but for zero itself. */
  predicate Canonical(s: string) {
    s != [] && AllDigits(s) && (|s| > 1 ==> s[0] != '0')
  }

  lemma {:induction false} DigitsRead(n: nat)
    ensures Value(Digits(n)) == n && Canonical(Digits(n)) && (n > 0 ==> Digits(n)[0] != '0')
  {
    if n >= 10 {
      DigitsRead(n / 10);
      assert Digits(n)[..|Digits(n)| - 1] == Digits(n / 10);
    }
  }

  lemma {:induction false} ValuePositive(s: string)
    requires AllDigits(s) && s != [] && s[0] != '0'
    ensures Value(s) > 0
  {
    if |s| == 1 {
      assert Value(s[..0]) == 0;
    } else {
      ValuePositive(s[..|s| - 1]);
    }
  }

  lemma {:induction false} CanonicalWritten(s: string)
    requires Canonical(s)
    ensures Digits(Value(s)) == s
  {
    var init := s[..|s| - 1];
    if |s| == 1 {
      assert Value(init) == 0;
      assert s == [s[0]];
    } else {
      CanonicalWritten(init);
      ValuePositive(init);
      assert s == init + [s[|s| - 1]];
    }
  }

  // ---- fixed width -----------------------------------------------------------------------

  function Power10(w: nat): nat {
    if w == 0 then 1 else 10 * Power10(w - 1)
  }

  /** The last `w` digits. */
  function Fixed(n: nat, w: nat): (s: string)
    ensures |s| == w && AllDigits(s)
  {
    if w == 0 then [] else Fixed(n / 10, w - 1) + [Digit(n % 10)]
  }

  /** `{n:0w}`: at least `w` digits. */
  function Padded(n: nat, w: nat): string {
    Zeros(w - |Digits(n)|) + Digits(n)
  }

  function Zeros(k: int): string {
    if k <= 0 then "" else "0" + Zeros(k - 1)
  }

  lemma {:induction false} ZeroFixed(w: nat)
    ensures Fixed(0, w) == Zeros(w)
  {
    if w > 0 {
      ZeroFixed(w - 1);
      ZerosEnd(w - 1);
    }
  }

  lemma {:induction false} ZerosEnd(k: nat)
    ensures Zeros(k) + "0" == Zeros(k + 1)
  {
    if k > 0 {
      ZerosEnd(k - 1);
      assert "0" + (Zeros(k - 1) + "0") == "0" + Zeros(k - 1) + "0";
    }
  }

  lemma {:induction false} PaddedIsFixed(n: nat, w: nat)
    requires n < Power10(w) && w > 0
    ensures Padded(n, w) == Fixed(n, w) && |Digits(n)| <= w
    decreases w
  {
    if n < 10 {
      ZeroFixed(w - 1);
    } else {
      assert w > 1;
      PaddedIsFixed(n / 10, w - 1);
      var z := Zeros(w - |Digits(n)|);
      assert z + (Digits(n / 10) + [Digit(n % 10)]) == (z + Digits(n / 10)) + [Digit(n % 10)];
    }
  }

  lemma {:induction false} FixedRead(n: nat, w: nat)
    requires n < Power10(w)
    ensures Value(Fixed(n, w)) == n
  {
    if w > 0 {
      FixedRead(n / 10, w - 1);
      assert Fixed(n, w)[..w - 1] == Fixed(n / 10, w - 1);
    }
  }

  lemma {:induction false} FixedWritten(s: string)
    requires AllDigits(s)
    ensures Value(s) < Power10(|s|) && Fixed(Value(s), |s|) == s
  {
    if s != [] {
      var init, d := s[..|s| - 1], DigitValue(s[|s| - 1]);
      FixedWritten(init);
      assert Value(s) == 10 * Value(init) + d && Value(s) / 10 == Value(init) && Value(s) % 10 == d;
      assert Fixed(Value(s), |s|) == Fixed(Value(init), |init|) + [Digit(d)];
      assert s == init + [Digit(d)];
    }
  }

  // ---- the order of strings --------------------------------------------------------------

  /** `a < b` on strings: the first difference decides, and a proper prefix comes first. */
  predicate Less(a: string, b: string) {
    b != [] && (a == [] || a[0] < b[0] || (a[0] == b[0] && Less(a[1..], b[1..])))
  }

  lemma {:induction false} LessConcat(a: string, b: string, c: string, d: string)
    requires |a| == |b|
    ensures Less(a + c, b + d) <==> Less(a, b) || (a == b && Less(c, d))
  {
    if a == [] {
      assert a + c == c && b + d == d;
    } else {
      LessConcat(a[1..], b[1..], c, d);
      assert (a + c)[1..] == a[1..] + c && (b + d)[1..] == b[1..] + d;
      assert a == [a[0]] + a[1..] && b == [b[0]] + b[1..];
    }
  }

  lemma FixedInjective(m: nat, n: nat, w: nat)
    requires m < Power10(w) && n < Power10(w)
    ensures Fixed(m, w) == Fixed(n, w) <==> m == n
  {
    FixedRead(m, w);
    FixedRead(n, w);
  }

  /** Numerals of one width are ordered as strings as they are as numbers. */
  lemma {:induction false} FixedOrder(m: nat, n: nat, w: nat)
    requires m < Power10(w) && n < Power10(w)
    ensures Less(Fixed(m, w), Fixed(n, w)) <==> m < n
  {
    if w > 0 {
      var a, b := Fixed(m / 10, w - 1), Fixed(n / 10, w - 1);
      var c, d := [Digit(m % 10)], [Digit(n % 10)];
      FixedOrder(m / 10, n / 10, w - 1);
      FixedInjective(m / 10, n / 10, w - 1);
      LessConcat(a, b, c, d);
      assert Less(c, d) <==> m % 10 < n % 10;
    }
  }
}
