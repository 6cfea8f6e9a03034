/** UTF-8 preserves what a condition can ask of two texts: whether they are equal, whether one is a
    prefix or a suffix of the other, and whether one contains the other. */
module Encoding {
  import opened Text

  /** A byte that continues a character, and starts none. */
  predicate Continues(c: char) { 0x80 as char <= c < 0xC0 as char }

  lemma CharShape(c: char)
    ensures !Continues(Utf8Char(c)[0])
    ensures forall i | 1 <= i < |Utf8Char(c)| :: Continues(Utf8Char(c)[i])
  {
  }

  /** How many bytes a character takes, from its first. */
  function LengthFrom(lead: char): nat {
    if lead < 0x80 as char then 1 else if lead < 0xE0 as char then 2 else if lead < 0xF0 as char then 3 else 4
  }

  lemma LengthOf(c: char)
    ensures |Utf8Char(c)| == LengthFrom(Utf8Char(c)[0])
  {
  }

  /** The number the bytes of a character carry. */
  function Carried(r: string): int {
    if |r| == 1 then r[0] as int
    else if |r| == 2 then (r[0] as int - 0xC0) * 64 + (r[1] as int - 0x80)
    else if |r| == 3 then (r[0] as int - 0xE0) * 4096 + (r[1] as int - 0x80) * 64 + (r[2] as int - 0x80)
    else if |r| == 4 then (r[0] as int - 0xF0) * 262144 + (r[1] as int - 0x80) * 4096 + (r[2] as int - 0x80) * 64 + (r[3] as int - 0x80)
    else 0
  }

  lemma SixBits(n: nat)
    ensures n == n / 64 * 64 + n % 64 && n / 64 / 64 == n / 4096 && n / 4096 / 64 == n / 262144
  {
  }

  lemma CharCarried(c: char)
    ensures Carried(Utf8Char(c)) == c as int
  {
    var n := c as int;
    SixBits(n);
    SixBits(n / 64);
    SixBits(n / 4096);
  }

  /** The shortest form: how many bytes a character takes, and that they carry it. */
  lemma CharEncoded(c: char)
    ensures |Utf8Char(c)| == if c as int < 0x80 then 1 else if c as int < 0x800 then 2 else if c as int < 0x1_0000 then 3 else 4
    ensures Carried(Utf8Char(c)) == c as int
  {
    CharCarried(c);
  }

  /** The bytes of a character are those of no other. */
  lemma CharFromBytes(c: char, d: char)
    requires Utf8Char(c) == Utf8Char(d)
    ensures c == d
  {
    CharCarried(c);
    CharCarried(d);
    assert c as int == d as int;
  }

  /** The first characters of two texts whose bytes start alike. */
  lemma FirstChar(d: char, y: string, c: char, x: string)
    requires Utf8Char(d) + y <= Utf8Char(c) + x
    ensures c == d && y <= x
  {
    var h, k := Utf8Char(d), Utf8Char(c);
    assert (h + y)[0] == (k + x)[0];
    assert h[0] == k[0];
    LengthOf(d);
    LengthOf(c);
    assert h == (h + y)[..|h|] == (k + x)[..|h|] == k;
    CharFromBytes(c, d);
    assert (h + y)[|h|..] == y && (k + x)[|h|..] == x;
  }

  lemma {:induction false} PrefixKept(b: string, a: string)
    ensures Utf8(b) <= Utf8(a) <==> b <= a
  {
    if b != [] && a != [] {
      PrefixKept(b[1..], a[1..]);
      if Utf8(b) <= Utf8(a) {
        FirstChar(b[0], Utf8(b[1..]), a[0], Utf8(a[1..]));
        assert b == [b[0]] + b[1..] && a == [a[0]] + a[1..];
      }
      if b <= a { assert b[0] == a[0] && b[1..] <= a[1..]; }
    }
  }

  lemma EqualKept(a: string, b: string)
    ensures Utf8(a) == Utf8(b) <==> a == b
  {
    PrefixKept(a, b);
    PrefixKept(b, a);
  }

  /** The bytes of a text start with a first byte. */
  lemma StartsLeading(b: string)
    requires b != []
    ensures Utf8(b) != [] && !Continues(Utf8(b)[0])
  {
    CharShape(b[0]);
  }

  /** Continuing bytes in front start nothing. */
  lemma {:induction false} ContainsAfter(x: string, y: string, n: string)
    requires (forall i | 0 <= i < |x| :: Continues(x[i])) && n != [] && !Continues(n[0])
    ensures Contains(x + y, n) <==> Contains(y, n)
  {
    if x == [] {
      assert x + y == y;
    } else {
      assert (x + y)[1..] == x[1..] + y;
      assert !(n <= x + y) by { assert (x + y)[0] == x[0]; }
      ContainsAfter(x[1..], y, n);
    }
  }

  /** What starts with a first byte is found at the front, or after the first character. */
  lemma ContainsFrom(h: string, rest: string, n: string)
    requires h != [] && (forall i | 1 <= i < |h| :: Continues(h[i])) && n != [] && !Continues(n[0])
    ensures Contains(h + rest, n) <==> n <= h + rest || Contains(rest, n)
  {
    assert (h + rest)[1..] == h[1..] + rest;
    ContainsAfter(h[1..], rest, n);
  }

  lemma {:induction false} ContainsKept(a: string, b: string)
    ensures Contains(Utf8(a), Utf8(b)) <==> Contains(a, b)
  {
    PrefixKept(b, a);
    if a != [] && b != [] {
      ContainsKept(a[1..], b);
      CharShape(a[0]);
      StartsLeading(b);
      ContainsFrom(Utf8Char(a[0]), Utf8(a[1..]), Utf8(b));
    }
  }

  lemma {:induction false} SuffixKept(a: string, b: string)
    ensures EndsWith(Utf8(a), Utf8(b)) <==> EndsWith(a, b)
  {
    if EndsWith(a, b) {
      var p := a[..|a| - |b|];
      assert a == p + b;
      Utf8Concat(p, b);
    }
    if EndsWith(Utf8(a), Utf8(b)) { SuffixFound(a, b); }
  }

  lemma {:induction false} SuffixFound(a: string, b: string)
    requires EndsWith(Utf8(a), Utf8(b))
    ensures EndsWith(a, b)
  {
    if |Utf8(a)| == |Utf8(b)| {
      assert Utf8(a)[0..] == Utf8(a);
      EqualKept(a, b);
    } else if b != [] {
      var h, rest := Utf8Char(a[0]), Utf8(a[1..]);
      var k := |Utf8(a)| - |Utf8(b)|;
      StartsLeading(b);
      CharShape(a[0]);
      assert Utf8(a)[k] == Utf8(b)[0];
      assert k >= |h|;
      assert Utf8(a)[k..] == rest[k - |h|..];
      SuffixFound(a[1..], b);
      assert a[1..][|a| - 1 - |b|..] == a[|a| - |b|..];
    }
  }
}
