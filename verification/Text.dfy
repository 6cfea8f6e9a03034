/** The pieces of Rust's `str` the modelled code calls. */
module Text {
  /** Unicode `White_Space`, as `char::is_whitespace` reads it. */
  predicate IsWhitespace(c: char) {
    var n := c as int;
    9 <= n <= 13 || n == 0x20 || n == 0x85 || n == 0xA0 || n == 0x1680 || 0x2000 <= n <= 0x200A
    || n == 0x2028 || n == 0x2029 || n == 0x202F || n == 0x205F || n == 0x3000
  }

  /** The twenty-five characters with that property. */
  lemma SpacesWrittenOut(c: char)
    ensures IsWhitespace(c) <==>
              c in "\t\n\U{0B}\U{0C}\r \U{85}\U{A0}\U{1680}\U{2000}\U{2001}\U{2002}\U{2003}\U{2004}\U{2005}\U{2006}\U{2007}\U{2008}\U{2009}\U{200A}\U{2028}\U{2029}\U{202F}\U{205F}\U{3000}"
  {
  }

  predicate IsDigit(c: char) { '0' <= c <= '9' }

  predicate IsLower(c: char) { 'a' <= c <= 'z' }

  predicate IsAlpha(c: char) { IsLower(c) || 'A' <= c <= 'Z' }

  predicate IsAscii(s: string) {
    forall i | 0 <= i < |s| :: s[i] < 128 as char
  }

  /** Where the whitespace from `i` on ends. */
  function SpaceEnd(s: string, i: nat): (j: nat)
    requires i <= |s|
    ensures i <= j <= |s| && (j == |s| || !IsWhitespace(s[j]))
    ensures forall k | i <= k < j :: IsWhitespace(s[k])
    decreases |s| - i
  {
    if i < |s| && IsWhitespace(s[i]) then SpaceEnd(s, i + 1) else i
  }

  /** Where the whitespace up to `j` starts. */
  function SpaceStart(s: string, j: nat): (i: nat)
    requires j <= |s|
    ensures i <= j && (i == 0 || !IsWhitespace(s[i - 1]))
    ensures forall k | i <= k < j :: IsWhitespace(s[k])
  {
    if 0 < j && IsWhitespace(s[j - 1]) then SpaceStart(s, j - 1) else j
  }

  function TrimStart(s: string): string { s[SpaceEnd(s, 0)..] }

  function TrimEnd(s: string): string { s[..SpaceStart(s, |s|)] }

  function Trim(s: string): string {
    TrimEnd(TrimStart(s))
  }

  predicate AllSpace(s: string) {
    forall i | 0 <= i < |s| :: IsWhitespace(s[i])
  }

  lemma TrimStartSplit(s: string)
    ensures |TrimStart(s)| <= |s| && s[|s| - |TrimStart(s)|..] == TrimStart(s)
    ensures AllSpace(s[..|s| - |TrimStart(s)|])
  {
  }

  lemma TrimEndSplit(s: string)
    ensures TrimEnd(s) <= s && AllSpace(s[|TrimEnd(s)|..])
  {
  }

  lemma Sandwich(s: string, t: string, core: string)
    requires |t| <= |s| && s[|s| - |t|..] == t && core <= t
    ensures s == s[..|s| - |t|] + core + t[|core|..]
  {
  }

  lemma TrimSplit(s: string) returns (a: string, d: string)
    ensures AllSpace(a) && AllSpace(d) && s == a + Trim(s) + d
  {
    var t := TrimStart(s);
    a, d := s[..|s| - |t|], t[|TrimEnd(t)|..];
    TrimStartSplit(s);
    TrimEndSplit(t);
    Sandwich(s, t, TrimEnd(t));
  }

  lemma TrimStartJoin(a: string, s: string)
    requires AllSpace(a) && s != [] && !IsWhitespace(s[0])
    ensures TrimStart(a + s) == s
  {
    var t := a + s;
    var j := SpaceEnd(t, 0);
    assert t[|a|] == s[0];
    assert forall k | 0 <= k < |a| :: t[k] == a[k];
    assert j == |a|;
  }

  lemma TrimEndJoin(s: string, d: string)
    requires AllSpace(d) && s != [] && !IsWhitespace(s[|s| - 1])
    ensures TrimEnd(s + d) == s
  {
    var t := s + d;
    var i := SpaceStart(t, |t|);
    assert t[|s| - 1] == s[|s| - 1];
    assert forall k | |s| <= k < |t| :: IsWhitespace(t[k]);
    assert i == |s|;
  }

  lemma TrimJoin(a: string, s: string, d: string)
    requires AllSpace(a) && AllSpace(d) && s != [] && !IsWhitespace(s[0]) && !IsWhitespace(s[|s| - 1])
    ensures Trim(a + s + d) == s
  {
    assert a + s + d == a + (s + d);
    TrimStartJoin(a, s + d);
    TrimEndJoin(s, d);
  }

  /** `hay.contains(needle)`: read off at the front, or further on. */
  predicate Contains(hay: string, needle: string) {
    needle <= hay || (hay != [] && Contains(hay[1..], needle))
  }

  predicate EndsWith(s: string, suffix: string) {
    |suffix| <= |s| && s[|s| - |suffix|..] == suffix
  }

  /** What it means for a text to contain another, without a search. */
  lemma ContainsMeans(hay: string, needle: string)
    ensures Contains(hay, needle) <==> exists i :: 0 <= i <= |hay| && needle <= hay[i..]
  {
    assert hay[0..] == hay;
    if needle <= hay {
    } else if hay != [] {
      ContainsMeans(hay[1..], needle);
      forall i | 0 <= i <= |hay| && needle <= hay[i..]
        ensures exists j :: 0 <= j <= |hay[1..]| && needle <= hay[1..][j..]
      {
        if i > 0 { assert hay[1..][i - 1..] == hay[i..]; }
      }
      if Contains(hay[1..], needle) {
        var j :| 0 <= j <= |hay[1..]| && needle <= hay[1..][j..];
        assert hay[1..][j..] == hay[j + 1..];
      }
    }
  }

  // ---- UTF-8, each byte as the character of the same number ------------------------------

  function Utf8Char(c: char): (r: string)
    ensures r != []
    ensures c < 128 as char ==> r == [c]
    ensures c >= 128 as char ==> |r| > 1 && forall i | 0 <= i < |r| :: 128 as char <= r[i] < 256 as char
  {
    var n := c as int;
    if n < 0x80 then [c]
    else if n < 0x800 then [(0xC0 + n / 64) as char, (0x80 + n % 64) as char]
    else if n < 0x10000 then
      [(0xE0 + n / 4096) as char, (0x80 + n / 64 % 64) as char, (0x80 + n % 64) as char]
    else
      [(0xF0 + n / 262144) as char, (0x80 + n / 4096 % 64) as char, (0x80 + n / 64 % 64) as char,
       (0x80 + n % 64) as char]
  }

  /** `s.as_bytes()`. */
  function Utf8(s: string): (r: string) {
    if s == [] then [] else Utf8Char(s[0]) + Utf8(s[1..])
  }

  lemma {:induction false} Utf8Concat(a: string, b: string)
    ensures Utf8(a + b) == Utf8(a) + Utf8(b)
  {
    if a == [] {
      assert a + b == b;
    } else {
      Utf8Concat(a[1..], b);
      assert (a + b)[1..] == a[1..] + b && (a + b)[0] == a[0];
      Regroup(Utf8Char(a[0]), Utf8(a[1..]), Utf8(b));
    }
  }

  lemma Regroup(x: string, y: string, z: string)
    ensures x + (y + z) == (x + y) + z
  {
  }

  /** The bytes of a text are its characters exactly when the text is ASCII. */
  lemma {:induction false} Utf8OfAscii(s: string)
    ensures |s| <= |Utf8(s)|
    ensures Utf8(s) == s <==> IsAscii(s)
  {
    if s != [] {
      Utf8OfAscii(s[1..]);
      if s[0] < 128 as char {
        assert s == [s[0]] + s[1..];
        assert IsAscii(s) <==> IsAscii(s[1..]);
      }
    }
  }
}
