/** Plain SemVer `X.Y.Z` (`xtask/src/version.rs`: `semver_components`), items 2 and 11 of Semantic
    Versioning 2.0.0 without pre-release and build parts. */
module SemVer {
  import opened Options
  import opened Decimal

  const U64_MAX: nat := 0xFFFF_FFFF_FFFF_FFFF

  datatype Version = Version(major: nat, minor: nat, patch: nat)

  predicate FitsU64(v: Version) {
    v.major <= 18_446_744_073_709_551_615 && v.minor <= 18_446_744_073_709_551_615 && v.patch <= 18_446_744_073_709_551_615
  }

  /** Precedence: major, then minor, then patch. */
  predicate Lt(a: Version, b: Version) {
    || a.major < b.major
    || (a.major == b.major && a.minor < b.minor)
    || (a.major == b.major && a.minor == b.minor && a.patch < b.patch)
  }

  predicate Le(a: Version, b: Version) { a == b || Lt(a, b) }

  function Render(v: Version): string {
    Digits(v.major) + ("." + (Digits(v.minor) + ("." + Digits(v.patch))))
  }

  /** `s.split('.')`. */
  function Split(s: string): (parts: seq<string>)
    ensures parts != []
  {
    if s == [] then [""]
    else if s[0] == '.' then [""] + Split(s[1..])
    else var rest := Split(s[1..]); [[s[0]] + rest[0]] + rest[1..]
  }

  predicate IsComponent(part: string) {
    Canonical(part) && Value(part) <= U64_MAX
  }

  function Components(s: string): Option<Version> {
    var parts := Split(s);
    if |parts| == 3 && IsComponent(parts[0]) && IsComponent(parts[1]) && IsComponent(parts[2]) then
      Some(Version(Value(parts[0]), Value(parts[1]), Value(parts[2])))
    else None
  }

  method SemverComponents(s: string) returns (r: Option<Version>)
    ensures r == Components(s)
  {
    var parts := Split(s);
    if |parts| != 3 { return None; }
    var nums := new nat[3];
    for i := 0 to 3
      invariant forall k | 0 <= k < i :: IsComponent(parts[k]) && nums[k] == Value(parts[k])
    {
      var part := parts[i];
      if part == "" || !AllDigits(part) { return None; }
      if |part| > 1 && part[0] == '0' { return None; }
      if Value(part) > U64_MAX { return None; }
      nums[i] := Value(part);
    }
    r := Some(Version(nums[0], nums[1], nums[2]));
  }

  // ---- the two directions of the round trip ----------------------------------------------

  lemma {:induction false} SplitFirst(a: string, rest: string)
    requires '.' !in a
    ensures Split(a + ("." + rest)) == [a] + Split(rest)
  {
    var s := a + ("." + rest);
    if a == [] {
      assert s == "." + rest;
      assert s[1..] == rest;
    } else {
      SplitFirst(a[1..], rest);
      assert s[1..] == a[1..] + ("." + rest);
      assert a == [a[0]] + a[1..];
    }
  }

  lemma {:induction false} SplitLast(a: string)
    requires '.' !in a
    ensures Split(a) == [a]
  {
    if a != [] {
      SplitLast(a[1..]);
      assert a == [a[0]] + a[1..];
    }
  }

  function Join(parts: seq<string>): string
    requires parts != []
  {
    if |parts| == 1 then parts[0] else parts[0] + ("." + Join(parts[1..]))
  }

  lemma {:induction false} SplitJoin(s: string)
    ensures Join(Split(s)) == s
  {
    if s != [] {
      SplitJoin(s[1..]);
      var rest := Split(s[1..]);
      assert s == [s[0]] + s[1..];
      if s[0] == '.' {
        assert Split(s)[1..] == rest;
      } else {
        var head := [s[0]] + rest[0];
        assert Split(s)[1..] == rest[1..];
        if |rest| > 1 {
          assert [s[0]] + (rest[0] + ("." + Join(rest[1..]))) == head + ("." + Join(rest[1..]));
        }
      }
    }
  }

  lemma DigitsComponent(n: nat)
    requires n <= U64_MAX
    ensures IsComponent(Digits(n)) && '.' !in Digits(n)
  {
    DigitsRead(n);
  }

  /** Reading a rendered version gives it back. */
  lemma RenderRead(v: Version)
    requires FitsU64(v)
    ensures Components(Render(v)) == Some(v)
  {
    DigitsComponent(v.major);
    DigitsComponent(v.minor);
    DigitsComponent(v.patch);
    SplitFirst(Digits(v.major), Digits(v.minor) + ("." + Digits(v.patch)));
    SplitFirst(Digits(v.minor), Digits(v.patch));
    SplitLast(Digits(v.patch));
    DigitsRead(v.major);
    DigitsRead(v.minor);
    DigitsRead(v.patch);
  }

  /** Rendering a read version gives back the text: one version has one spelling. */
  lemma ReadRender(s: string)
    requires Components(s).Some?
    ensures FitsU64(Components(s).value) && Render(Components(s).value) == s
  {
    var parts := Split(s);
    SplitJoin(s);
    CanonicalWritten(parts[0]);
    CanonicalWritten(parts[1]);
    CanonicalWritten(parts[2]);
    assert Join(parts) == parts[0] + ("." + Join(parts[1..]));
    assert parts[1..][1..] == [parts[2]];
    assert Join(parts[1..]) == parts[1] + ("." + Join([parts[2]]));
  }

  lemma OneSpelling(s: string, t: string)
    requires Components(s).Some? && Components(s) == Components(t)
    ensures s == t
  {
    ReadRender(s);
    ReadRender(t);
  }

  /** A text is a version exactly when it is three numbers without leading zeros, dots between them,
      each within 64 bits; and of that version. */
  lemma VersionText(s: string, v: Version)
    ensures Components(s) == Some(v) <==>
              FitsU64(v) && s == Digits(v.major) + ("." + (Digits(v.minor) + ("." + Digits(v.patch))))
  {
    if Components(s) == Some(v) { ReadRender(s); }
    if FitsU64(v) { RenderRead(v); }
  }

  lemma LtTotal(a: Version, b: Version)
    ensures Lt(a, b) || a == b || Lt(b, a)
    ensures !(Lt(a, b) && Lt(b, a))
  {
  }
}
