/** Choosing the release to compare against (`xtask/src/facade.rs`: `classify`, `select_baseline`). */
module Baseline {
  import opened Options
  import opened SemVer

  datatype Axis = NoBump | Patch | Minor | Major

  datatype Choice = Choice(tag: string, axis: Axis)

  datatype Selection = BadCurrent | Selected(choice: Option<Choice>)

  function AxisOf(prev: Version, next: Version): Axis {
    if next.major > prev.major then Major
    else if next.major == prev.major && next.minor > prev.minor then Minor
    else if next.major == prev.major && next.minor == prev.minor && next.patch > prev.patch then Patch
    else NoBump
  }

  /** The bump is the most significant component that increased with all before it equal; there is
      none exactly when the next version is not above. */
  lemma AxisMeans(prev: Version, next: Version)
    ensures AxisOf(prev, next) == Major <==> next.major > prev.major
    ensures AxisOf(prev, next) == Minor <==> next.major == prev.major && next.minor > prev.minor
    ensures AxisOf(prev, next) == Patch <==> next.major == prev.major && next.minor == prev.minor && next.patch > prev.patch
    ensures AxisOf(prev, next) == NoBump <==> !Lt(prev, next)
  {
  }

  /** Both versions must be plain SemVer. */
  function Classify(prev: string, next: string): Option<Axis> {
    match (Components(prev), Components(next))
    case (Some(p), Some(n)) => Some(AxisOf(p, n))
    case _ => None
  }

  /** The version a tag `v<plain SemVer>` names; any other tag names none. */
  function TagVersion(tag: string): Option<Version> {
    if tag != [] && tag[0] == 'v' then Components(tag[1..]) else None
  }

  /** `v` is the version of a tag at or below `current`. */
  predicate Eligible(tags: seq<string>, current: Version, v: Version) {
    Le(v, current) && exists t | t in tags :: TagVersion(t) == Some(v)
  }

  /** `v` is the greatest such. */
  ghost predicate IsBest(tags: seq<string>, current: Version, v: Version) {
    Eligible(tags, current, v) && forall w | Eligible(tags, current, w) :: Le(w, v)
  }

  /** The choice is the greatest release tag at or below the current version, in whatever order the
      tags come, with the bump from it; there is none exactly when no release tag is that low. */
  ghost predicate IsChoice(tags: seq<string>, current: Version, choice: Option<Choice>) {
    match choice
    case None => forall v :: !Eligible(tags, current, v)
    case Some(c) =>
      && c.tag in tags
      && TagVersion(c.tag).Some?
      && IsBest(tags, current, TagVersion(c.tag).value)
      && c.axis == AxisOf(TagVersion(c.tag).value, current)
  }

  method SelectBaseline(tags: seq<string>, current: string) returns (r: Selection)
    ensures r.BadCurrent? <==> Components(current).None?
    ensures r.Selected? ==> IsChoice(tags, Components(current).value, r.choice)
  {
    var cur := SemverComponents(current);
    if cur.None? { return BadCurrent; }
    var best: Option<(string, Version)> := None;
    for i := 0 to |tags|
      invariant best.None? ==> forall v :: !Eligible(tags[..i], cur.value, v)
      invariant best.Some? ==> best.value.0 in tags[..i] && TagVersion(best.value.0) == Some(best.value.1)
      invariant best.Some? ==> IsBest(tags[..i], cur.value, best.value.1)
    {
      var tag := tags[i];
      assert tags[..i + 1] == tags[..i] + [tag];
      EligibleNext(tags[..i], tag, cur.value);
      if tag == [] || tag[0] != 'v' { continue; }
      var key := SemverComponents(tag[1..]);
      if key.None? { continue; }
      if Le(key.value, cur.value) && (best.None? || Lt(best.value.1, key.value)) {
        best := Some((tag, key.value));
      }
    }
    assert tags[..|tags|] == tags;
    if best.None? { return Selected(None); }
    var (tag, key) := best.value;
    ReadRender(tag[1..]);
    RenderRead(key);
    var axis := Classify(Render(key), current);
    r := Selected(Some(Choice(tag, axis.value)));
  }

  lemma EligibleNext(tags: seq<string>, tag: string, current: Version)
    ensures forall v :: Eligible(tags + [tag], current, v) <==>
                          Eligible(tags, current, v) || (TagVersion(tag) == Some(v) && Le(v, current))
  {
    assert forall t :: t in tags + [tag] <==> t in tags || t == tag;
  }

  /** Two orders of the same tags give the same choice. */
  lemma OrderIrrelevant(tags: seq<string>, tags': seq<string>, current: Version, a: Option<Choice>, b: Option<Choice>)
    requires forall t :: t in tags <==> t in tags'
    requires IsChoice(tags, current, a) && IsChoice(tags', current, b)
    ensures a == b
  {
    forall v ensures Eligible(tags, current, v) <==> Eligible(tags', current, v) {}
    if a.Some? && b.Some? {
      var x, y := TagVersion(a.value.tag).value, TagVersion(b.value.tag).value;
      LtTotal(x, y);
      OneSpelling(a.value.tag[1..], b.value.tag[1..]);
      assert a.value.tag == "v" + a.value.tag[1..] && b.value.tag == "v" + b.value.tag[1..];
    }
  }

  /** There is no bump exactly when the current version is itself tagged. */
  lemma NoBumpMeansTagged(tags: seq<string>, current: Version, c: Choice)
    requires IsChoice(tags, current, Some(c))
    ensures c.axis == NoBump <==> TagVersion(c.tag) == Some(current)
    ensures c.axis == NoBump <==> Eligible(tags, current, current)
  {
    var v := TagVersion(c.tag).value;
    if Eligible(tags, current, current) {
      assert Le(current, v) && Le(v, current);
      LtTotal(v, current);
    }
  }

  /** Once the line `x.Y` has a release at or below the current version, the choice is on it. */
  lemma StaysOnLine(tags: seq<string>, current: Version, c: Choice, w: Version)
    requires IsChoice(tags, current, Some(c))
    requires Eligible(tags, current, w) && w.major == current.major && w.minor == current.minor
    ensures TagVersion(c.tag).value.major == current.major && TagVersion(c.tag).value.minor == current.minor
    ensures c.axis in {NoBump, Patch}
  {
  }
}
