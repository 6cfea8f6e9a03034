/** The operations that change the feed (`xtask/src/changelog.rs`: `read_fragments`, `consume`,
    `prev_stable`, `aggregate_items`, `promote`, `rerender`). The feed file is the object's state;
    fragments arrive parsed. */
module FeedOps {
  import opened Options
  import opened SemVer
  import opened Feeds
  import opened Aggregates

  /** A parsed fragment has the fields of an item. `facade: none` is a statement about the pull
      request and is dropped here, the one place a fragment becomes an item. */
  function ToItem(frag: Item): Item {
    if frag.facade == Some(Unaffected) then frag.(facade := None) else frag
  }

  function ToItems(frags: seq<Item>): (items: seq<Item>)
    ensures |items| == |frags| && forall i | 0 <= i < |frags| :: items[i] == ToItem(frags[i])
  {
    if frags == [] then [] else ToItems(frags[..|frags| - 1]) + [ToItem(frags[|frags| - 1])]
  }

  /** Append what is not there yet. */
  function Merged(old_: seq<Item>, new_: seq<Item>): seq<Item> {
    if new_ == [] then old_
    else
      var m := Merged(old_, new_[..|new_| - 1]);
      var last := new_[|new_| - 1];
      if last in m then m else m + [last]
  }

  function ItemsOf(e: Option<Entry>): seq<Item> {
    if e.Some? then e.value.items else []
  }

  function Consumed(f: Feed, v: Version, date: string, frags: seq<Item>): Feed {
    var merged := Merged(ItemsOf(Find(f.beta, v)), ToItems(frags));
    f.(beta := Upserted(f.beta, BuildEntry(v, date, merged)))
  }

  // ---- the predecessor -------------------------------------------------------------------

  /** The greatest version of the ring below `v`, as the loop keeps it. */
  function PrevVersion(ring: seq<Entry>, v: Version): Option<Version> {
    if ring == [] then None
    else
      var best := PrevVersion(ring[..|ring| - 1], v);
      var k := ring[|ring| - 1].version;
      if Lt(k, v) && (best.None? || Lt(best.value, k)) then Some(k) else best
  }

  ghost predicate IsPrev(ring: seq<Entry>, v: Version, best: Option<Version>) {
    match best
    case None => forall e | e in ring :: !Lt(e.version, v)
    case Some(b) =>
      && Lt(b, v)
      && (exists e | e in ring :: e.version == b)
      && forall e | e in ring && Lt(e.version, v) :: Le(e.version, b)
  }

  /** `prev_stable` names a version that is in the ring, below `v`, with none between. */
  lemma {:induction false} PrevMeans(ring: seq<Entry>, v: Version)
    ensures IsPrev(ring, v, PrevVersion(ring, v))
  {
    if ring != [] {
      var init, last := ring[..|ring| - 1], ring[|ring| - 1];
      PrevMeans(init, v);
      assert ring == init + [last];
      assert last in ring;
      assert forall e | e in init :: e in ring;
      var best := PrevVersion(init, v);
      if best.Some? { LtTotal(best.value, last.version); }
    }
  }

  lemma PrevUnique(ring: seq<Entry>, v: Version, a: Option<Version>, b: Option<Version>)
    requires IsPrev(ring, v, a) && IsPrev(ring, v, b)
    ensures a == b
  {
    if a.Some? && b.Some? { LtTotal(a.value, b.value); }
  }

  /** On the line `x.Y` of a maintenance release, the predecessor is on that line when the line has
      an earlier release. */
  lemma PrevStaysOnLine(ring: seq<Entry>, v: Version, e: Entry)
    requires e in ring && Lt(e.version, v) && e.version.major == v.major && e.version.minor == v.minor
    ensures PrevVersion(ring, v).Some?
    ensures PrevVersion(ring, v).value.major == v.major && PrevVersion(ring, v).value.minor == v.minor
  {
    PrevMeans(ring, v);
  }

  // ---- promotion -------------------------------------------------------------------------

  function PrevOrZero(ring: seq<Entry>, v: Version): Version {
    match PrevVersion(ring, v)
    case None => ZERO
    case Some(p) => p
  }

  /** A curated rollup wins; otherwise the aggregate since the previous stable version. */
  function PromotedItems(f: Feed, v: Version, curated: seq<Item>): seq<Item> {
    if curated == [] then Aggregate(f.beta, PrevOrZero(f.stable, v), v) else ToItems(curated)
  }

  function Promoted(f: Feed, v: Version, curated: seq<Item>): Feed
    requires Find(f.beta, v).Some?
  {
    f.(stable := Upserted(f.stable, BuildEntry(v, Find(f.beta, v).value.date, PromotedItems(f, v, curated))))
  }

  // ---- rendering again -------------------------------------------------------------------

  function RenderedAgain(ring: seq<Entry>): (r: seq<Entry>)
    ensures |r| == |ring|
  {
    if ring == [] then []
    else
      var last := ring[|ring| - 1];
      RenderedAgain(ring[..|ring| - 1]) + [last.(notes := NotesOf(last.items))]
  }

  function Drifted(ring: seq<Entry>): seq<Version> {
    if ring == [] then []
    else
      var last := ring[|ring| - 1];
      Drifted(ring[..|ring| - 1]) + if last.notes != NotesOf(last.items) then [last.version] else []
  }

  lemma SameByParts(a: seq<Entry>, x: Entry, b: seq<Entry>, y: Entry)
    requires |a| == |b|
    ensures a + [x] == b + [y] <==> a == b && x == y
  {
    if a + [x] == b + [y] {
      assert (a + [x])[..|a|] == a && (b + [y])[..|a|] == b;
      assert (a + [x])[|a|] == x && (b + [y])[|a|] == y;
    }
  }

  lemma DriftOfLast(init: seq<Entry>, last: Entry) returns (notes: Notes)
    ensures Drifted(init + [last]) == [] <==> Drifted(init) == [] && last.notes == notes
    ensures RenderedAgain(init + [last]) == RenderedAgain(init) + [last.(notes := notes)]
  {
    notes := NotesOf(last.items);
    assert (init + [last])[..|init|] == init;
  }

  /** A last entry keeps the equivalence. */
  lemma DriftStep(ring: seq<Entry>, init: seq<Entry>, last: Entry)
    requires ring == init + [last]
    requires Drifted(init) == [] <==> RenderedAgain(init) == init
    ensures Drifted(ring) == [] <==> RenderedAgain(ring) == ring
  {
    var notes := DriftOfLast(init, last);
    SameByParts(RenderedAgain(init), last.(notes := notes), init, last);
  }

  lemma LastApart(ring: seq<Entry>)
    requires ring != []
    ensures ring == ring[..|ring| - 1] + [ring[|ring| - 1]]
  {
  }

  /** Nothing has drifted exactly when rendering again changes nothing. */
  lemma {:induction false} NoDrift(ring: seq<Entry>)
    ensures Drifted(ring) == [] <==> RenderedAgain(ring) == ring
  {
    if ring != [] {
      LastApart(ring);
      NoDrift(ring[..|ring| - 1]);
      DriftStep(ring, ring[..|ring| - 1], ring[|ring| - 1]);
    }
  }

  function Redone(e: Entry): Entry { e.(notes := Notes(Rendered(e.items, En), Rendered(e.items, De))) }

  function DriftOf(e: Entry): seq<Version> {
    if e.notes == Notes(Rendered(e.items, En), Rendered(e.items, De)) then [] else [e.version]
  }

  function Flat(parts: seq<seq<Version>>): seq<Version> {
    if parts == [] then [] else Flat(parts[..|parts| - 1]) + parts[|parts| - 1]
  }

  lemma FlatNext(parts: seq<seq<Version>>, more: seq<Version>)
    ensures Flat(parts + [more]) == Flat(parts) + more
  {
    assert (parts + [more])[..|parts|] == parts;
  }

  /** The entries in their order, each with the notes of its items. */
  lemma {:induction false} RenderedInOrder(ring: seq<Entry>, r: seq<Entry>)
    requires |r| == |ring| && forall i | 0 <= i < |ring| :: r[i] == Redone(ring[i])
    ensures RenderedAgain(ring) == r
  {
    if ring != [] {
      RenderedInOrder(ring[..|ring| - 1], r[..|r| - 1]);
      LastApart(r);
    }
  }

  /** Drift is listed entry by entry: the version of each one whose notes are not those of its items, once. */
  lemma {:induction false} DriftedInOrder(ring: seq<Entry>, parts: seq<seq<Version>>)
    requires |parts| == |ring| && forall i | 0 <= i < |ring| :: parts[i] == DriftOf(ring[i])
    ensures Drifted(ring) == Flat(parts)
  {
    if ring != [] { DriftedInOrder(ring[..|ring| - 1], parts[..|parts| - 1]); }
  }

  ghost predicate IsRedone(e: Entry, again: Entry, part: seq<Version>) { again == Redone(e) && part == DriftOf(e) }

  ghost predicate AllRedone(ring: seq<Entry>, again: seq<Entry>, parts: seq<seq<Version>>) {
    && |again| == |ring| && |parts| == |ring|
    && forall i {:trigger IsRedone(ring[i], again[i], parts[i])} | 0 <= i < |ring| :: IsRedone(ring[i], again[i], parts[i])
  }

  lemma {:induction false} Expected(ring: seq<Entry>) returns (again: seq<Entry>, parts: seq<seq<Version>>)
    ensures AllRedone(ring, again, parts)
    ensures RenderedAgain(ring) == again && Drifted(ring) == Flat(parts)
  {
    again, parts := seq(|ring|, i requires 0 <= i < |ring| => Redone(ring[i])), seq(|ring|, i requires 0 <= i < |ring| => DriftOf(ring[i]));
    RenderedInOrder(ring, again);
    DriftedInOrder(ring, parts);
  }

  // ---- the feed as it is kept ------------------------------------------------------------

  datatype Ring = Alpha | Beta | Stable

  datatype Outcome = Done | BadVersion | NoBetaEntry

  class ReleaseFeed {
    var alpha: seq<Entry>
    var beta: seq<Entry>
    var stable: seq<Entry>

    function View(): Feed
      reads this
    {
      Feed(alpha, beta, stable)
    }

    constructor (f: Feed)
      ensures View() == f
    {
      alpha, beta, stable := f.alpha, f.beta, f.stable;
    }

    /** Fold the fragments into the beta entry of `version`; with none the entry is still written. */
    method Consume(version: string, date: string, frags: seq<Item>) returns (r: Outcome)
      modifies this
      ensures Components(version).None? ==> r == BadVersion && View() == old(View())
      ensures Components(version).Some? ==>
                r == Done && View() == Consumed(old(View()), Components(version).value, date, frags)
    {
      var key := SemverComponents(version);
      if key.None? { return BadVersion; }
      var newItems := ReadFragments(frags);
      var merged := Merge(ItemsOf(Find(beta, key.value)), newItems);
      var entry := NewEntry(key.value, date, merged);
      beta := Upserted(beta, entry);
      r := Done;
    }

    method ReadFragments(frags: seq<Item>) returns (items: seq<Item>)
      ensures items == ToItems(frags)
    {
      items := [];
      for i := 0 to |frags|
        invariant items == ToItems(frags[..i])
      {
        assert frags[..i + 1][..i] == frags[..i];
        items := items + [ToItem(frags[i])];
      }
      assert frags[..|frags|] == frags;
    }

    method Merge(kept: seq<Item>, added: seq<Item>) returns (merged: seq<Item>)
      ensures merged == Merged(kept, added)
    {
      merged := kept;
      for i := 0 to |added|
        invariant merged == Merged(kept, added[..i])
      {
        assert added[..i + 1][..i] == added[..i];
        if added[i] !in merged { merged := merged + [added[i]]; }
      }
      assert added[..|added|] == added;
    }

    method NewEntry(v: Version, date: string, items: seq<Item>) returns (e: Entry)
      ensures e == BuildEntry(v, date, items)
    {
      var en := RenderNotes(items, En);
      var de := RenderNotes(items, De);
      e := Entry(v, date, items, Notes(en, de));
    }

    /** The most recent stable version strictly below `version`, as text. */
    method PrevStable(version: string) returns (r: Outcome, prev: Option<string>)
      ensures r == Done <==> Components(version).Some?
      ensures r == Done ==>
                match PrevVersion(stable, Components(version).value)
                case None => prev == None
                case Some(p) => prev == Some(Render(p))
    {
      prev := None;
      var key := SemverComponents(version);
      if key.None? { return BadVersion, None; }
      var best: Option<Version> := None;
      for i := 0 to |stable|
        invariant best == PrevVersion(stable[..i], key.value)
      {
        assert stable[..i + 1][..i] == stable[..i];
        var k := stable[i].version;
        if Lt(k, key.value) && (best.None? || Lt(best.value, k)) { best := Some(k); }
      }
      assert stable[..|stable|] == stable;
      prev := if best.None? then None else Some(Render(best.value));
      r := Done;
    }

    /** Lift `version` into the stable ring, with the date of its beta entry. */
    method Promote(version: string, curated: seq<Item>) returns (r: Outcome)
      requires forall e | e in stable :: FitsU64(e.version)
      modifies this
      ensures r != Done ==> View() == old(View())
      ensures r == Done <==> Components(version).Some? && Find(old(beta), Components(version).value).Some?
      ensures r == Done ==> View() == Promoted(old(View()), Components(version).value, curated)
    {
      var key := SemverComponents(version);
      if key.None? { return BadVersion; }
      var found := Find(beta, key.value);
      if found.None? { return NoBetaEntry; }
      var _, prev := PrevStable(version);
      var lo := ZERO;
      if prev.Some? {
        PrevMeans(stable, key.value);
        RenderRead(PrevVersion(stable, key.value).value);
        var p := SemverComponents(prev.value);
        lo := p.value;
      }
      var items: seq<Item>;
      if curated == [] {
        items := AggregateItems(beta, lo, key.value);
      } else {
        items := ToItems(curated);
      }
      var entry := NewEntry(key.value, found.value.date, items);
      stable := Upserted(stable, entry);
      r := Done;
    }

    static method AggregateItems(ring: seq<Entry>, lo: Version, hi: Version) returns (items: seq<Item>)
      ensures items == Aggregate(ring, lo, hi)
      ensures forall x :: multiset(items)[x] == WindowCount(ring, lo, hi, x)
      ensures InVersionOrder(items, Window(ring, lo, hi))
    {
      var entries: seq<Entry> := [];
      for i := 0 to |ring|
        invariant entries == Window(ring[..i], lo, hi)
      {
        assert ring[..i + 1][..i] == ring[..i];
        if InWindow(ring[i].version, lo, hi) { entries := entries + [ring[i]]; }
      }
      assert ring[..|ring|] == ring;
      var sorted := SortOldest(entries);
      items := [];
      for i := 0 to |sorted|
        invariant items == ReleasedOf(sorted[..i])
      {
        assert sorted[..i + 1][..i] == sorted[..i];
        items := items + Released(sorted[i].items);
      }
      assert sorted[..|sorted|] == sorted;
      forall x ensures multiset(items)[x] == WindowCount(ring, lo, hi, x) { AggregateCounts(ring, lo, hi, x); }
      AggregateInOrder(ring, lo, hi);
    }

    /** Derive every entry's notes from its items again; returns the entries that differed. */
    method Rerender(checkOnly: bool) returns (drifted: seq<(Ring, seq<Version>)>)
      modifies this
      ensures drifted == [(Stable, Drifted(old(stable))), (Beta, Drifted(old(beta))), (Alpha, Drifted(old(alpha)))]
      ensures View() == if checkOnly then old(View())
                        else Feed(RenderedAgain(old(alpha)), RenderedAgain(old(beta)), RenderedAgain(old(stable)))
    {
      var s, ds := RerenderRing(stable);
      var b, db := RerenderRing(beta);
      var a, da := RerenderRing(alpha);
      drifted := [(Stable, ds), (Beta, db), (Alpha, da)];
      if !checkOnly && ds + db + da != [] {
        alpha, beta, stable := a, b, s;
      } else if !checkOnly {
        NoDrift(alpha);
        NoDrift(beta);
        NoDrift(stable);
      }
    }

    static method RerenderEntry(ring: seq<Entry>, i: nat, ghost again: seq<Entry>, ghost parts: seq<seq<Version>>)
      returns (r: Entry, drifted: seq<Version>)
      requires AllRedone(ring, again, parts) && i < |ring|
      ensures r == again[i] && drifted == parts[i]
    {
      var e := ring[i];
      assert IsRedone(e, again[i], parts[i]);
      var en := RenderNotes(e.items, En);
      var de := RenderNotes(e.items, De);
      drifted := if e.notes.en != en || e.notes.de != de then [e.version] else [];
      r := e.(notes := Notes(en, de));
    }

    static method RerenderRing(ring: seq<Entry>) returns (r: seq<Entry>, drifted: seq<Version>)
      ensures r == RenderedAgain(ring) && drifted == Drifted(ring)
    {
      ghost var again, parts := Expected(ring);
      r, drifted := RerenderAll(ring, again, parts);
    }

    static method RerenderAll(ring: seq<Entry>, ghost again: seq<Entry>, ghost parts: seq<seq<Version>>) returns (r: seq<Entry>, drifted: seq<Version>)
      requires AllRedone(ring, again, parts)
      ensures r == again && drifted == Flat(parts)
    {
      r, drifted := [], [];
      for i := 0 to |ring|
        invariant r == again[..i] && drifted == Flat(parts[..i])
      {
        var e, more := RerenderEntry(ring, i, again, parts);
        FlatNext(parts[..i], more);
        assert parts[..i + 1] == parts[..i] + [more];
        r, drifted := r + [e], drifted + more;
      }
      assert again[..|ring|] == again && parts[..|ring|] == parts;
    }
  }
}
