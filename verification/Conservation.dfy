/** Promotion conserves items: what the stable ring says, oldest release first, is what the beta ring
    released up to the last promoted version. */
module Conservation {
  import opened Options
  import opened SemVer
  import opened Feeds
  import opened Aggregates
  import opened FeedOps
  import opened FeedRuns

  // ---- windows add up --------------------------------------------------------------------

  lemma {:induction false} InsertLow(s1: seq<Entry>, s2: seq<Entry>, x: Entry)
    requires forall e | e in s2 :: Lt(x.version, e.version)
    ensures InsertOldest(s1 + s2, x) == InsertOldest(s1, x) + s2
  {
    if s2 == [] {
      assert s1 + s2 == s1;
    } else {
      var init, last := s2[..|s2| - 1], s2[|s2| - 1];
      assert s2 == init + [last] && last in s2;
      assert (s1 + s2)[..|s1 + s2| - 1] == s1 + init;
      InsertLow(s1, init, x);
    }
  }

  lemma {:induction false} InsertHigh(s1: seq<Entry>, s2: seq<Entry>, x: Entry)
    requires forall e | e in s1 :: !Lt(x.version, e.version)
    ensures InsertOldest(s1 + s2, x) == s1 + InsertOldest(s2, x)
  {
    if s2 == [] {
      assert s1 + s2 == s1;
      if s1 != [] { assert s1[|s1| - 1] in s1; }
    } else {
      var init, last := s2[..|s2| - 1], s2[|s2| - 1];
      assert s2 == init + [last];
      assert (s1 + s2)[..|s1 + s2| - 1] == s1 + init && (s1 + s2)[|s1 + s2| - 1] == last;
      InsertHigh(s1, init, x);
    }
  }

  lemma SortNext(es: seq<Entry>, x: Entry)
    ensures SortOldest(es + [x]) == InsertOldest(SortOldest(es), x)
  {
    assert (es + [x])[..|es|] == es;
  }

  lemma {:induction false} WindowSplit(ring: seq<Entry>, a: Version, b: Version, c: Version)
    requires Le(a, b) && Le(b, c)
    ensures SortOldest(Window(ring, a, c)) == SortOldest(Window(ring, a, b)) + SortOldest(Window(ring, b, c))
  {
    if ring != [] {
      var init, last := ring[..|ring| - 1], ring[|ring| - 1];
      WindowSplit(init, a, b, c);
      LtTotal(last.version, b);
      if InWindow(last.version, a, b) {
        SplitLow(init, last, a, b, c);
      } else if InWindow(last.version, b, c) {
        SplitHigh(init, last, a, b, c);
      }
    }
  }

  lemma SplitLow(init: seq<Entry>, last: Entry, a: Version, b: Version, c: Version)
    requires InWindow(last.version, a, b)
    requires SortOldest(Window(init, a, c)) == SortOldest(Window(init, a, b)) + SortOldest(Window(init, b, c))
    ensures SortOldest(Window(init, a, c) + [last])
         == SortOldest(Window(init, a, b) + [last]) + SortOldest(Window(init, b, c))
  {
    var ab, bc := Window(init, a, b), Window(init, b, c);
    SortOldestMeans(bc);
    WindowMeans(init, b, c);
    InsertLow(SortOldest(ab), SortOldest(bc), last);
    SortNext(Window(init, a, c), last);
    SortNext(ab, last);
  }

  lemma SplitHigh(init: seq<Entry>, last: Entry, a: Version, b: Version, c: Version)
    requires InWindow(last.version, b, c)
    requires SortOldest(Window(init, a, c)) == SortOldest(Window(init, a, b)) + SortOldest(Window(init, b, c))
    ensures SortOldest(Window(init, a, c) + [last])
         == SortOldest(Window(init, a, b)) + SortOldest(Window(init, b, c) + [last])
  {
    var ab, bc := Window(init, a, b), Window(init, b, c);
    SortOldestMeans(ab);
    WindowMeans(init, a, b);
    InsertHigh(SortOldest(ab), SortOldest(bc), last);
    SortNext(Window(init, a, c), last);
    SortNext(bc, last);
  }

  lemma {:induction false} ReleasedOfConcat(s1: seq<Entry>, s2: seq<Entry>)
    ensures ReleasedOf(s1 + s2) == ReleasedOf(s1) + ReleasedOf(s2)
  {
    if s2 == [] {
      assert s1 + s2 == s1;
    } else {
      var init, last := s2[..|s2| - 1], s2[|s2| - 1];
      assert (s1 + s2)[..|s1 + s2| - 1] == s1 + init && (s1 + s2)[|s1 + s2| - 1] == last;
      ReleasedOfConcat(s1, init);
    }
  }

  /** Adjacent windows lose nothing at the seam and repeat nothing, whatever order the ring is in. */
  lemma AggregateAdds(ring: seq<Entry>, a: Version, b: Version, c: Version)
    requires Le(a, b) && Le(b, c)
    ensures Aggregate(ring, a, c) == Aggregate(ring, a, b) + Aggregate(ring, b, c)
  {
    WindowSplit(ring, a, b, c);
    ReleasedOfConcat(SortOldest(Window(ring, a, b)), SortOldest(Window(ring, b, c)));
  }

  // ---- changes above a window do not reach it --------------------------------------------

  lemma {:induction false} WindowDescending(ring: seq<Entry>, lo: Version, hi: Version)
    requires Descending(ring)
    ensures Descending(Window(ring, lo, hi))
  {
    if ring != [] {
      var init, last := ring[..|ring| - 1], ring[|ring| - 1];
      WindowDescending(init, lo, hi);
      var w := Window(init, lo, hi);
      WindowMeans(init, lo, hi);
      forall i | 0 <= i < |w| ensures Lt(last.version, w[i].version) {
        assert w[i] in w;
        var k :| 0 <= k < |init| && init[k] == w[i];
        assert ring[k] == w[i];
      }
    }
  }

  lemma AggregateUnmoved(ring: seq<Entry>, e: Entry, lo: Version, hi: Version)
    requires Descending(ring) && Lt(hi, e.version)
    ensures Aggregate(Upserted(ring, e), lo, hi) == Aggregate(ring, lo, hi)
  {
    var r := Upserted(ring, e);
    UpsertKeeps(ring, e);
    WindowMeans(ring, lo, hi);
    WindowMeans(r, lo, hi);
    WindowDescending(ring, lo, hi);
    WindowDescending(r, lo, hi);
    forall x ensures x in Window(r, lo, hi) <==> x in Window(ring, lo, hi) {
      LtTotal(x.version, e.version);
    }
    RingDetermined(Window(r, lo, hi), Window(ring, lo, hi));
  }

  // ---- the invariant ---------------------------------------------------------------------

  function TopOrZero(ring: seq<Entry>): Version {
    if ring == [] then ZERO else ring[0].version
  }

  /** Each stable entry is the aggregate since the one before it. */
  predicate Conserves(stable: seq<Entry>, beta: seq<Entry>) {
    stable == [] || (stable[0].items == Aggregate(beta, TopOrZero(stable[1..]), stable[0].version)
                     && Conserves(stable[1..], beta))
  }

  /** The items of the stable ring, oldest release first. */
  function StableItems(stable: seq<Entry>): seq<Item> {
    if stable == [] then [] else StableItems(stable[1..]) + stable[0].items
  }

  lemma EmptyWindow(ring: seq<Entry>, v: Version)
    ensures Aggregate(ring, v, v) == []
  {
    WindowMeans(ring, v, v);
    if Window(ring, v, v) != [] { assert Window(ring, v, v)[0] in Window(ring, v, v); }
  }

  lemma {:induction false} ConservesTotal(stable: seq<Entry>, beta: seq<Entry>)
    requires Descending(stable) && Conserves(stable, beta)
    ensures StableItems(stable) == Aggregate(beta, ZERO, TopOrZero(stable))
  {
    if stable == [] {
      EmptyWindow(beta, ZERO);
    } else {
      ConservesTotal(stable[1..], beta);
      AggregateAdds(beta, ZERO, TopOrZero(stable[1..]), stable[0].version);
    }
  }

  lemma {:induction false} ConsumeConserves(stable: seq<Entry>, beta: seq<Entry>, e: Entry)
    requires Descending(stable) && Descending(beta) && Conserves(stable, beta)
    requires stable != [] ==> Lt(stable[0].version, e.version)
    ensures Conserves(stable, Upserted(beta, e))
  {
    if stable != [] {
      AggregateUnmoved(beta, e, TopOrZero(stable[1..]), stable[0].version);
      ConsumeConserves(stable[1..], beta, e);
    }
  }

  /** What is left of the ring when `v`, at least its newest version, is put on top. */
  function Base(stable: seq<Entry>, v: Version): seq<Entry> {
    if stable != [] && stable[0].version == v then stable[1..] else stable
  }

  lemma UpsertOnTop(stable: seq<Entry>, e: Entry)
    requires Descending(stable) && Le(TopOrZero(stable), e.version)
    ensures Upserted(stable, e) == [e] + Base(stable, e.version)
  {
    var b := Base(stable, e.version);
    UpsertKeeps(stable, e);
    assert stable != [] ==> stable == [stable[0]] + stable[1..];
    assert forall x :: x in stable && x.version != e.version <==> x in b;
    RingDetermined(Upserted(stable, e), [e] + b);
  }

  lemma PrevOfTop(stable: seq<Entry>, v: Version)
    requires Descending(stable) && Le(TopOrZero(stable), v)
    ensures PrevOrZero(stable, v) == TopOrZero(Base(stable, v))
  {
    var b := Base(stable, v);
    PrevMeans(stable, v);
    var p: Option<Version> := if b == [] then None else Some(b[0].version);
    assert forall i | 0 <= i < |stable| :: Lt(stable[i].version, v) ==> stable[i] in b;
    assert IsPrev(stable, v, p) by {
      if b != [] { assert b[0] in stable; }
    }
    PrevUnique(stable, v, p, PrevVersion(stable, v));
  }

  lemma PromoteConserves(f: Feed, v: Version)
    requires Descending(f.stable) && Conserves(f.stable, f.beta) && Find(f.beta, v).Some?
    requires Le(TopOrZero(f.stable), v)
    ensures Conserves(Promoted(f, v, []).stable, f.beta)
  {
    var e := BuildEntry(v, Find(f.beta, v).value.date, PromotedItems(f, v, []));
    UpsertOnTop(f.stable, e);
    PrevOfTop(f.stable, v);
    assert ([e] + Base(f.stable, v))[1..] == Base(f.stable, v);
  }

  // ---- runs ------------------------------------------------------------------------------

  /** Consuming adds above the last promoted version; promoting never goes back, and uses no curated
      rollup. */
  predicate InOrder(f: Feed, op: Op) {
    match op
    case DoConsume(version, _, _) =>
      Components(version).Some? && f.stable != [] ==> Lt(f.stable[0].version, Components(version).value)
    case DoPromote(version, curated) =>
      curated == [] && (Components(version).Some? ==> Le(TopOrZero(f.stable), Components(version).value))
    case DoRerender(_) => true
  }

  predicate AllInOrder(f: Feed, ops: seq<Op>) {
    ops == [] || (AllInOrder(f, ops[..|ops| - 1]) && InOrder(Run(f, ops[..|ops| - 1]), ops[|ops| - 1]))
  }

  lemma StepConserves(f: Feed, op: Op)
    requires FeedOk(f) && Conserves(f.stable, f.beta) && InOrder(f, op)
    ensures Conserves(Step(f, op).stable, Step(f, op).beta)
  {
    match op
    case DoConsume(version, date, frags) =>
      var key := Components(version);
      if key.Some? {
        var e := BuildEntry(key.value, date, Merged(ItemsOf(Find(f.beta, key.value)), ToItems(frags)));
        ConsumeConserves(f.stable, f.beta, e);
      }
    case DoPromote(version, curated) =>
      var key := Components(version);
      if key.Some? && Find(f.beta, key.value).Some? { PromoteConserves(f, key.value); }
    case DoRerender(_) =>
      RenderedAgainSame(f.beta);
      RenderedAgainSame(f.stable);
  }

  lemma {:induction false} RunConserves(f: Feed, ops: seq<Op>)
    requires FeedOk(f) && Conserves(f.stable, f.beta) && AllInOrder(f, ops)
    ensures Conserves(Run(f, ops).stable, Run(f, ops).beta)
  {
    if ops != [] {
      var init := ops[..|ops| - 1];
      RunConserves(f, init);
      RunKeeps(f, init);
      StepConserves(Run(f, init), ops[|ops| - 1]);
    }
  }

  /** From an empty stable ring: after any such run the stable items, oldest release first, are
      exactly the released beta items in `(0.0.0, last promoted]`, in order, each as often as the beta
      entries list it. */
  lemma PromotionConservesItems(f: Feed, ops: seq<Op>)
    requires FeedOk(f) && f.stable == [] && AllInOrder(f, ops)
    ensures var g := Run(f, ops);
            && StableItems(g.stable) == Aggregate(g.beta, ZERO, TopOrZero(g.stable))
            && forall x :: multiset(StableItems(g.stable))[x] == WindowCount(g.beta, ZERO, TopOrZero(g.stable), x)
  {
    RunConserves(f, ops);
    RunKeeps(f, ops);
    var g := Run(f, ops);
    ConservesTotal(g.stable, g.beta);
    forall x ensures multiset(StableItems(g.stable))[x] == WindowCount(g.beta, ZERO, TopOrZero(g.stable), x) {
      AggregateCounts(g.beta, ZERO, TopOrZero(g.stable), x);
    }
  }

  /** The window is open below: what version 0.0.0 says is never promoted. */
  lemma ZeroIsNeverPromoted(f: Feed)
    ensures PromotedItems(f, ZERO, []) == []
  {
    PrevMeans(f.stable, ZERO);
    EmptyWindow(f.beta, ZERO);
  }
}
