/** What one consumption and one promotion leave in the feed (`consume` and `promote` in
    `xtask/src/changelog.rs`): the entry of the version, item by item, and everything else. */
module Consuming {
  import opened Options
  import opened SemVer
  import opened Feeds
  import opened Aggregates
  import opened FeedOps
  import opened FeedRuns

  // ---- the merged items ------------------------------------------------------------------

  /** Merging keeps what was there as often as it was there, and adds the rest once each. */
  lemma {:induction false} MergedCounts(a: seq<Item>, b: seq<Item>, x: Item)
    ensures multiset(Merged(a, b))[x] == if x in a then multiset(a)[x] else if x in b then 1 else 0
  {
    if b != [] {
      var init, last := b[..|b| - 1], b[|b| - 1];
      assert b == init + [last];
      MergedCounts(a, init, x);
      MergedMeans(a, init);
    }
  }

  /** The place of the first `x`. */
  function FirstAt(s: seq<Item>, x: Item): (i: nat)
    requires x in s
    ensures i < |s| && s[i] == x && forall j | 0 <= j < i :: s[j] != x
  {
    if s[0] == x then 0 else 1 + FirstAt(s[1..], x)
  }

  lemma FirstUnmoved(s: seq<Item>, more: Item, x: Item)
    requires x in s
    ensures FirstAt(s + [more], x) == FirstAt(s, x)
  {
    var i, j := FirstAt(s + [more], x), FirstAt(s, x);
    assert (s + [more])[j] == s[j];
    assert forall k | 0 <= k < j :: (s + [more])[k] == s[k];
  }

  lemma FirstIsNew(s: seq<Item>, x: Item)
    requires x !in s
    ensures FirstAt(s + [x], x) == |s|
  {
    assert forall k | 0 <= k < |s| :: (s + [x])[k] == s[k];
  }

  /** What follows `kept` stands in the order of its first appearance in `b`. */
  ghost predicate InOrderOf(m: seq<Item>, kept: nat, b: seq<Item>) {
    && kept <= |m| && (forall i | kept <= i < |m| :: m[i] in b)
    && forall i, j | kept <= i < j < |m| :: FirstAt(b, m[i]) < FirstAt(b, m[j])
  }

  lemma {:induction false} MergedInOrder(a: seq<Item>, b: seq<Item>)
    ensures a <= Merged(a, b) && InOrderOf(Merged(a, b), |a|, b)
  {
    if b != [] {
      var init, last := b[..|b| - 1], b[|b| - 1];
      assert b == init + [last];
      var m := Merged(a, init);
      MergedInOrder(a, init);
      MergedMeans(a, init);
      forall x | x in init ensures FirstAt(b, x) == FirstAt(init, x) { FirstUnmoved(init, last, x); }
      if last !in m {
        FirstIsNew(init, last);
        assert Merged(a, b) == m + [last];
      }
    }
  }

  // ---- the entry that is left ------------------------------------------------------------

  /** A fragment becomes the item with its fields; only a facade verdict of none is dropped. */
  lemma ItemOfFragment(frag: Item)
    ensures ToItem(frag).changeType == frag.changeType && ToItem(frag).en == frag.en && ToItem(frag).de == frag.de
    ensures ToItem(frag).migration == frag.migration && ToItem(frag).security == frag.security && ToItem(frag).unreleased == frag.unreleased
    ensures ToItem(frag).facade == if frag.facade == Some(Unaffected) then None else frag.facade
  {
  }

  /** The rings agree on every version but `v`. */
  ghost predicate SameBut(a: seq<Entry>, b: seq<Entry>, v: Version) {
    forall e: Entry | e.version != v :: e in a <==> e in b
  }

  lemma UpsertLeaves(ring: seq<Entry>, e: Entry)
    requires Descending(ring)
    ensures Find(Upserted(ring, e), e.version) == Some(e) && SameBut(Upserted(ring, e), ring, e.version)
  {
    UpsertKeeps(ring, e);
    FindOnly(Upserted(ring, e), e);
  }

  /** Consuming leaves one entry of the version, dated as asked, that lists what it listed as often,
      then each new item once in the order the fragments came; and changes nothing else. */
  lemma ConsumedEntry(f: Feed, v: Version, date: string, frags: seq<Item>)
    requires Descending(f.beta)
    ensures var g, was, new_ := Consumed(f, v, date, frags), ItemsOf(Find(f.beta, v)), ToItems(frags);
            && g.alpha == f.alpha && g.stable == f.stable && SameBut(g.beta, f.beta, v) && Find(g.beta, v).Some?
            && var e := Find(g.beta, v).value;
            && e.version == v && e.date == date && e.notes == NotesOf(e.items)
            && was <= e.items && InOrderOf(e.items, |was|, new_)
            && forall x :: multiset(e.items)[x] == if x in was then multiset(was)[x] else if x in new_ then 1 else 0
  {
    var was, new_ := ItemsOf(Find(f.beta, v)), ToItems(frags);
    UpsertLeaves(f.beta, BuildEntry(v, date, Merged(was, new_)));
    MergedInOrder(was, new_);
    forall x ensures multiset(Merged(was, new_))[x] == if x in was then multiset(was)[x] else if x in new_ then 1 else 0 {
      MergedCounts(was, new_, x);
    }
  }

  /** Promoting leaves one stable entry of the version, dated as its beta entry, that lists the curated
      items if there are any, and otherwise every released beta item since the stable version before
      it as often as the beta entries do; and changes nothing else. */
  lemma PromotedEntry(f: Feed, v: Version, curated: seq<Item>)
    requires Descending(f.stable) && Find(f.beta, v).Some?
    ensures var g := Promoted(f, v, curated);
            && g.alpha == f.alpha && g.beta == f.beta && SameBut(g.stable, f.stable, v) && Find(g.stable, v).Some?
            && var e := Find(g.stable, v).value;
            && e.version == v && e.date == Find(f.beta, v).value.date && e.notes == NotesOf(e.items)
            && (curated != [] ==> |e.items| == |curated| && forall i | 0 <= i < |curated| :: e.items[i] == ToItem(curated[i]))
            && (curated == [] ==> forall x :: multiset(e.items)[x] == WindowCount(f.beta, PrevOrZero(f.stable, v), v, x))
            && (curated == [] ==> InVersionOrder(e.items, Window(f.beta, PrevOrZero(f.stable, v), v)))
  {
    var lo := PrevOrZero(f.stable, v);
    UpsertLeaves(f.stable, BuildEntry(v, Find(f.beta, v).value.date, PromotedItems(f, v, curated)));
    forall x ensures multiset(Aggregate(f.beta, lo, v))[x] == WindowCount(f.beta, lo, v, x) { AggregateCounts(f.beta, lo, v, x); }
    AggregateInOrder(f.beta, lo, v);
  }
}
