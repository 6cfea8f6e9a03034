/** The aggregate of a window of versions (`aggregate_items` in `xtask/src/changelog.rs`): which items
    it lists, how often, and in which order. */
module Aggregates {
  import opened SemVer
  import opened Feeds

  const ZERO := Version(0, 0, 0)

  predicate InWindow(v: Version, lo: Version, hi: Version) { Lt(lo, v) && Le(v, hi) }

  function Window(ring: seq<Entry>, lo: Version, hi: Version): seq<Entry> {
    if ring == [] then []
    else
      var init, last := ring[..|ring| - 1], ring[|ring| - 1];
      if InWindow(last.version, lo, hi) then Window(init, lo, hi) + [last] else Window(init, lo, hi)
  }

  /** `sort_by_key` oldest first is stable. */
  function InsertOldest(es: seq<Entry>, e: Entry): seq<Entry> {
    if es == [] then [e]
    else
      var last := es[|es| - 1];
      if Lt(e.version, last.version) then InsertOldest(es[..|es| - 1], e) + [last] else es + [e]
  }

  function SortOldest(es: seq<Entry>): seq<Entry> {
    if es == [] then [] else InsertOldest(SortOldest(es[..|es| - 1]), es[|es| - 1])
  }

  /** The items a stable user sees. */
  function Released(items: seq<Item>): seq<Item> {
    if items == [] then []
    else Released(items[..|items| - 1]) + if items[|items| - 1].unreleased then [] else [items[|items| - 1]]
  }

  function ReleasedOf(es: seq<Entry>): seq<Item> {
    if es == [] then [] else ReleasedOf(es[..|es| - 1]) + Released(es[|es| - 1].items)
  }

  /** The released items of the versions in `(lo, hi]`, oldest version first. */
  function Aggregate(ring: seq<Entry>, lo: Version, hi: Version): seq<Item> {
    ReleasedOf(SortOldest(Window(ring, lo, hi)))
  }

  // ---- which -----------------------------------------------------------------------------

  lemma {:induction false} ReleasedMeans(items: seq<Item>)
    ensures forall x :: x in Released(items) <==> x in items && !x.unreleased
  {
    if items != [] {
      ReleasedMeans(items[..|items| - 1]);
      assert items == items[..|items| - 1] + [items[|items| - 1]];
    }
  }

  lemma {:induction false} WindowMeans(ring: seq<Entry>, lo: Version, hi: Version)
    ensures forall e :: e in Window(ring, lo, hi) <==> e in ring && InWindow(e.version, lo, hi)
  {
    if ring != [] {
      WindowMeans(ring[..|ring| - 1], lo, hi);
      assert ring == ring[..|ring| - 1] + [ring[|ring| - 1]];
    }
  }

  lemma {:induction false} InsertOldestMeans(es: seq<Entry>, e: Entry)
    ensures forall x :: x in InsertOldest(es, e) <==> x in es || x == e
  {
    if es != [] {
      InsertOldestMeans(es[..|es| - 1], e);
      assert es == es[..|es| - 1] + [es[|es| - 1]];
    }
  }

  lemma {:induction false} SortOldestMeans(es: seq<Entry>)
    ensures forall x :: x in SortOldest(es) <==> x in es
  {
    if es != [] {
      var init, last := es[..|es| - 1], es[|es| - 1];
      SortOldestMeans(init);
      InsertOldestMeans(SortOldest(init), last);
      assert es == init + [last];
    }
  }

  // ---- how often -------------------------------------------------------------------------

  /** How often the entry lists the item for a stable user. */
  function EntryCount(e: Entry, x: Item): nat { if x.unreleased then 0 else multiset(e.items)[x] }

  /** How often the entries of the window list it. */
  function WindowCount(ring: seq<Entry>, lo: Version, hi: Version, x: Item): nat {
    if ring == [] then 0
    else
      var last := ring[|ring| - 1];
      WindowCount(ring[..|ring| - 1], lo, hi, x) + if Lt(lo, last.version) && Le(last.version, hi) then EntryCount(last, x) else 0
  }

  function ListCount(es: seq<Entry>, x: Item): nat {
    if es == [] then 0 else ListCount(es[..|es| - 1], x) + EntryCount(es[|es| - 1], x)
  }

  lemma {:induction false} ReleasedCount(items: seq<Item>, x: Item)
    ensures multiset(Released(items))[x] == if x.unreleased then 0 else multiset(items)[x]
  {
    if items != [] {
      var init, last := items[..|items| - 1], items[|items| - 1];
      ReleasedCount(init, x);
      assert items == init + [last];
    }
  }

  lemma {:induction false} ReleasedOfCount(es: seq<Entry>, x: Item)
    ensures multiset(ReleasedOf(es))[x] == ListCount(es, x)
  {
    if es != [] {
      ReleasedOfCount(es[..|es| - 1], x);
      ReleasedCount(es[|es| - 1].items, x);
    }
  }

  lemma ListCountNext(es: seq<Entry>, e: Entry, x: Item)
    ensures ListCount(es + [e], x) == ListCount(es, x) + EntryCount(e, x)
  {
    assert (es + [e])[..|es|] == es;
  }

  lemma {:induction false} InsertCount(es: seq<Entry>, e: Entry, x: Item)
    ensures ListCount(InsertOldest(es, e), x) == ListCount(es, x) + EntryCount(e, x)
  {
    if es == [] {
      ListCountNext([], e, x);
      assert [] + [e] == [e];
    } else {
      var init, last := es[..|es| - 1], es[|es| - 1];
      InsertCount(init, e, x);
      ListCountNext(InsertOldest(init, e), last, x);
      ListCountNext(es, e, x);
    }
  }

  lemma {:induction false} SortCount(es: seq<Entry>, x: Item)
    ensures ListCount(SortOldest(es), x) == ListCount(es, x)
  {
    if es != [] {
      SortCount(es[..|es| - 1], x);
      InsertCount(SortOldest(es[..|es| - 1]), es[|es| - 1], x);
    }
  }

  lemma {:induction false} WindowListCount(ring: seq<Entry>, lo: Version, hi: Version, x: Item)
    ensures ListCount(Window(ring, lo, hi), x) == WindowCount(ring, lo, hi, x)
  {
    if ring != [] {
      var init, last := ring[..|ring| - 1], ring[|ring| - 1];
      WindowListCount(init, lo, hi, x);
      ListCountNext(Window(init, lo, hi), last, x);
    }
  }

  /** The aggregate lists every item as often as the entries of the window together do: none is lost
      and none repeated, and an unreleased one is not listed. */
  lemma AggregateCounts(ring: seq<Entry>, lo: Version, hi: Version, x: Item)
    ensures multiset(Aggregate(ring, lo, hi))[x] == WindowCount(ring, lo, hi, x)
  {
    ReleasedOfCount(SortOldest(Window(ring, lo, hi)), x);
    SortCount(Window(ring, lo, hi), x);
    WindowListCount(ring, lo, hi, x);
  }

  // ---- in which order --------------------------------------------------------------------

  predicate Ascending(es: seq<Entry>) {
    forall i, j | 0 <= i < j < |es| :: !Lt(es[j].version, es[i].version)
  }

  lemma {:induction false} InsertKeepsAscending(es: seq<Entry>, e: Entry)
    requires Ascending(es)
    ensures Ascending(InsertOldest(es, e)) && multiset(InsertOldest(es, e)) == multiset(es) + multiset{e}
  {
    if es != [] {
      var init, last := es[..|es| - 1], es[|es| - 1];
      assert es == init + [last];
      if Lt(e.version, last.version) {
        InsertKeepsAscending(init, e);
        LastIsGreatest(InsertOldest(init, e), init, e, last);
      }
    }
  }

  lemma LastIsGreatest(es: seq<Entry>, init: seq<Entry>, e: Entry, last: Entry)
    requires Ascending(es) && multiset(es) == multiset(init) + multiset{e}
    requires Lt(e.version, last.version) && forall x | x in init :: !Lt(last.version, x.version)
    ensures Ascending(es + [last])
  {
    forall i | 0 <= i < |es| ensures !Lt(last.version, es[i].version) {
      assert es[i] in multiset(es);
      assert es[i] in init || es[i] == e;
    }
  }

  /** Sorting puts the entries in ascending order and changes nothing else about them. */
  lemma {:induction false} SortOldestSorts(es: seq<Entry>)
    ensures Ascending(SortOldest(es)) && multiset(SortOldest(es)) == multiset(es)
  {
    if es != [] {
      var init, last := es[..|es| - 1], es[|es| - 1];
      SortOldestSorts(init);
      InsertKeepsAscending(SortOldest(init), last);
      assert es == init + [last];
    }
  }

  /** The items are those of the entries, taken oldest version first. */
  ghost predicate InVersionOrder(items: seq<Item>, es: seq<Entry>) {
    exists sorted :: Ascending(sorted) && multiset(sorted) == multiset(es) && items == ReleasedOf(sorted)
  }

  lemma AggregateInOrder(ring: seq<Entry>, lo: Version, hi: Version)
    ensures InVersionOrder(Aggregate(ring, lo, hi), Window(ring, lo, hi))
  {
    SortOldestSorts(Window(ring, lo, hi));
  }

  /** The items of one entry keep their order: leaving out goes part by part. */
  lemma {:induction false} ReleasedKeepsOrder(a: seq<Item>, b: seq<Item>)
    ensures Released(a + b) == Released(a) + Released(b)
  {
    if b == [] {
      assert a + b == a;
    } else {
      assert (a + b)[..|a + b| - 1] == a + b[..|b| - 1];
      ReleasedKeepsOrder(a, b[..|b| - 1]);
    }
  }
}
