/** What every run of feed operations keeps, and the conservation of items by promotion. */
module FeedRuns {
  import opened Options
  import opened SemVer
  import opened Feeds
  import opened Aggregates
  import opened FeedOps

  // ---- the invariant ---------------------------------------------------------------------

  predicate NoNone(items: seq<Item>) {
    forall i | 0 <= i < |items| :: items[i].facade != Some(Unaffected)
  }

  predicate EntryOk(e: Entry) {
    FitsU64(e.version) && e.notes == NotesOf(e.items) && NoNone(e.items)
  }

  predicate RingOk(ring: seq<Entry>) {
    Descending(ring) && forall e | e in ring :: EntryOk(e)
  }

  /** Each ring strictly newest first, notes the rendering of the items, no `facade: none`. */
  predicate FeedOk(f: Feed) {
    RingOk(f.alpha) && RingOk(f.beta) && RingOk(f.stable)
  }

  lemma UpsertOk(ring: seq<Entry>, e: Entry)
    requires RingOk(ring) && EntryOk(e)
    ensures RingOk(Upserted(ring, e))
  {
    UpsertKeeps(ring, e);
  }

  lemma {:induction false} MergedMeans(a: seq<Item>, b: seq<Item>)
    ensures a <= Merged(a, b)
    ensures forall x :: x in Merged(a, b) <==> x in a || x in b
  {
    if b != [] {
      MergedMeans(a, b[..|b| - 1]);
      assert b == b[..|b| - 1] + [b[|b| - 1]];
    }
  }

  lemma {:induction false} MergedTwice(a: seq<Item>, b: seq<Item>)
    requires forall x | x in b :: x in a
    ensures Merged(a, b) == a
  {
    if b != [] {
      assert b == b[..|b| - 1] + [b[|b| - 1]];
      MergedTwice(a, b[..|b| - 1]);
    }
  }

  predicate NoneIn(items: seq<Item>) { forall x | x in items :: x.facade != Some(Unaffected) }

  lemma NoNoneIn(items: seq<Item>)
    ensures NoNone(items) <==> NoneIn(items)
  {
  }

  lemma MergedNoNone(was: seq<Item>, added: seq<Item>)
    requires NoNone(was) && NoNone(added)
    ensures NoNone(Merged(was, added))
  {
    NoNoneIn(was);
    NoNoneIn(added);
    MergedMeans(was, added);
    NoNoneIn(Merged(was, added));
  }

  lemma FoundNoNone(ring: seq<Entry>, v: Version)
    requires RingOk(ring)
    ensures NoNone(ItemsOf(Find(ring, v)))
  {
    FindMeans(ring, v);
  }

  lemma ConsumedEntryOk(f: Feed, v: Version, date: string, frags: seq<Item>)
    requires FeedOk(f) && FitsU64(v)
    ensures EntryOk(BuildEntry(v, date, Merged(ItemsOf(Find(f.beta, v)), ToItems(frags))))
  {
    FoundNoNone(f.beta, v);
    MergedNoNone(ItemsOf(Find(f.beta, v)), ToItems(frags));
  }

  lemma ConsumedOk(f: Feed, v: Version, date: string, frags: seq<Item>)
    requires FeedOk(f) && FitsU64(v)
    ensures FeedOk(Consumed(f, v, date, frags))
  {
    ConsumedEntryOk(f, v, date, frags);
    UpsertOk(f.beta, BuildEntry(v, date, Merged(ItemsOf(Find(f.beta, v)), ToItems(frags))));
  }

  // ---- what an aggregate holds -----------------------------------------------------------

  lemma {:induction false} ReleasedOfNoNone(es: seq<Entry>)
    requires forall e | e in es :: NoNone(e.items)
    ensures NoneIn(ReleasedOf(es))
  {
    if es != [] {
      var init, last := es[..|es| - 1], es[|es| - 1];
      assert es == init + [last];
      assert last in es;
      ReleasedOfNoNone(init);
      ReleasedMeans(last.items);
      NoNoneIn(last.items);
    }
  }

  lemma AggregateNoNone(ring: seq<Entry>, lo: Version, hi: Version)
    requires RingOk(ring)
    ensures NoNone(Aggregate(ring, lo, hi))
  {
    var w := Window(ring, lo, hi);
    WindowMeans(ring, lo, hi);
    SortOldestMeans(w);
    forall e | e in SortOldest(w) ensures NoNone(e.items) { assert e in w && e in ring; }
    ReleasedOfNoNone(SortOldest(w));
    NoNoneIn(Aggregate(ring, lo, hi));
  }

  lemma PromotedOk(f: Feed, v: Version, curated: seq<Item>)
    requires FeedOk(f) && FitsU64(v) && Find(f.beta, v).Some?
    ensures FeedOk(Promoted(f, v, curated))
  {
    PromotedNoNone(f, v, curated);
    UpsertOk(f.stable, BuildEntry(v, Find(f.beta, v).value.date, PromotedItems(f, v, curated)));
  }

  lemma PromotedNoNone(f: Feed, v: Version, curated: seq<Item>)
    requires FeedOk(f)
    ensures NoNone(PromotedItems(f, v, curated))
  {
    if curated == [] { AggregateNoNone(f.beta, PrevOrZero(f.stable, v), v); }
  }

  lemma {:induction false} RenderedAgainSame(ring: seq<Entry>)
    requires forall e | e in ring :: EntryOk(e)
    ensures RenderedAgain(ring) == ring
  {
    if ring != [] {
      LastApart(ring);
      RenderedAgainSame(ring[..|ring| - 1]);
      LastStays(ring, ring[|ring| - 1]);
    }
  }

  lemma LastStays(ring: seq<Entry>, last: Entry)
    requires ring != [] && last == ring[|ring| - 1] && EntryOk(last)
    ensures RenderedAgain(ring) == RenderedAgain(ring[..|ring| - 1]) + [last]
  {
  }

  // ---- whole runs ------------------------------------------------------------------------

  datatype Op =
    | DoConsume(version: string, date: string, frags: seq<Item>)
    | DoPromote(version: string, curated: seq<Item>)
    | DoRerender(checkOnly: bool)

  /** One operation, refused ones included: those leave the feed as it is. */
  function Step(f: Feed, op: Op): Feed {
    match op
    case DoConsume(version, date, frags) => ConsumeStep(f, Components(version), date, frags)
    case DoPromote(version, curated) => PromoteStep(f, Components(version), curated)
    case DoRerender(checkOnly) =>
      if checkOnly then f else Feed(RenderedAgain(f.alpha), RenderedAgain(f.beta), RenderedAgain(f.stable))
  }

  function ConsumeStep(f: Feed, key: Option<Version>, date: string, frags: seq<Item>): Feed {
    if key.None? then f else Consumed(f, key.value, date, frags)
  }

  function PromoteStep(f: Feed, key: Option<Version>, curated: seq<Item>): Feed {
    if key.None? || Find(f.beta, key.value).None? then f else Promoted(f, key.value, curated)
  }

  function Run(f: Feed, ops: seq<Op>): Feed {
    if ops == [] then f else Step(Run(f, ops[..|ops| - 1]), ops[|ops| - 1])
  }

  /** Every old beta entry is still there, its items at the front of the new ones. */
  ghost predicate BetaGrows(f: Feed, g: Feed) {
    forall e | e in f.beta :: exists e' | e' in g.beta :: e'.version == e.version && e.items <= e'.items
  }

  lemma ConsumedGrows(f: Feed, v: Version, date: string, frags: seq<Item>)
    requires Descending(f.beta)
    ensures BetaGrows(f, Consumed(f, v, date, frags))
  {
    var items := Merged(ItemsOf(Find(f.beta, v)), ToItems(frags));
    var new_ := BuildEntry(v, date, items);
    var g := Consumed(f, v, date, frags);
    UpsertKeeps(f.beta, new_);
    assert new_ in g.beta;
    forall e | e in f.beta ensures exists e' | e' in g.beta :: e'.version == e.version && e.items <= e'.items {
      if e.version == v {
        FindOnly(f.beta, e);
        MergedMeans(e.items, ToItems(frags));
        assert new_.version == e.version && e.items <= new_.items;
      } else {
        assert e in g.beta;
      }
    }
  }

  lemma StepKeeps(f: Feed, op: Op)
    requires FeedOk(f)
    ensures FeedOk(Step(f, op)) && BetaGrows(f, Step(f, op))
    ensures Step(f, op).alpha == f.alpha
    ensures !op.DoConsume? ==> Step(f, op).beta == f.beta
    ensures !op.DoPromote? ==> Step(f, op).stable == f.stable
  {
    match op
    case DoConsume(version, date, frags) =>
      FitsKey(version);
      ConsumeKeeps(f, Components(version), date, frags);
    case DoPromote(version, curated) =>
      FitsKey(version);
      PromoteKeeps(f, Components(version), curated);
    case DoRerender(_) =>
      RenderedAgainSame(f.alpha);
      RenderedAgainSame(f.beta);
      RenderedAgainSame(f.stable);
  }

  lemma FitsKey(version: string)
    ensures Components(version).Some? ==> FitsU64(Components(version).value)
  {
    if Components(version).Some? { ReadRender(version); }
  }

  lemma ConsumeKeeps(f: Feed, key: Option<Version>, date: string, frags: seq<Item>)
    requires FeedOk(f) && (key.Some? ==> FitsU64(key.value))
    ensures FeedOk(ConsumeStep(f, key, date, frags)) && BetaGrows(f, ConsumeStep(f, key, date, frags))
  {
    if key.Some? {
      ConsumedOk(f, key.value, date, frags);
      ConsumedGrows(f, key.value, date, frags);
    }
  }

  lemma PromoteKeeps(f: Feed, key: Option<Version>, curated: seq<Item>)
    requires FeedOk(f) && (key.Some? ==> FitsU64(key.value))
    ensures FeedOk(PromoteStep(f, key, curated)) && PromoteStep(f, key, curated).beta == f.beta
  {
    if key.Some? && Find(f.beta, key.value).Some? { PromotedOk(f, key.value, curated); }
  }

  lemma GrowsTrans(f: Feed, g: Feed, h: Feed)
    requires BetaGrows(f, g) && BetaGrows(g, h)
    ensures BetaGrows(f, h)
  {
    forall e | e in f.beta ensures exists e'' | e'' in h.beta :: e''.version == e.version && e.items <= e''.items {
      var e' :| e' in g.beta && e'.version == e.version && e.items <= e'.items;
      var e'' :| e'' in h.beta && e''.version == e'.version && e'.items <= e''.items;
    }
  }

  /** Every run keeps the feed well-formed, loses no beta item, and never touches alpha. */
  lemma {:induction false} RunKeeps(f: Feed, ops: seq<Op>)
    requires FeedOk(f)
    ensures FeedOk(Run(f, ops)) && BetaGrows(f, Run(f, ops)) && Run(f, ops).alpha == f.alpha
  {
    if ops != [] {
      var init := ops[..|ops| - 1];
      RunKeeps(f, init);
      StepKeeps(Run(f, init), ops[|ops| - 1]);
      GrowsTrans(f, Run(f, init), Run(f, ops));
    }
  }

  // ---- doing it twice --------------------------------------------------------------------

  lemma UpsertTwice(ring: seq<Entry>, e: Entry)
    requires Descending(ring)
    ensures Upserted(Upserted(ring, e), e) == Upserted(ring, e)
  {
    UpsertKeeps(ring, e);
    UpsertKeeps(Upserted(ring, e), e);
    RingDetermined(Upserted(Upserted(ring, e), e), Upserted(ring, e));
  }

  /** Folding the same fragments in again changes nothing. */
  lemma ConsumedTwice(f: Feed, v: Version, date: string, frags: seq<Item>)
    requires Descending(f.beta)
    ensures Consumed(Consumed(f, v, date, frags), v, date, frags) == Consumed(f, v, date, frags)
  {
    var was := ItemsOf(Find(f.beta, v));
    var items := ToItems(frags);
    var merged := Merged(was, items);
    var e := BuildEntry(v, date, merged);
    var g := Consumed(f, v, date, frags);
    UpsertKeeps(f.beta, e);
    assert e in g.beta;
    FindOnly(g.beta, e);
    MergedMeans(was, items);
    MergedTwice(merged, items);
    UpsertTwice(f.beta, e);
  }

  lemma PrevUnmoved(ring: seq<Entry>, e: Entry)
    requires Descending(ring)
    ensures PrevVersion(Upserted(ring, e), e.version) == PrevVersion(ring, e.version)
  {
    var r := Upserted(ring, e);
    UpsertKeeps(ring, e);
    PrevMeans(ring, e.version);
    PrevMeans(r, e.version);
    var p := PrevVersion(ring, e.version);
    if p.Some? {
      var x :| x in ring && x.version == p.value;
      assert x in r;
    }
    assert IsPrev(r, e.version, p);
    PrevUnique(r, e.version, p, PrevVersion(r, e.version));
  }

  /** Promoting a version again changes nothing. */
  lemma PromotedTwice(f: Feed, v: Version, curated: seq<Item>)
    requires Descending(f.stable) && Find(f.beta, v).Some?
    ensures Promoted(Promoted(f, v, curated), v, curated) == Promoted(f, v, curated)
  {
    var e := BuildEntry(v, Find(f.beta, v).value.date, PromotedItems(f, v, curated));
    PrevUnmoved(f.stable, e);
    UpsertTwice(f.stable, e);
  }
}
