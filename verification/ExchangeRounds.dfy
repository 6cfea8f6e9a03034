/** What a second and a third exchange of a thread do, and when an exchange succeeds
    (`exchange` in `crates/chat/src/border.rs`), for every pair of logs. */
module ExchangeRounds {
  import opened Options
  import opened ThreadLog
  import opened Exchange

  // ---- the second round of copies --------------------------------------------------------

  /** No message is hidden: one that the far log and both together place in the thread, but the near
      log does not, has no op at the near side that the far side lacks. */
  ghost predicate NothingHiddenFor(s: Sides, m: string, thread: string, channel: string) {
    !MessageIn(s.near, m, thread, channel) && MessageIn(s.far, m, thread, channel) && MessageIn(Union(s), m, thread, channel) ==>
      MessageOps(s.near, m) <= MessageOps(s.far, m)
  }

  ghost predicate NothingHidden(s: Sides, thread: string, channel: string) {
    forall m :: NothingHiddenFor(s, m, thread, channel)
  }

  /** The sets behind one message, before and after the first round. */
  lemma HiddenSets(near: set<string>, far: set<string>, near': set<string>, far': set<string>,
                   inNear: bool, inFar: bool, inBoth: bool, inFar': bool, inNear': bool)
    requires far' == far + (if inNear then near else {}) && near' == near + (if inFar' then far' else {})
    requires inFar' == (if inNear then inBoth else inFar) && inNear' == (if inFar' then inBoth else inNear)
    ensures (if inNear' then near' else {}) <= far' <==> (!inNear && inFar && inBoth ==> near <= far)
  {
    if !inNear && inFar { assert far' == far && near' == near + far; }
  }

  /** The near log then selects nothing about `m` that the far log lacks exactly when nothing about
      it was hidden. */
  lemma PushedForExactly(s: Sides, all: Log, m: string, thread: string, channel: string)
    requires Logs(s, all)
    ensures var end := Merged(s, thread, channel);
            SelectedFor(end.near, m, thread, channel) <= MessageOps(end.far, m) <==> NothingHiddenFor(s, m, thread, channel)
  {
    var end := Merged(s, thread, channel);
    FarRow(s, all, m, thread, channel);
    NearRow(s, all, m, thread, channel);
    HiddenSets(MessageOps(s.near, m), MessageOps(s.far, m), MessageOps(end.near, m), MessageOps(end.far, m),
               MessageIn(s.near, m, thread, channel), MessageIn(s.far, m, thread, channel),
               MessageIn(Union(s), m, thread, channel), MessageIn(end.far, m, thread, channel), MessageIn(end.near, m, thread, channel));
  }

  /** Copying changes nothing exactly when everything selected is there. */
  lemma CopiedSame(from: Log, to: Log, ids: set<string>)
    requires ids <= from.Keys
    ensures Copied(from, to, ids) == to <==> ids <= to.Keys
  {
    if i :| i in ids && i !in to.Keys { assert i in Copied(from, to, ids); }
  }

  lemma SelectedHeld(log: Log, thread: string, channel: string)
    ensures Selected(log, thread, channel) <= log.Keys
  {
  }

  lemma AllPushedExactly(s: Sides, all: Log, thread: string, channel: string)
    requires Logs(s, all)
    ensures var end := Merged(s, thread, channel);
            Selected(end.near, thread, channel) <= end.far.Keys <==> NothingHidden(s, thread, channel)
  {
    var end := Merged(s, thread, channel);
    MergedWithin(s, all, thread, channel);
    SelectedHeld(end.near, thread, channel);
    if NothingHidden(s, thread, channel) {
      forall i | i in Selected(end.near, thread, channel) ensures i in end.far.Keys {
        SelectedByParts(end.near, all, thread, channel, i);
        RegistersMerge(s, all, thread, channel, i);
        PushedForExactly(s, all, all[i].target, thread, channel);
        assert NothingHiddenFor(s, all[i].target, thread, channel);
      }
    }
    if Selected(end.near, thread, channel) <= end.far.Keys {
      forall m ensures NothingHiddenFor(s, m, thread, channel) {
        forall i | i in SelectedFor(end.near, m, thread, channel) ensures i in MessageOps(end.far, m) {
          SelectedByParts(end.near, all, thread, channel, i);
          assert end.near[i] == all[i] && end.far[i] == all[i];
        }
        PushedForExactly(s, all, m, thread, channel);
      }
    }
  }

  /** A second round of copies changes neither log exactly when the first hid nothing. */
  lemma MergedTwiceExactly(s: Sides, all: Log, thread: string, channel: string)
    requires Logs(s, all)
    ensures var end := Merged(s, thread, channel);
            && (Merged(end, thread, channel) == end <==> NothingHidden(s, thread, channel))
            && (Merged(end, thread, channel) == end <==> Copied(end.near, end.far, Selected(end.near, thread, channel)) == end.far)
  {
    var end := Merged(s, thread, channel);
    AllPushedExactly(s, all, thread, channel);
    SelectedHeld(end.near, thread, channel);
    SelectedHeld(end.far, thread, channel);
    CopiedSame(end.near, end.far, Selected(end.near, thread, channel));
    CopiedSame(end.far, end.near, Selected(end.far, thread, channel));
  }

  /** Where the far log places `m` in the thread, both logs together still say what they said. */
  lemma UnionStays(s: Sides, all: Log, m: string, thread: string, channel: string)
    requires Logs(s, all) && MessageIn(Merged(s, thread, channel).far, m, thread, channel)
    ensures MessageIn(Union(Merged(s, thread, channel)), m, thread, channel) ==> MessageIn(Union(s), m, thread, channel)
  {
    var end := Merged(s, thread, channel);
    MergedWithin(s, all, thread, channel);
    FarRow(s, all, m, thread, channel);
    NearRow(s, all, m, thread, channel);
    UnionOps(s, all, m);
    UnionOps(end, all, m);
    SameUnion(MessageOps(s.near, m), MessageOps(s.far, m), MessageOps(end.near, m), MessageOps(end.far, m), MessageIn(s.near, m, thread, channel));
    RowDepends(Union(end), Union(s), all, m, thread, channel);
  }

  lemma SameUnion(near: set<string>, far: set<string>, near': set<string>, far': set<string>, inNear: bool)
    requires far' == far + (if inNear then near else {}) && near' == near + far'
    ensures near' + far' == near + far
  {
  }

  /** What was hidden shows in the second round: after it nothing is. */
  lemma SecondHidesNothing(s: Sides, all: Log, thread: string, channel: string)
    requires Logs(s, all)
    ensures NothingHidden(Merged(s, thread, channel), thread, channel)
  {
    forall m ensures NothingHiddenFor(Merged(s, thread, channel), m, thread, channel) {
      NearRow(s, all, m, thread, channel);
      if MessageIn(Merged(s, thread, channel).far, m, thread, channel) { UnionStays(s, all, m, thread, channel); }
    }
  }

  /** A third round never copies anything. */
  lemma ThirdCopiesNothing(s: Sides, all: Log, thread: string, channel: string)
    requires Logs(s, all)
    ensures var second := Merged(Merged(s, thread, channel), thread, channel); Merged(second, thread, channel) == second
  {
    MergedWithin(s, all, thread, channel);
    SecondHidesNothing(s, all, thread, channel);
    MergedTwiceExactly(Merged(s, thread, channel), all, thread, channel);
  }

  /** A pair of logs whose second round does copy: the near log holds a later post of the message that
      places it in another thread, which the far log gets to see only once the near log has its. */
  function Disputed(): Sides {
    Sides(map["z" := Op(MessageKind, "m", Post(Some("other"), "c"), "eve", 2, 1)],
          map["w" := Op(MessageKind, "m", Post(Some("t"), "c"), "ann", 1, 2)])
  }

  lemma DisputedCopiesTwice()
    ensures var end := Merged(Disputed(), "t", "c"); Merged(end, "t", "c") != end
  {
    var s := Disputed();
    var u := Union(s);
    assert u["w"].lamport < u["z"].lamport && Rank("w", u["w"]) == 1 && Rank("z", u["z"]) == 1;
    assert HoldsRow(s.far, MessageKind, "m", "w") && HoldsRow(u, MessageKind, "m", "w");
    assert MessageIn(s.far, "m", "t", "c") && MessageIn(u, "m", "t", "c");
    assert !MessageIn(s.near, "m", "t", "c");
    assert "z" in MessageOps(s.near, "m") && "z" !in MessageOps(s.far, "m");
    assert !NothingHiddenFor(s, "m", "t", "c");
    MergedTwiceExactly(s, u, "t", "c");
  }

  // ---- the members afterwards ------------------------------------------------------------

  /** The channel's tags in `kept` once the channel's memberships of `other` are copied in: the adds of
      both, less what a remove in `kept` names and what a remove of this channel in `other` names. */
  function LiveOver(kept: Log, other: Log, channel: string): set<string> {
    (set i | i in kept && AddedTo(kept[i], channel).Some? && Unremoved(kept, other, channel, i))
    + (set i | i in other && AddedTo(other[i], channel).Some? && Unremoved(kept, other, channel, i))
  }

  predicate Unremoved(kept: Log, other: Log, channel: string, i: string) {
    && !(exists r | r in kept :: Removes(kept[r], i))
    && !(exists r | r in other :: HasPrefix(channel, other[r].target) && Removes(other[r], i))
  }

  lemma CopiedLive(from: Log, to: Log, all: Log, thread: string, channel: string)
    requires Within(from, all) && Within(to, all)
    ensures LiveTags(Copied(from, to, Selected(from, thread, channel)), channel) == LiveOver(to, from, channel)
  {
    var to' := Copied(from, to, Selected(from, thread, channel));
    CopiedWithin(from, to, all, Selected(from, thread, channel));
    forall i ensures i in LiveTags(to', channel) <==> i in LiveOver(to, from, channel) {
      CopiedTag(from, to, to', all, thread, channel, i);
      CopiedRemoves(from, to, to', all, thread, channel, i);
    }
  }

  lemma CopiedTag(from: Log, to: Log, to': Log, all: Log, thread: string, channel: string, i: string)
    requires Within(from, all) && Within(to, all) && to' == Copied(from, to, Selected(from, thread, channel))
    ensures i in to' && AddedTo(to'[i], channel).Some? <==>
            (i in to && AddedTo(to[i], channel).Some?) || (i in from && AddedTo(from[i], channel).Some?)
  {
    if i in from && AddedTo(from[i], channel).Some? {
      assert Register(from[i], thread, channel) && i in Selected(from, thread, channel);
      assert i in to ==> to[i] == all[i] == from[i];
    }
  }

  lemma CopiedRemoves(from: Log, to: Log, to': Log, all: Log, thread: string, channel: string, i: string)
    requires Within(from, all) && Within(to, all) && to' == Copied(from, to, Selected(from, thread, channel))
    ensures !(exists r | r in to' :: Removes(to'[r], i)) <==> Unremoved(to, from, channel, i)
  {
    if r :| r in from && HasPrefix(channel, from[r].target) && Removes(from[r], i) {
      assert Register(from[r], thread, channel) && r in Selected(from, thread, channel);
      assert r in to ==> to[r] == all[r] == from[r];
      assert r in to' && Removes(to'[r], i);
    }
    if r :| r in to && Removes(to[r], i) { assert r in to' && Removes(to'[r], i); }
    if r :| r in to' && Removes(to'[r], i) && r !in to { assert Removes(from[r], i) && Register(from[r], thread, channel); }
  }

  /** The tags live at the near log after both copies. */
  lemma NearLive(s: Sides, all: Log, thread: string, channel: string)
    requires Logs(s, all)
    ensures LiveTags(Merged(s, thread, channel).near, channel) == LiveOver(s.near, s.far, channel)
  {
    var far := Merged(s, thread, channel).far;
    CopiedWithin(s.near, s.far, all, Selected(s.near, thread, channel));
    CopiedLive(far, s.near, all, thread, channel);
    forall i ensures i in LiveOver(s.near, far, channel) <==> i in LiveOver(s.near, s.far, channel) {
      CopiedTag(s.near, s.far, far, all, thread, channel, i);
      PushedRemoves(s, far, all, thread, channel, i);
    }
  }

  lemma PushedRemoves(s: Sides, far: Log, all: Log, thread: string, channel: string, i: string)
    requires Logs(s, all) && far == Copied(s.near, s.far, Selected(s.near, thread, channel))
    ensures Unremoved(s.near, far, channel, i) <==> Unremoved(s.near, s.far, channel, i)
  {
    if r :| r in s.far && HasPrefix(channel, s.far[r].target) && Removes(s.far[r], i) { assert r in far && far[r] == s.far[r]; }
    if r :| r in far && HasPrefix(channel, far[r].target) && Removes(far[r], i) && r !in s.far { assert Removes(s.near[r], i); }
  }

  /** After both copies the far log's tags are the same with the near log's memberships once more. */
  lemma FarLiveStays(s: Sides, all: Log, thread: string, channel: string)
    requires Logs(s, all)
    ensures var end := Merged(s, thread, channel); LiveOver(end.far, end.near, channel) == LiveTags(end.far, channel)
  {
    var end := Merged(s, thread, channel);
    MergedWithin(s, all, thread, channel);
    forall i ensures i in LiveOver(end.far, end.near, channel) <==> i in LiveTags(end.far, channel) {
      RegistersMerge(s, all, thread, channel, i);
      if r :| r in end.near && HasPrefix(channel, end.near[r].target) && Removes(end.near[r], i) {
        RegistersMerge(s, all, thread, channel, r);
        assert end.near[r] == all[r] == end.far[r];
        assert Removes(end.far[r], i);
      }
      if i in end.near && AddedTo(end.near[i], channel).Some? { assert end.near[i] == all[i] && i in end.far && end.far[i] == all[i]; }
    }
  }

  // ---- when an exchange succeeds ---------------------------------------------------------

  /** The tags are those of adds to the channel. */
  ghost predicate AreTags(log: Log, tags: set<string>, channel: string) {
    forall i | i in tags :: i in log && AddedTo(log[i], channel).Some?
  }

  lemma DirectAlike(a: Log, b: Log, all: Log, tags: set<string>, dm: DmId, channel: string, opener: string)
    requires Within(a, all) && Within(b, all) && AreTags(a, tags, channel) && AreTags(b, tags, channel)
    ensures DirectWith(a, tags, dm, channel, opener) ==> DirectWith(b, tags, dm, channel, opener)
  {
    if DirectWith(a, tags, dm, channel, opener) {
      var i, j :| i in tags && j in tags && i != j && tags == {i, j}
        && var x, y := AddedTo(a[i], channel).value, AddedTo(a[j], channel).value;
           channel == dm(multiset{x, y}) && (opener == x || opener == y);
      assert a[i] == all[i] == b[i] && a[j] == all[j] == b[j];
    }
  }

  lemma UnionTags(s: Sides, all: Log, kept: Log, other: Log, channel: string)
    requires Logs(s, all) && ((kept == s.near && other == s.far) || (kept == s.far && other == s.near))
    ensures Within(Union(s), all) && AreTags(Union(s), LiveOver(kept, other, channel), channel)
  {
    forall i | i in LiveOver(kept, other, channel) ensures i in Union(s) && AddedTo(Union(s)[i], channel).Some? {
      assert i in all && Union(s)[i] == all[i];
    }
  }

  /** With the near log's memberships copied in, the far log sees the direct conversation. */
  ghost predicate FarAccepts(s: Sides, all: Log, dm: DmId, channel: string, opener: string)
    requires Logs(s, all)
  {
    UnionTags(s, all, s.far, s.near, channel);
    DirectWith(Union(s), LiveOver(s.far, s.near, channel), dm, channel, opener)
  }

  /** With the far log's memberships copied in, the near log sees the direct conversation. */
  ghost predicate NearAccepts(s: Sides, all: Log, dm: DmId, channel: string, opener: string)
    requires Logs(s, all)
  {
    UnionTags(s, all, s.near, s.far, channel);
    DirectWith(Union(s), LiveOver(s.near, s.far, channel), dm, channel, opener)
  }

  /** A log within `all` whose live tags are `tags` is direct as the union says. */
  lemma DirectByTags(s: Sides, log: Log, all: Log, tags: set<string>, dm: DmId, channel: string, opener: string)
    requires Logs(s, all) && Within(Union(s), all) && Within(log, all) && LiveTags(log, channel) == tags && AreTags(Union(s), tags, channel)
    ensures IsDirect(log, dm, channel, opener) <==> DirectWith(Union(s), tags, dm, channel, opener)
  {
    DirectAlike(log, Union(s), all, tags, dm, channel, opener);
    DirectAlike(Union(s), log, all, tags, dm, channel, opener);
  }

  /** Where the thread's channel and opener are read, the near log and what it pushes. */
  lemma PushedPlace(s: Sides, all: Log, thread: string, channel: string)
    requires Logs(s, all) && RecordedOnce(all, thread) && Rooted(s.near, thread) && channel == ChannelOf(s.near, thread)
    ensures var far := Copied(s.near, s.far, Selected(s.near, thread, channel));
            Within(far, all) && ChannelOf(far, thread) == channel && OpenerOf(far, thread) == OpenerOf(s.near, thread)
  {
    CopiedWithin(s.near, s.far, all, Selected(s.near, thread, channel));
    RootCrosses(s.near, s.far, all, thread, channel);
    SameRoot(s.near, Copied(s.near, s.far, Selected(s.near, thread, channel)), all, thread);
  }

  /** An exchange of a rooted thread recorded once succeeds exactly when the near log's live tags are
      those of a direct conversation with the opener, and so are the far log's with the near log's
      memberships added. */
  lemma SucceedsExactly(s: Sides, all: Log, dm: DmId, thread: string)
    requires Logs(s, all) && RecordedOnce(all, thread) && Rooted(s.near, thread)
    ensures var c, o := ChannelOf(s.near, thread), OpenerOf(s.near, thread);
            Exchanged(s, dm, thread).1 <==> IsDirect(s.near, dm, c, o) && FarAccepts(s, all, dm, c, o)
  {
    var c, o := ChannelOf(s.near, thread), OpenerOf(s.near, thread);
    var far := Copied(s.near, s.far, Selected(s.near, thread, c));
    PushedPlace(s, all, thread, c);
    CopiedLive(s.near, s.far, all, thread, c);
    UnionTags(s, all, s.far, s.near, c);
    DirectByTags(s, far, all, LiveOver(s.far, s.near, c), dm, c, o);
    assert Direct(far, dm, thread) <==> FarAccepts(s, all, dm, c, o);
  }

  /** What is known after a successful exchange. */
  lemma AfterSuccess(s: Sides, all: Log, dm: DmId, thread: string, c: string, o: string)
    requires Logs(s, all) && RecordedOnce(all, thread) && Rooted(s.near, thread)
    requires c == ChannelOf(s.near, thread) && o == OpenerOf(s.near, thread)
    requires IsDirect(s.near, dm, c, o) && FarAccepts(s, all, dm, c, o)
    ensures var end := Merged(s, thread, c);
            && Exchanged(s, dm, thread) == (end, true) && Logs(end, all) && Rooted(end.near, thread)
            && ChannelOf(end.near, thread) == c && OpenerOf(end.near, thread) == o
            && ChannelOf(end.far, thread) == c && OpenerOf(end.far, thread) == o
            && IsDirect(end.far, dm, c, o) && FarAccepts(end, all, dm, c, o)
            && (IsDirect(end.near, dm, c, o) <==> NearAccepts(s, all, dm, c, o))
  {
    var end := Merged(s, thread, c);
    SucceedsExactly(s, all, dm, thread);
    ExchangeIsMerge(s, all, dm, thread);
    ChannelStays(s, all, thread);
    CopiedLive(s.near, s.far, all, thread, c);
    UnionTags(s, all, s.far, s.near, c);
    DirectByTags(s, end.far, all, LiveOver(s.far, s.near, c), dm, c, o);
    NearLive(s, all, thread, c);
    UnionTags(s, all, s.near, s.far, c);
    DirectByTags(s, end.near, all, LiveOver(s.near, s.far, c), dm, c, o);
    FarLiveStays(s, all, thread, c);
    UnionTags(end, all, end.far, end.near, c);
    DirectByTags(end, end.far, all, LiveTags(end.far, c), dm, c, o);
  }

  /** After a successful exchange, for every pair of logs: the second succeeds exactly when the near
      log still sees the direct conversation; it copies nothing exactly when it is refused or the
      first hid nothing; and both logs select the same ops exactly when they settled and neither
      refuses. */
  lemma SecondExactly(s: Sides, all: Log, dm: DmId, thread: string)
    requires Logs(s, all) && RecordedOnce(all, thread) && Rooted(s.near, thread)
    requires IsDirect(s.near, dm, ChannelOf(s.near, thread), OpenerOf(s.near, thread))
    requires FarAccepts(s, all, dm, ChannelOf(s.near, thread), OpenerOf(s.near, thread))
    ensures var c, o, end := ChannelOf(s.near, thread), OpenerOf(s.near, thread), Exchanged(s, dm, thread).0;
            && Exchanged(s, dm, thread).1
            && (Exchanged(end, dm, thread).1 <==> NearAccepts(s, all, dm, c, o))
            && (Exchanged(end, dm, thread).0 == end <==> !NearAccepts(s, all, dm, c, o) || NothingHidden(s, thread, c))
            && (ThreadOpIds(end.near, dm, thread) == ThreadOpIds(end.far, dm, thread)
                <==> NearAccepts(s, all, dm, c, o) && Settles(s, thread, c))
  {
    var c, o := ChannelOf(s.near, thread), OpenerOf(s.near, thread);
    var end := Merged(s, thread, c);
    AfterSuccess(s, all, dm, thread, c, o);
    SecondOf(end, all, dm, thread, c, o);
    MergedTwiceExactly(s, all, thread, c);
    SelectedSameExactly(s, all, thread, c);
    SameOpIds(end.near, end.far, dm, thread, c);
  }

  /** An exchange where the far log accepts: the near log alone decides whether it goes through. */
  lemma SecondOf(s: Sides, all: Log, dm: DmId, thread: string, c: string, o: string)
    requires Logs(s, all) && RecordedOnce(all, thread) && Rooted(s.near, thread)
    requires c == ChannelOf(s.near, thread) && o == OpenerOf(s.near, thread) && FarAccepts(s, all, dm, c, o)
    ensures Exchanged(s, dm, thread) == if IsDirect(s.near, dm, c, o) then (Merged(s, thread, c), true) else (s, false)
  {
    SucceedsExactly(s, all, dm, thread);
    ExchangeIsMerge(s, all, dm, thread);
  }

  lemma SameOpIds(a: Log, b: Log, dm: DmId, thread: string, c: string)
    requires ChannelOf(a, thread) == c && ChannelOf(b, thread) == c && Direct(b, dm, thread)
    ensures ThreadOpIds(a, dm, thread) == ThreadOpIds(b, dm, thread)
            <==> Direct(a, dm, thread) && Selected(a, thread, c) == Selected(b, thread, c)
  {
  }

  /** And a third exchange never copies anything. */
  lemma ThirdExchange(s: Sides, all: Log, dm: DmId, thread: string)
    requires Logs(s, all) && RecordedOnce(all, thread) && Rooted(s.near, thread)
    requires IsDirect(s.near, dm, ChannelOf(s.near, thread), OpenerOf(s.near, thread))
    requires FarAccepts(s, all, dm, ChannelOf(s.near, thread), OpenerOf(s.near, thread))
    ensures var second := Exchanged(Exchanged(s, dm, thread).0, dm, thread).0; Exchanged(second, dm, thread).0 == second
  {
    var c, o := ChannelOf(s.near, thread), OpenerOf(s.near, thread);
    var end := Merged(s, thread, c);
    AfterSuccess(s, all, dm, thread, c, o);
    SecondExactly(s, all, dm, thread);
    if NearAccepts(s, all, dm, c, o) {
      SecondExactly(end, all, dm, thread);
      SecondHidesNothing(s, all, thread, c);
    }
  }

  // ---- everything of the thread crosses --------------------------------------------------

  /** An op of the thread, of its channel, or below the channel: what crosses whatever the messages
      say. */
  ghost predicate OfPlace(op: Op, thread: string, channel: string) {
    || (op.kind == ThreadKind && op.target == thread)
    || (op.kind == ChannelKind && op.target == channel)
    || (op.kind == MembershipKind && Below(channel, op.target))
  }

  /** After both copies each such op that either log held is in both; so is every op about a message
      the near log placed in the thread in the far log, and about one the far log then does in the
      near log. */
  lemma EverythingCrosses(s: Sides, all: Log, thread: string, channel: string, i: string)
    requires Logs(s, all) && (i in s.near || i in s.far)
    ensures var end := Merged(s, thread, channel);
            && (OfPlace(all[i], thread, channel) ==> i in end.near && i in end.far)
            && (i in s.near && all[i].kind == MessageKind && MessageIn(s.near, all[i].target, thread, channel) ==> i in end.far)
            && (i in end.far && all[i].kind == MessageKind && MessageIn(end.far, all[i].target, thread, channel) ==> i in end.near)
  {
    var end := Merged(s, thread, channel);
    MergedWithin(s, all, thread, channel);
    if i in s.near { SelectedMeans(s.near, thread, channel, i); }
    if i in end.far { SelectedMeans(end.far, thread, channel, i); }
  }

  /** So a successful exchange of a thread recorded once leaves every op of its place in both logs. */
  lemma ExchangeCarries(s: Sides, all: Log, dm: DmId, thread: string, i: string)
    requires Logs(s, all) && RecordedOnce(all, thread) && Rooted(s.near, thread) && (i in s.near || i in s.far)
    requires OfPlace(all[i], thread, ChannelOf(s.near, thread))
    ensures var (end, ok) := Exchanged(s, dm, thread); ok ==> i in end.near && i in end.far
  {
    ExchangeIsMerge(s, all, dm, thread);
    EverythingCrosses(s, all, thread, ChannelOf(s.near, thread), i);
  }

  /** Whatever the logs hold: a success puts every op of the thread, as the near log places it, into the
      far log, and every one, as the far log then places it, into the near log; nothing is lost. */
  lemma PushedAndPulled(s: Sides, dm: DmId, thread: string, i: string)
    ensures var (end, ok) := Exchanged(s, dm, thread);
            && s.near.Keys <= end.near.Keys && s.far.Keys <= end.far.Keys
            && (ok && i in s.near && OfThread(s.near, i, thread, ChannelOf(s.near, thread)) ==> i in end.far)
            && (ok && i in end.far && OfThread(end.far, i, thread, ChannelOf(end.far, thread)) ==> i in end.near)
  {
    var end := Exchanged(s, dm, thread).0;
    SelectedMeans(s.near, thread, ChannelOf(s.near, thread), i);
    SelectedMeans(end.far, thread, ChannelOf(end.far, thread), i);
  }

  // ---- logs nobody disputes --------------------------------------------------------------

  /** Logs that settle hide nothing. */
  lemma SettledHideNothing(s: Sides, thread: string, channel: string)
    requires Settles(s, thread, channel)
    ensures NothingHidden(s, thread, channel)
  {
    forall m ensures NothingHiddenFor(s, m, thread, channel) { assert SettlesFor(s, m, thread, channel); }
  }

  /** A remove names only tags of adds of its own target, as the writer observed them. */
  ghost predicate ObservedRemoves(all: Log) {
    forall r, i | r in all && i in all && all[r].kind == MembershipKind && all[r].body.Remove? && i in all[r].body.tags
                  && all[i].kind == MembershipKind && all[i].body.Add? ::
      all[r].target == all[i].target
  }

  /** Then both sides see the same members. */
  lemma SameMembers(s: Sides, all: Log, channel: string)
    requires Logs(s, all) && ObservedRemoves(all)
    ensures LiveOver(s.near, s.far, channel) == LiveOver(s.far, s.near, channel)
  {
    forall i | (i in s.near && AddedTo(s.near[i], channel).Some?) || (i in s.far && AddedTo(s.far[i], channel).Some?)
      ensures Unremoved(s.near, s.far, channel, i) <==> Unremoved(s.far, s.near, channel, i) {
      ObservedUnremoved(s.near, s.far, all, channel, i);
      ObservedUnremoved(s.far, s.near, all, channel, i);
    }
  }

  lemma ObservedUnremoved(kept: Log, other: Log, all: Log, channel: string, i: string)
    requires Within(kept, all) && Within(other, all) && ObservedRemoves(all) && i in all && AddedTo(all[i], channel).Some?
    ensures Unremoved(kept, other, channel, i) ==> Unremoved(other, kept, channel, i)
  {
    if r :| r in other && Removes(other[r], i) { assert other[r] == all[r] && HasPrefix(channel, other[r].target); }
    if r :| r in kept && HasPrefix(channel, kept[r].target) && Removes(kept[r], i) { assert Removes(kept[r], i); }
  }

  /** So with posts nobody disputes and observed removes, both logs then select the same ops, neither
      refuses, and a second exchange succeeds and copies nothing. */
  lemma UndisputedTwice(s: Sides, all: Log, dm: DmId, thread: string)
    requires Logs(s, all) && RecordedOnce(all, thread) && Rooted(s.near, thread) && PostsAgree(all) && ObservedRemoves(all)
    requires IsDirect(s.near, dm, ChannelOf(s.near, thread), OpenerOf(s.near, thread))
    requires FarAccepts(s, all, dm, ChannelOf(s.near, thread), OpenerOf(s.near, thread))
    ensures var end := Exchanged(s, dm, thread).0;
            && ThreadOpIds(end.near, dm, thread) == ThreadOpIds(end.far, dm, thread)
            && Exchanged(end, dm, thread) == (end, true)
  {
    var c := ChannelOf(s.near, thread);
    SecondExactly(s, all, dm, thread);
    AgreedPostsSettle(s, all, thread, c);
    SettledHideNothing(s, thread, c);
    SameMembers(s, all, c);
  }
}
