/** Copying a border thread between two logs (`copy_thread` and `exchange` in
    `crates/chat/src/border.rs`). */
module Exchange {
  import opened Options
  import opened ThreadLog

  datatype Sides = Sides(near: Log, far: Log)

  /** `to` with the ops of `ids` it did not hold. */
  function Copied(from: Log, to: Log, ids: set<string>): Log {
    to + map i | i in from && i in ids && i !in to :: from[i]
  }

  /** What one exchange leaves: a push, then a pull from the log just pushed to. A refusal on either
      side ends it there, with what the push did in place. */
  ghost function Exchanged(s: Sides, dm: DmId, thread: string): (r: (Sides, bool)) {
    var push := ThreadOpIds(s.near, dm, thread);
    if push.None? then (s, false)
    else
      var far := Copied(s.near, s.far, push.value);
      var pull := ThreadOpIds(far, dm, thread);
      if pull.None? then (Sides(s.near, far), false)
      else (Sides(Copied(far, s.near, pull.value), far), true)
  }

  /** The same two copies with the channel given and no check: what a successful exchange does. */
  function Merged(s: Sides, thread: string, channel: string): Sides {
    var far := Copied(s.near, s.far, Selected(s.near, thread, channel));
    Sides(Copied(far, s.near, Selected(far, thread, channel)), far)
  }

  // ---- a thread whose channel is recorded once -------------------------------------------

  /** Every open of the thread among `all` names the same channel and opener. */
  ghost predicate RecordedOnce(all: Log, thread: string) {
    forall i, j | i in all && j in all && Claims(all[i], ThreadKind, thread) && Claims(all[j], ThreadKind, thread) ::
      all[i].body == all[j].body && all[i].author == all[j].author
  }

  ghost predicate Rooted(log: Log, thread: string) {
    exists i :: i in log && Claims(log[i], ThreadKind, thread)
  }

  ghost predicate Logs(s: Sides, all: Log) { Within(s.near, all) && Within(s.far, all) }

  /** Any log that holds an open of the thread reads the same channel and opener. */
  lemma RootIsRecorded(log: Log, all: Log, thread: string, i: string)
    requires Within(log, all) && RecordedOnce(all, thread)
    requires i in all && Claims(all[i], ThreadKind, thread) && Rooted(log, thread)
    ensures ChannelOf(log, thread) == all[i].body.channel && OpenerOf(log, thread) == all[i].author
  {
    var k :| k in log && Claims(log[k], ThreadKind, thread);
    SomeoneHolds(log, ThreadKind, thread, k);
    var root := RootOf(log, thread).value;
    var h :| HoldsRow(log, ThreadKind, thread, h) && log[h] == root;
    assert h in all && all[h] == root;
  }

  /** Two logs that hold the root agree on where the thread lives. */
  lemma SameRoot(a: Log, b: Log, all: Log, thread: string)
    requires Within(a, all) && Within(b, all) && RecordedOnce(all, thread) && Rooted(a, thread) && Rooted(b, thread)
    ensures ChannelOf(a, thread) == ChannelOf(b, thread) && OpenerOf(a, thread) == OpenerOf(b, thread)
  {
    var i :| i in a && Claims(a[i], ThreadKind, thread);
    RootIsRecorded(a, all, thread, i);
    RootIsRecorded(b, all, thread, i);
  }

  lemma CopiedWithin(from: Log, to: Log, all: Log, ids: set<string>)
    requires Within(from, all) && Within(to, all)
    ensures Within(Copied(from, to, ids), all)
  {
  }

  /** Pushing a rooted thread pushes its root. */
  lemma RootCrosses(from: Log, to: Log, all: Log, thread: string, channel: string)
    requires Within(from, all) && Within(to, all) && Rooted(from, thread)
    ensures Rooted(Copied(from, to, Selected(from, thread, channel)), thread)
  {
    var i :| i in from && Claims(from[i], ThreadKind, thread);
    var to' := Copied(from, to, Selected(from, thread, channel));
    assert Register(from[i], thread, channel) && i in Selected(from, thread, channel);
    assert i in to' && to'[i] == all[i];
  }

  /** A successful exchange of a rooted thread is the two plain copies, in its one channel. */
  lemma ExchangeIsMerge(s: Sides, all: Log, dm: DmId, thread: string)
    requires Logs(s, all) && RecordedOnce(all, thread) && Rooted(s.near, thread)
    ensures Exchanged(s, dm, thread).1 ==> Exchanged(s, dm, thread).0 == Merged(s, thread, ChannelOf(s.near, thread))
  {
    var c := ChannelOf(s.near, thread);
    var far := Copied(s.near, s.far, Selected(s.near, thread, c));
    CopiedWithin(s.near, s.far, all, Selected(s.near, thread, c));
    RootCrosses(s.near, s.far, all, thread, c);
    SameRoot(s.near, far, all, thread);
  }

  // ---- one message at a time -------------------------------------------------------------

  /** The ops about `m` that the log selects. */
  function SelectedFor(log: Log, m: string, thread: string, channel: string): set<string> {
    if MessageIn(log, m, thread, channel) then MessageOps(log, m) else {}
  }

  lemma CopiedMessageOps(from: Log, to: Log, all: Log, m: string, thread: string, channel: string)
    requires Within(from, all) && Within(to, all)
    ensures MessageOps(Copied(from, to, Selected(from, thread, channel)), m)
         == MessageOps(to, m) + SelectedFor(from, m, thread, channel)
  {
    var to' := Copied(from, to, Selected(from, thread, channel));
    forall i ensures i in MessageOps(to', m) <==> i in MessageOps(to, m) + SelectedFor(from, m, thread, channel) {
      if i in from && i in all { assert from[i] == all[i]; }
    }
  }

  /** What both logs together say of `m`. */
  function Union(s: Sides): Log { s.near + s.far }

  lemma UnionOps(s: Sides, all: Log, m: string)
    requires Logs(s, all)
    ensures Within(Union(s), all) && MessageOps(Union(s), m) == MessageOps(s.near, m) + MessageOps(s.far, m)
  {
    forall i ensures i in MessageOps(Union(s), m) <==> i in MessageOps(s.near, m) + MessageOps(s.far, m) {}
  }

  /** Whether the two logs will agree about `m`: if either places it in the thread then both
      together do, and a log that does not hides no op about it from the other. */
  ghost predicate SettlesFor(s: Sides, m: string, thread: string, channel: string) {
    MessageIn(s.near, m, thread, channel) || MessageIn(s.far, m, thread, channel) ==>
      && MessageIn(Union(s), m, thread, channel)
      && (MessageIn(s.near, m, thread, channel) || MessageOps(s.near, m) <= MessageOps(s.far, m))
  }

  ghost predicate Settles(s: Sides, thread: string, channel: string) {
    forall m :: SettlesFor(s, m, thread, channel)
  }

  /** Copying `from`'s selection into `to`: the row of `m` becomes what both together say of it, or
      stays what it was. */
  lemma CopiedRow(from: Log, to: Log, both: Log, all: Log, m: string, thread: string, channel: string)
    requires Within(from, all) && Within(to, all) && Within(both, all)
    requires MessageIn(from, m, thread, channel) ==> MessageOps(both, m) == MessageOps(to, m) + MessageOps(from, m)
    ensures var to' := Copied(from, to, Selected(from, thread, channel));
            && Within(to', all) && MessageOps(to', m) == MessageOps(to, m) + SelectedFor(from, m, thread, channel)
            && (MessageIn(to', m, thread, channel) <==>
                if MessageIn(from, m, thread, channel) then MessageIn(both, m, thread, channel) else MessageIn(to, m, thread, channel))
  {
    var to' := Copied(from, to, Selected(from, thread, channel));
    CopiedWithin(from, to, all, Selected(from, thread, channel));
    CopiedMessageOps(from, to, all, m, thread, channel);
    var same := if MessageIn(from, m, thread, channel) then both else to;
    assert MessageOps(to', m) == MessageOps(same, m);
    RowDepends(to', same, all, m, thread, channel);
    RowDepends(same, to', all, m, thread, channel);
  }

  /** The far log's row of `m` after the push. */
  lemma FarRow(s: Sides, all: Log, m: string, thread: string, channel: string)
    requires Logs(s, all)
    ensures var far := Merged(s, thread, channel).far;
            && Within(far, all)
            && MessageOps(far, m) == MessageOps(s.far, m) + SelectedFor(s.near, m, thread, channel)
            && (MessageIn(far, m, thread, channel) <==>
                if MessageIn(s.near, m, thread, channel) then MessageIn(Union(s), m, thread, channel)
                else MessageIn(s.far, m, thread, channel))
  {
    UnionOps(s, all, m);
    CopiedRow(s.near, s.far, Union(s), all, m, thread, channel);
  }

  /** The near log's row of `m` after the pull. */
  lemma NearRow(s: Sides, all: Log, m: string, thread: string, channel: string)
    requires Logs(s, all)
    ensures var end := Merged(s, thread, channel);
            && Within(end.near, all)
            && MessageOps(end.near, m) == MessageOps(s.near, m) + SelectedFor(end.far, m, thread, channel)
            && (MessageIn(end.near, m, thread, channel) <==>
                if MessageIn(end.far, m, thread, channel) then MessageIn(Union(s), m, thread, channel)
                else MessageIn(s.near, m, thread, channel))
  {
    FarRow(s, all, m, thread, channel);
    UnionOps(s, all, m);
    CopiedRow(Merged(s, thread, channel).far, s.near, Union(s), all, m, thread, channel);
  }

  lemma HasOps(log: Log, m: string, thread: string, channel: string)
    ensures MessageIn(log, m, thread, channel) ==> MessageOps(log, m) != {}
  {
    if MessageIn(log, m, thread, channel) {
      var i :| i in log && HoldsRow(log, MessageKind, m, i);
      assert i in MessageOps(log, m);
    }
  }

  /** The sets behind one message: what near and far hold of it, before and after both copies, and
      whether near, far and both together place it in the thread. */
  lemma SameSets(near: set<string>, far: set<string>, near': set<string>, far': set<string>,
                 inNear: bool, inFar: bool, inBoth: bool, inFar': bool, inNear': bool)
    requires (inNear ==> near != {}) && (inFar' ==> far' != {}) && (inFar ==> far != {})
    requires far' == far + (if inNear then near else {}) && near' == near + (if inFar' then far' else {})
    requires inFar' == (if inNear then inBoth else inFar) && inNear' == (if inFar' then inBoth else inNear)
    ensures (if inNear' then near' else {}) == (if inFar' then far' else {})
            <==> (inNear || inFar ==> inBoth && (inNear || near <= far))
  {
    if !inNear && inFar {
      assert far' == far && near' == near + far;
      assert near' == far' <==> near <= far;
    }
  }

  /** Both logs end up selecting the same ops about `m` exactly when they settle on it. */
  lemma SameForExactly(s: Sides, all: Log, m: string, thread: string, channel: string)
    requires Logs(s, all)
    ensures var end := Merged(s, thread, channel);
            SelectedFor(end.near, m, thread, channel) == SelectedFor(end.far, m, thread, channel)
            <==> SettlesFor(s, m, thread, channel)
  {
    var end := Merged(s, thread, channel);
    FarRow(s, all, m, thread, channel);
    NearRow(s, all, m, thread, channel);
    HasOps(s.near, m, thread, channel);
    HasOps(s.far, m, thread, channel);
    HasOps(end.far, m, thread, channel);
    SameSets(MessageOps(s.near, m), MessageOps(s.far, m), MessageOps(end.near, m), MessageOps(end.far, m),
             MessageIn(s.near, m, thread, channel), MessageIn(s.far, m, thread, channel),
             MessageIn(Union(s), m, thread, channel), MessageIn(end.far, m, thread, channel), MessageIn(end.near, m, thread, channel));
  }

  // ---- the whole thread ------------------------------------------------------------------

  /** The registers are the same on both sides afterwards. */
  lemma RegistersMerge(s: Sides, all: Log, thread: string, channel: string, i: string)
    requires Logs(s, all)
    ensures var end := Merged(s, thread, channel);
            (i in end.near && Register(end.near[i], thread, channel)) <==> (i in end.far && Register(end.far[i], thread, channel))
  {
    var end := Merged(s, thread, channel);
    CopiedWithin(s.near, s.far, all, Selected(s.near, thread, channel));
    CopiedWithin(end.far, s.near, all, Selected(end.far, thread, channel));
    if i in all && Register(all[i], thread, channel) {
      assert i in s.near ==> i in Selected(s.near, thread, channel);
      assert i in end.far ==> i in Selected(end.far, thread, channel);
    }
  }

  lemma SelectedByParts(log: Log, all: Log, thread: string, channel: string, i: string)
    requires Within(log, all) && i in all
    ensures i in Selected(log, thread, channel) <==>
            if all[i].kind == MessageKind then i in SelectedFor(log, all[i].target, thread, channel)
            else i in log && Register(log[i], thread, channel)
  {
    if i in log { assert log[i] == all[i]; }
  }

  /** Whether both logs select one op, part by part. */
  lemma OpSame(s: Sides, all: Log, thread: string, channel: string, i: string)
    requires Logs(s, all) && i in all
    ensures var end := Merged(s, thread, channel);
            (i in Selected(end.near, thread, channel) <==> i in Selected(end.far, thread, channel))
            <==> (all[i].kind == MessageKind ==>
                    (i in SelectedFor(end.near, all[i].target, thread, channel) <==> i in SelectedFor(end.far, all[i].target, thread, channel)))
  {
    var end := Merged(s, thread, channel);
    MergedWithin(s, all, thread, channel);
    SelectedByParts(end.near, all, thread, channel, i);
    SelectedByParts(end.far, all, thread, channel, i);
    RegistersMerge(s, all, thread, channel, i);
  }

  lemma MergedWithin(s: Sides, all: Log, thread: string, channel: string)
    requires Logs(s, all)
    ensures Logs(Merged(s, thread, channel), all)
  {
    var far := Copied(s.near, s.far, Selected(s.near, thread, channel));
    CopiedWithin(s.near, s.far, all, Selected(s.near, thread, channel));
    CopiedWithin(far, s.near, all, Selected(far, thread, channel));
  }

  /** After both copies the two logs select the same ops of the thread exactly when they settle on
      every message. */
  lemma SelectedSameExactly(s: Sides, all: Log, thread: string, channel: string)
    requires Logs(s, all)
    ensures var end := Merged(s, thread, channel);
            Selected(end.near, thread, channel) == Selected(end.far, thread, channel) <==> Settles(s, thread, channel)
  {
    if Settles(s, thread, channel) { SettledSelects(s, all, thread, channel); }
    if Selected(Merged(s, thread, channel).near, thread, channel) == Selected(Merged(s, thread, channel).far, thread, channel) {
      SelectedSettles(s, all, thread, channel);
    }
  }

  lemma SettledSelects(s: Sides, all: Log, thread: string, channel: string)
    requires Logs(s, all) && Settles(s, thread, channel)
    ensures Selected(Merged(s, thread, channel).near, thread, channel) == Selected(Merged(s, thread, channel).far, thread, channel)
  {
    var end := Merged(s, thread, channel);
    MergedWithin(s, all, thread, channel);
    forall i ensures i in Selected(end.near, thread, channel) <==> i in Selected(end.far, thread, channel) {
      if i in all {
        OpSame(s, all, thread, channel, i);
        SameForExactly(s, all, all[i].target, thread, channel);
        assert SettlesFor(s, all[i].target, thread, channel);
      }
    }
  }

  lemma SelectedSettles(s: Sides, all: Log, thread: string, channel: string)
    requires Logs(s, all)
    requires Selected(Merged(s, thread, channel).near, thread, channel) == Selected(Merged(s, thread, channel).far, thread, channel)
    ensures Settles(s, thread, channel)
  {
    var end := Merged(s, thread, channel);
    MergedWithin(s, all, thread, channel);
    forall m ensures SettlesFor(s, m, thread, channel) {
      forall i ensures i in SelectedFor(end.near, m, thread, channel) <==> i in SelectedFor(end.far, m, thread, channel) {
        if i in all { OpSame(s, all, thread, channel, i); }
      }
      SameForExactly(s, all, m, thread, channel);
    }
  }

  /** Every message op is a post, and the posts of one message name one place. */
  ghost predicate PostsAgree(all: Log) {
    && (forall i | i in all && all[i].kind == MessageKind :: all[i].body.Post?)
    && (forall i, j | i in all && j in all && all[i].kind == MessageKind && all[j].kind == MessageKind && all[i].target == all[j].target ::
          all[i].body == all[j].body)
  }

  /** Where no two posts dispute a message, the logs settle. */
  lemma AgreedPostsSettle(s: Sides, all: Log, thread: string, channel: string)
    requires Logs(s, all) && PostsAgree(all)
    ensures Settles(s, thread, channel)
  {
    forall m ensures SettlesFor(s, m, thread, channel) {
      UnionOps(s, all, m);
      if MessageIn(s.near, m, thread, channel) || MessageIn(s.far, m, thread, channel) {
        var log := if MessageIn(s.near, m, thread, channel) then s.near else s.far;
        var i :| i in log && HoldsRow(log, MessageKind, m, i) && log[i].body == Post(Some(thread), channel);
        assert all[i] == log[i] && i in MessageOps(log, m) && i in MessageOps(Union(s), m);
        PlacedHere(Union(s), all, m, thread, channel, i);
        if j :| j in MessageOps(s.near, m) { PlacedHere(s.near, all, m, thread, channel, i); }
      }
    }
  }

  lemma PlacedHere(log: Log, all: Log, m: string, thread: string, channel: string, i: string)
    requires Within(log, all) && PostsAgree(all) && MessageOps(log, m) != {}
    requires i in all && Claims(all[i], MessageKind, m) && all[i].body == Post(Some(thread), channel)
    ensures MessageIn(log, m, thread, channel)
  {
    var j :| j in MessageOps(log, m);
    assert all[j] == log[j];
    SomeoneHolds(log, MessageKind, m, j);
    var k :| HoldsRow(log, MessageKind, m, k);
    assert all[k] == log[k];
  }

  // ---- the root and the channel afterwards -----------------------------------------------

  /** Afterwards both logs hold the root, so both still read the one channel. */
  lemma ChannelStays(s: Sides, all: Log, thread: string)
    requires Logs(s, all) && RecordedOnce(all, thread) && Rooted(s.near, thread)
    ensures var c := ChannelOf(s.near, thread);
            var end := Merged(s, thread, c);
            && Logs(end, all) && Rooted(end.near, thread) && Rooted(end.far, thread)
            && ChannelOf(end.near, thread) == c && ChannelOf(end.far, thread) == c
            && OpenerOf(end.near, thread) == OpenerOf(s.near, thread) && OpenerOf(end.far, thread) == OpenerOf(s.near, thread)
  {
    var c := ChannelOf(s.near, thread);
    var end := Merged(s, thread, c);
    CopiedWithin(s.near, s.far, all, Selected(s.near, thread, c));
    CopiedWithin(end.far, s.near, all, Selected(end.far, thread, c));
    RootCrosses(s.near, s.far, all, thread, c);
    SameRoot(s.near, end.far, all, thread);
    RootStays(s, all, thread, c);
    SameRoot(s.near, end.near, all, thread);
  }

  lemma RootStays(s: Sides, all: Log, thread: string, channel: string)
    requires Logs(s, all) && Rooted(s.near, thread)
    ensures Rooted(Merged(s, thread, channel).near, thread)
  {
    var i :| i in s.near && Claims(s.near[i], ThreadKind, thread);
    assert i in Merged(s, thread, channel).near && Merged(s, thread, channel).near[i] == s.near[i];
  }

  /** A message that either side places in the thread, while the lowest post among both logs places
      it elsewhere, is never settled. */
  lemma DisputeUnsettles(s: Sides, m: string, j: string, thread: string, channel: string)
    requires Coordinates(Union(s)) && (MessageIn(s.near, m, thread, channel) || MessageIn(s.far, m, thread, channel))
    requires HoldsRow(Union(s), MessageKind, m, j) && Union(s)[j].body != Post(Some(thread), channel)
    ensures !Settles(s, thread, channel)
  {
    assert !MessageIn(Union(s), m, thread, channel) by {
      forall i | i in Union(s) && HoldsRow(Union(s), MessageKind, m, i) ensures i == j {
        OneHolds(Union(s), MessageKind, m, i, j);
      }
    }
    assert !SettlesFor(s, m, thread, channel);
  }
}
