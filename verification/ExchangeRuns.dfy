/** Whole runs of exchanges between two logs, and the log objects that carry them out
    (`crates/chat/src/border.rs`). */
module ExchangeRuns {
  import opened Options
  import opened Decimal
  import opened ThreadLog
  import opened Exchange

  /** Anything may be written into a log at any time; an exchange is run by the side that records
      the thread, which holds the op that opened it. */
  datatype Step =
    | WriteNear(ops: Log)
    | WriteFar(ops: Log)
    | FromNear(thread: string)
    | FromFar(thread: string)

  ghost function After(s: Sides, dm: DmId, step: Step): Sides {
    match step
    case WriteNear(ops) => s.(near := s.near + ops)
    case WriteFar(ops) => s.(far := s.far + ops)
    case FromNear(thread) => Exchanged(s, dm, thread).0
    case FromFar(thread) => var back := Exchanged(Sides(s.far, s.near), dm, thread).0; Sides(back.far, back.near)
  }

  ghost predicate Allowed(s: Sides, all: Log, step: Step) {
    match step
    case WriteNear(ops) => Within(ops, all)
    case WriteFar(ops) => Within(ops, all)
    case FromNear(thread) => Rooted(s.near, thread) && RecordedOnce(all, thread)
    case FromFar(thread) => Rooted(s.far, thread) && RecordedOnce(all, thread)
  }

  ghost predicate Run(s: Sides, all: Log, dm: DmId, steps: seq<Step>)
    decreases |steps|
  {
    steps == [] || (Allowed(s, all, steps[0]) && Run(After(s, dm, steps[0]), all, dm, steps[1..]))
  }

  ghost function End(s: Sides, dm: DmId, steps: seq<Step>): Sides
    decreases |steps|
  {
    if steps == [] then s else End(After(s, dm, steps[0]), dm, steps[1..])
  }

  /** The thread was opened in `channel`, the direct conversation of its opener and one other. */
  ghost predicate LivesIn(all: Log, dm: DmId, thread: string, channel: string) {
    exists i, other :: i in all && Claims(all[i], ThreadKind, thread) && all[i].body.channel == channel
      && channel == dm(multiset{all[i].author, other})
  }

  /** The op is one of the thread's: a register of it, of its channel or of the channel's
      memberships, or about a message posted in that thread and that channel. */
  ghost predicate Belongs(all: Log, dm: DmId, thread: string, i: string) {
    i in all && exists channel ::
      LivesIn(all, dm, thread, channel) && (Register(all[i], thread, channel) || AboutPost(all, all[i], thread, channel))
  }

  ghost predicate AboutPost(all: Log, op: Op, thread: string, channel: string) {
    op.kind == MessageKind && exists j ::
      j in all && Claims(all[j], MessageKind, op.target) && all[j].body == Post(Some(thread), channel)
  }

  /** What the step may add to the near (or the far) log. */
  ghost predicate Brings(all: Log, dm: DmId, step: Step, near: bool, i: string) {
    match step
    case WriteNear(ops) => near && i in ops
    case WriteFar(ops) => !near && i in ops
    case FromNear(thread) => Belongs(all, dm, thread, i)
    case FromFar(thread) => Belongs(all, dm, thread, i)
  }

  lemma DirectLivesIn(log: Log, all: Log, dm: DmId, thread: string)
    requires Within(log, all) && RecordedOnce(all, thread) && Rooted(log, thread) && Direct(log, dm, thread)
    ensures LivesIn(all, dm, thread, ChannelOf(log, thread))
  {
    var k :| k in log && Claims(log[k], ThreadKind, thread);
    assert all[k] == log[k];
    RootIsRecorded(log, all, thread, k);
    var c, opener := ChannelOf(log, thread), OpenerOf(log, thread);
    OpenerIsMember(log, dm, c, opener);
  }

  lemma OpenerIsMember(log: Log, dm: DmId, c: string, opener: string)
    requires IsDirect(log, dm, c, opener)
    ensures exists other :: c == dm(multiset{opener, other})
  {
    var i, j :| i in LiveTags(log, c) && j in LiveTags(log, c)
      && i != j && LiveTags(log, c) == {i, j}
      && var a, b := AddedTo(log[i], c).value, AddedTo(log[j], c).value;
         c == dm(multiset{a, b}) && (opener == a || opener == b);
    EitherOrder(dm, c, AddedTo(log[i], c).value, AddedTo(log[j], c).value, opener);
  }

  lemma EitherOrder(dm: DmId, c: string, a: string, b: string, opener: string)
    requires c == dm(multiset{a, b}) && (opener == a || opener == b)
    ensures exists other :: c == dm(multiset{opener, other})
  {
    var other := if opener == a then b else a;
    assert multiset{a, b} == multiset{opener, other};
  }

  /** Whatever is selected belongs to the thread. */
  lemma SelectedBelongs(log: Log, all: Log, dm: DmId, thread: string, i: string)
    requires Within(log, all) && RecordedOnce(all, thread) && Rooted(log, thread)
    requires ThreadOpIds(log, dm, thread).Some? && i in ThreadOpIds(log, dm, thread).value
    ensures Belongs(all, dm, thread, i)
  {
    var c := ChannelOf(log, thread);
    DirectLivesIn(log, all, dm, thread);
    assert all[i] == log[i];
    if log[i].kind == MessageKind {
      var j :| j in log && HoldsRow(log, MessageKind, log[i].target, j) && log[j].body == Post(Some(thread), c);
      assert all[j] == log[j];
    }
  }

  lemma ExchangeGains(s: Sides, all: Log, dm: DmId, thread: string)
    requires Logs(s, all) && RecordedOnce(all, thread) && Rooted(s.near, thread)
    ensures var end := Exchanged(s, dm, thread).0;
            && Logs(end, all)
            && (forall i | i in end.near :: i in s.near || Belongs(all, dm, thread, i))
            && (forall i | i in end.far :: i in s.far || Belongs(all, dm, thread, i))
            && (forall i | i in s.near :: i in end.near)
            && (forall i | i in s.far :: i in end.far)
  {
    var push := ThreadOpIds(s.near, dm, thread);
    if push.Some? {
      var far := Copied(s.near, s.far, push.value);
      CopiedWithin(s.near, s.far, all, push.value);
      RootCrosses(s.near, s.far, all, thread, ChannelOf(s.near, thread));
      forall i | i in far && i !in s.far ensures Belongs(all, dm, thread, i) { SelectedBelongs(s.near, all, dm, thread, i); }
      var pull := ThreadOpIds(far, dm, thread);
      if pull.Some? {
        var near := Copied(far, s.near, pull.value);
        CopiedWithin(far, s.near, all, pull.value);
        forall i | i in near && i !in s.near ensures Belongs(all, dm, thread, i) { SelectedBelongs(far, all, dm, thread, i); }
      }
    }
  }

  lemma StepGains(s: Sides, all: Log, dm: DmId, step: Step)
    requires Logs(s, all) && Allowed(s, all, step)
    ensures var end := After(s, dm, step);
            && Logs(end, all)
            && (forall i | i in end.near :: i in s.near || Brings(all, dm, step, true, i))
            && (forall i | i in end.far :: i in s.far || Brings(all, dm, step, false, i))
            && (forall i | i in s.near :: i in end.near)
            && (forall i | i in s.far :: i in end.far)
  {
    match step
    case WriteNear(_) =>
    case WriteFar(_) =>
    case FromNear(thread) => ExchangeGains(s, all, dm, thread);
    case FromFar(thread) => ExchangeGains(Sides(s.far, s.near), all, dm, thread);
  }

  /** Over every run of writes and exchanges neither log ever loses an op, and whatever it holds in
      the end it held at the start, was written into it, or belongs to a thread that was exchanged. */
  lemma {:induction false} RunGains(s: Sides, all: Log, dm: DmId, steps: seq<Step>)
    requires Logs(s, all) && Run(s, all, dm, steps)
    ensures var end := End(s, dm, steps);
            && Logs(end, all)
            && (forall i | i in end.near :: i in s.near || exists k :: 0 <= k < |steps| && Brings(all, dm, steps[k], true, i))
            && (forall i | i in end.far :: i in s.far || exists k :: 0 <= k < |steps| && Brings(all, dm, steps[k], false, i))
            && (forall i | i in s.near :: i in end.near)
            && (forall i | i in s.far :: i in end.far)
    decreases |steps|
  {
    if steps != [] {
      var next, end := After(s, dm, steps[0]), End(s, dm, steps);
      StepGains(s, all, dm, steps[0]);
      RunGains(next, all, dm, steps[1..]);
      forall i | i in end.near && i !in s.near ensures exists k :: 0 <= k < |steps| && Brings(all, dm, steps[k], true, i) {
        if i !in next.near {
          var k :| 0 <= k < |steps[1..]| && Brings(all, dm, steps[1..][k], true, i);
          assert steps[k + 1] == steps[1..][k];
        }
      }
      forall i | i in end.far && i !in s.far ensures exists k :: 0 <= k < |steps| && Brings(all, dm, steps[k], false, i) {
        if i !in next.far {
          var k :| 0 <= k < |steps[1..]| && Brings(all, dm, steps[1..][k], false, i);
          assert steps[k + 1] == steps[1..][k];
        }
      }
    }
  }

  // ---- the logs as objects ---------------------------------------------------------------

  class OpLog {
    const dm: DmId
    var ops: Log

    constructor (dm: DmId, ops: Log)
      ensures this.dm == dm && this.ops == ops
    {
      this.dm, this.ops := dm, ops;
    }

    /** The thread's channel and opener, empty where the log names none. */
    method Place(thread: string) returns (channel: string, opener: string)
      requires Coordinates(ops)
      ensures channel == ChannelOf(ops, thread) && opener == OpenerOf(ops, thread)
    {
      channel, opener := "", "";
      if i :| i in ops && HoldsRow(ops, ThreadKind, thread, i) {
        channel, opener := ops[i].body.channel, ops[i].author;
        OnlyRoot(ops, thread, i);
      } else {
        assert RootOf(ops, thread).None?;
        if i :| i in ops && FirstInThread(ops, thread, i) {
          channel := ops[i].body.channel;
          OnlyFirst(ops, thread, i);
        } else {
          assert forall i :: !FirstInThread(ops, thread, i);
        }
      }
    }

    method ThreadOps(thread: string) returns (ids: Option<set<string>>)
      requires Coordinates(ops)
      ensures ids == ThreadOpIds(ops, dm, thread)
      ensures ids.Some? <==> exists i, a, j, b :: IsConversation(ops, dm, ChannelOf(ops, thread), OpenerOf(ops, thread), i, a, j, b)
      ensures ids.Some? ==> forall i :: i in ids.value <==> i in ops && OfThread(ops, i, thread, ChannelOf(ops, thread))
    {
      var channel, opener := Place(thread);
      var direct := IsDirect(ops, dm, channel, opener);
      DirectMeans(ops, dm, channel, opener);
      ids := if direct then Some(Selected(ops, thread, channel)) else None;
      forall i ensures i in Selected(ops, thread, channel) <==> i in ops && OfThread(ops, i, thread, channel) {
        SelectedMeans(ops, thread, channel, i);
      }
    }

    method Apply(found: Log)
      modifies this
      ensures ops == old(ops) + found
    {
      ops := ops + found;
    }

    /** The number of ops copied, or none when the thread was refused. */
    method CopyThread(to: OpLog, thread: string) returns (copied: Option<nat>)
      requires this != to && Coordinates(ops)
      modifies to
      ensures copied.None? <==> ThreadOpIds(ops, dm, thread).None?
      ensures copied.None? ==> to.ops == old(to.ops)
      ensures copied.Some? ==> to.ops == Copied(ops, old(to.ops), ThreadOpIds(ops, dm, thread).value)
      ensures copied.Some? ==> (copied.value == 0 <==> to.ops == old(to.ops))
      ensures copied.Some? ==> forall i :: i in to.ops <==> i in old(to.ops) || (i in ops && OfThread(ops, i, thread, ChannelOf(ops, thread)))
    {
      var ids := ThreadOps(thread);
      if ids.None? { return None; }
      var missing := set i | i in ids.value && i !in to.ops;
      var found := map i | i in ops && i in missing :: ops[i];
      SelectedHeld(ops, dm, thread);
      MissingAre(ops, ids.value, to.ops, missing, found);
      if missing == {} { return Some(0); }
      to.Apply(found);
      copied := Some(|missing|);
    }

    /** Whether anything moved, or none when either side refused. */
    method Exchange(far: OpLog, thread: string, ghost all: Log) returns (moved: Option<bool>)
      requires this != far && dm == far.dm && Coordinates(all) && Within(ops, all) && Within(far.ops, all)
      modifies this, far
      ensures Within(ops, all) && Within(far.ops, all)
      ensures (Sides(ops, far.ops), moved.Some?) == Exchanged(Sides(old(ops), old(far.ops)), dm, thread)
      ensures moved.Some? ==> (moved.value <==> ops != old(ops) || far.ops != old(far.ops))
    {
      var pushed := CopyThread(far, thread);
      if pushed.None? { return None; }
      CopiedWithin(ops, old(far.ops), all, ThreadOpIds(ops, dm, thread).value);
      var pulled := far.CopyThread(this, thread);
      if pulled.None? { return None; }
      CopiedWithin(far.ops, old(ops), all, ThreadOpIds(far.ops, dm, thread).value);
      moved := Some(pushed.value + pulled.value > 0);
    }
  }

  /** The missing ops are what a copy adds, and it changes the log unless there are none. */
  lemma MissingAre(from: Log, ids: set<string>, to: Log, missing: set<string>, found: Log)
    requires ids <= from.Keys && missing == set i | i in ids && i !in to
    requires found == map i | i in from && i in missing :: from[i]
    ensures to + found == Copied(from, to, ids)
    ensures to + found == to <==> missing == {}
  {
    if i :| i in missing { assert i in to + found; }
  }

  lemma SelectedHeld(log: Log, dm: DmId, thread: string)
    requires ThreadOpIds(log, dm, thread).Some?
    ensures ThreadOpIds(log, dm, thread).value <= log.Keys
  {
  }

  lemma OnlyRoot(log: Log, thread: string, i: string)
    requires Coordinates(log) && HoldsRow(log, ThreadKind, thread, i)
    ensures RootOf(log, thread) == Some(log[i])
  {
    forall j | HoldsRow(log, ThreadKind, thread, j) ensures j == i { OneHolds(log, ThreadKind, thread, i, j); }
  }

  /** A thread without a root stands in the channel of the message with the lowest id. */
  lemma LowestMessagePlaces(log: Log, thread: string, i: string)
    requires Coordinates(log) && (forall k | k in log :: !Claims(log[k], ThreadKind, thread)) && RowInThread(log, thread, i)
    requires forall j | j in log && RowInThread(log, thread, j) :: log[i].target == log[j].target || Less(log[i].target, log[j].target)
    ensures ChannelOf(log, thread) == log[i].body.channel && OpenerOf(log, thread) == ""
  {
    forall j | j in log && RowInThread(log, thread, j) ensures !Less(log[j].target, log[i].target) {
      LessAsymmetric(log[i].target, log[j].target);
    }
    OnlyFirst(log, thread, i);
  }

  lemma OnlyFirst(log: Log, thread: string, i: string)
    requires Coordinates(log) && RootOf(log, thread).None? && FirstInThread(log, thread, i)
    ensures ChannelOf(log, thread) == log[i].body.channel
  {
    forall j | FirstInThread(log, thread, j) ensures j == i { OneFirst(log, thread, i, j); }
  }
}
