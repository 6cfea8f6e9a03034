/** The op log a border thread is read from (`crates/chat/src/store.rs`,
    `crates/chat/src/message_reducer.rs`) and the selection of the ops that make up one thread
    (`thread_op_ids` in `crates/chat/src/border.rs`). */
module ThreadLog {
  import opened Options
  import opened Decimal

  const SEP: char := 31 as char
  const OWNED_ID_PREFIX: string := "m-"

  datatype Kind = ThreadKind | MessageKind | ChannelKind | MembershipKind | OtherKind

  /** What a foldable op says; an op of any other shape is kept in the log and says nothing. */
  datatype Body =
    | Open(channel: string)
    | Post(thread: Option<string>, channel: string)
    | Add
    | Remove(tags: set<string>)
    | Plain

  datatype Op = Op(kind: Kind, target: string, body: Body, author: string, lamport: int, site: int)

  /** Ops by id. */
  type Log = map<string, Op>

  /** The id of a two-party direct conversation, derived from its two handles in either order. */
  type DmId = multiset<string> -> string

  // ---- the views -------------------------------------------------------------------------

  /** The op claims the thread or message named `target`: an open of it, or a post of it. */
  predicate Claims(op: Op, kind: Kind, target: string) {
    op.kind == kind && op.target == target && ((kind.ThreadKind? && op.body.Open?) || (kind.MessageKind? && op.body.Post?))
  }

  /** The op an id was minted from comes before every other claimant. */
  function Rank(id: string, op: Op): int { if op.target == OWNED_ID_PREFIX + id then 0 else 1 }

  predicate Lower(log: Log, i: string, j: string)
    requires i in log && j in log
  {
    var a, b := Rank(i, log[i]), Rank(j, log[j]);
    a < b || (a == b && (log[i].lamport < log[j].lamport || (log[i].lamport == log[j].lamport && log[i].site < log[j].site)))
  }

  /** `i` holds the row of the thread or message: no claimant is lower. */
  predicate HoldsRow(log: Log, kind: Kind, target: string, i: string) {
    && i in log && Claims(log[i], kind, target)
    && forall j | j in log && Claims(log[j], kind, target) :: !Lower(log, j, i)
  }

  /** The message's row places it in this thread and this channel. */
  predicate MessageIn(log: Log, m: string, thread: string, channel: string) {
    exists i | i in log :: HoldsRow(log, MessageKind, m, i) && log[i].body == Post(Some(thread), channel)
  }

  predicate RowInThread(log: Log, thread: string, i: string) {
    i in log && HoldsRow(log, MessageKind, log[i].target, i) && log[i].body.thread == Some(thread)
  }

  /** The row with the lowest message id among the thread's messages. */
  predicate FirstInThread(log: Log, thread: string, i: string) {
    RowInThread(log, thread, i) && forall j | j in log && RowInThread(log, thread, j) :: !Less(log[j].target, log[i].target)
  }

  ghost function RootOf(log: Log, thread: string): Option<Op> {
    if i :| HoldsRow(log, ThreadKind, thread, i) then Some(log[i]) else None
  }

  /** The channel the thread was opened in, else the channel of its first message, else none. */
  ghost function ChannelOf(log: Log, thread: string): string {
    if RootOf(log, thread).Some? then RootOf(log, thread).value.body.channel
    else if i :| FirstInThread(log, thread, i) then log[i].body.channel
    else ""
  }

  ghost function OpenerOf(log: Log, thread: string): string {
    if RootOf(log, thread).Some? then RootOf(log, thread).value.author else ""
  }

  /** `split2`: exactly one separator, between the two parts. */
  predicate SplitsInto(target: string, a: string, b: string) {
    target == a + [SEP] + b && SEP !in a && SEP !in b
  }

  predicate HasPrefix(channel: string, target: string) {
    |channel| + 1 <= |target| && target[..|channel| + 1] == channel + [SEP]
  }

  /** The handle an add puts into the channel, if it does. */
  function AddedTo(op: Op, channel: string): Option<string> {
    if op.kind == MembershipKind && op.body.Add? && HasPrefix(channel, op.target)
      && SplitsInto(op.target, channel, op.target[|channel| + 1..])
    then Some(op.target[|channel| + 1..])
    else None
  }

  predicate Removes(op: Op, tag: string) {
    op.kind == MembershipKind && op.body.Remove? && tag in op.body.tags
    && exists k :: 0 <= k < |op.target| && SplitsInto(op.target, op.target[..k], op.target[k + 1..])
  }

  /** The add tags of the channel that no remove names. */
  function LiveTags(log: Log, channel: string): set<string> {
    set i | i in log && AddedTo(log[i], channel).Some? && !(exists r | r in log :: Removes(log[r], i))
  }

  /** The tags are two, their handles make up the channel's id, and one of them is the opener. */
  predicate DirectWith(log: Log, tags: set<string>, dm: DmId, channel: string, opener: string)
    requires forall i | i in tags :: i in log && AddedTo(log[i], channel).Some?
  {
    exists i, j | i in tags && j in tags ::
      && i != j && tags == {i, j}
      && var a, b := AddedTo(log[i], channel).value, AddedTo(log[j], channel).value;
         channel == dm(multiset{a, b}) && (opener == a || opener == b)
  }

  /** The channel is the direct conversation of exactly its two members, one of whom opened the
      thread. */
  predicate IsDirect(log: Log, dm: DmId, channel: string, opener: string) {
    DirectWith(log, LiveTags(log, channel), dm, channel, opener)
  }

  // ---- the selection ---------------------------------------------------------------------

  /** Belongs to the thread whatever else the log holds: its registers, its channel, the channel's
      memberships. */
  predicate Register(op: Op, thread: string, channel: string) {
    match op.kind
    case ThreadKind => op.target == thread
    case ChannelKind => op.target == channel
    case MembershipKind => HasPrefix(channel, op.target)
    case MessageKind => false
    case OtherKind => false
  }

  function Selected(log: Log, thread: string, channel: string): set<string> {
    set i | i in log && (Register(log[i], thread, channel)
                         || (log[i].kind == MessageKind && MessageIn(log, log[i].target, thread, channel)))
  }

  /** The target of a membership: the channel, U+001F, and the handle. */
  function Joined(channel: string, handle: string): string { channel + [31 as char] + handle }

  /** The target lies below the channel, whatever follows. */
  ghost predicate Below(channel: string, target: string) { exists rest :: target == Joined(channel, rest) }

  /** The ops of a thread in a channel: those of the thread, of the channel and of what lies below it,
      and those about a message whose row is in the thread and the channel. */
  ghost predicate OfThread(log: Log, i: string, thread: string, channel: string)
    requires i in log
  {
    || (log[i].kind == ThreadKind && log[i].target == thread)
    || (log[i].kind == MessageKind && MessageIn(log, log[i].target, thread, channel))
    || (log[i].kind == ChannelKind && log[i].target == channel)
    || (log[i].kind == MembershipKind && Below(channel, log[i].target))
  }

  lemma PrefixIsBelow(channel: string, target: string)
    ensures HasPrefix(channel, target) <==> Below(channel, target)
  {
    if HasPrefix(channel, target) {
      assert target == target[..|channel| + 1] + target[|channel| + 1..];
      assert target == Joined(channel, target[|channel| + 1..]);
    }
    if rest :| target == Joined(channel, rest) { assert target[..|channel| + 1] == channel + [SEP]; }
  }

  /** The selection holds exactly the ops of the thread. */
  lemma SelectedMeans(log: Log, thread: string, channel: string, i: string)
    ensures i in Selected(log, thread, channel) <==> i in log && OfThread(log, i, thread, channel)
  {
    if i in log { PrefixIsBelow(channel, log[i].target); }
  }

  ghost predicate Direct(log: Log, dm: DmId, thread: string) {
    IsDirect(log, dm, ChannelOf(log, thread), OpenerOf(log, thread))
  }

  /** The ids of every op that makes up the thread, or a refusal of the whole. */
  ghost function ThreadOpIds(log: Log, dm: DmId, thread: string): Option<set<string>> {
    if Direct(log, dm, thread) then Some(Selected(log, thread, ChannelOf(log, thread))) else None
  }

  // ---- who is a member -------------------------------------------------------------------

  /** The op put the handle into the channel, and no remove in the log names it. */
  ghost predicate LiveAdd(log: Log, channel: string, i: string, handle: string) {
    && i in log && log[i].kind == MembershipKind && log[i].body == Add
    && log[i].target == Joined(channel, handle) && (31 as char) !in channel && (31 as char) !in handle
    && forall r | r in log :: !(log[r].kind == MembershipKind && log[r].body.Remove? && i in log[r].body.tags && OneSeparator(log[r].target))
  }

  ghost predicate OneSeparator(target: string) {
    exists a, b :: target == Joined(a, b) && (31 as char) !in a && (31 as char) !in b
  }

  lemma SplitsOnce(target: string)
    ensures (exists k :: 0 <= k < |target| && SplitsInto(target, target[..k], target[k + 1..])) <==> OneSeparator(target)
  {
    if a, b :| target == Joined(a, b) && (31 as char) !in a && (31 as char) !in b {
      assert target[..|a|] == a && target[|a| + 1..] == b;
      assert SplitsInto(target, target[..|a|], target[|a| + 1..]);
    }
    if k :| 0 <= k < |target| && SplitsInto(target, target[..k], target[k + 1..]) {
      assert target == Joined(target[..k], target[k + 1..]);
    }
  }

  lemma AddedMeans(op: Op, channel: string, handle: string)
    ensures AddedTo(op, channel) == Some(handle) <==>
            op.kind == MembershipKind && op.body == Add && op.target == Joined(channel, handle)
            && (31 as char) !in channel && (31 as char) !in handle
  {
    if op.target == Joined(channel, handle) {
      assert op.target[..|channel| + 1] == channel + [SEP] && op.target[|channel| + 1..] == handle;
    }
  }

  lemma LiveMeans(log: Log, channel: string, i: string, handle: string)
    ensures i in LiveTags(log, channel) && AddedTo(log[i], channel) == Some(handle) <==> LiveAdd(log, channel, i, handle)
  {
    if i in log { AddedMeans(log[i], channel, handle); }
    forall r | r in log
      ensures Removes(log[r], i) <==> log[r].kind == MembershipKind && log[r].body.Remove? && i in log[r].body.tags && OneSeparator(log[r].target) {
      SplitsOnce(log[r].target);
    }
  }

  /** Two live adds, and no other, of the two handles the channel's id is derived from, one of them
      the opener's. */
  ghost predicate IsConversation(log: Log, dm: DmId, channel: string, opener: string, i: string, a: string, j: string, b: string) {
    && i != j && LiveAdd(log, channel, i, a) && LiveAdd(log, channel, j, b)
    && (forall k, h | LiveAdd(log, channel, k, h) :: k == i || k == j)
    && channel == dm(multiset{a, b}) && (opener == a || opener == b)
  }

  lemma DirectIsConversation(log: Log, dm: DmId, channel: string, opener: string)
    requires IsDirect(log, dm, channel, opener)
    ensures exists i, a, j, b :: IsConversation(log, dm, channel, opener, i, a, j, b)
  {
    var tags := LiveTags(log, channel);
    var i, j :| i in tags && j in tags && i != j && tags == {i, j}
      && var a, b := AddedTo(log[i], channel).value, AddedTo(log[j], channel).value;
         channel == dm(multiset{a, b}) && (opener == a || opener == b);
    var a, b := AddedTo(log[i], channel).value, AddedTo(log[j], channel).value;
    LiveMeans(log, channel, i, a);
    LiveMeans(log, channel, j, b);
    forall k, h | LiveAdd(log, channel, k, h) ensures k == i || k == j { LiveMeans(log, channel, k, h); }
    assert IsConversation(log, dm, channel, opener, i, a, j, b);
  }

  lemma ConversationIsDirect(log: Log, dm: DmId, channel: string, opener: string, i: string, a: string, j: string, b: string)
    requires IsConversation(log, dm, channel, opener, i, a, j, b)
    ensures IsDirect(log, dm, channel, opener)
  {
    var tags := LiveTags(log, channel);
    LiveMeans(log, channel, i, a);
    LiveMeans(log, channel, j, b);
    forall k | k in tags ensures k == i || k == j { LiveMeans(log, channel, k, AddedTo(log[k], channel).value); }
    assert tags == {i, j};
  }

  /** The check, by the ops themselves. */
  lemma DirectMeans(log: Log, dm: DmId, channel: string, opener: string)
    ensures IsDirect(log, dm, channel, opener) <==> exists i, a, j, b :: IsConversation(log, dm, channel, opener, i, a, j, b)
  {
    if IsDirect(log, dm, channel, opener) { DirectIsConversation(log, dm, channel, opener); }
    if i, a, j, b :| IsConversation(log, dm, channel, opener, i, a, j, b) {
      ConversationIsDirect(log, dm, channel, opener, i, a, j, b);
    }
  }

  // ---- facts about rows ------------------------------------------------------------------

  /** Everything in the log is known under its id in `all`: ids identify ops. */
  ghost predicate Within(log: Log, all: Log) {
    forall i | i in log :: i in all && all[i] == log[i]
  }

  /** No two ops share a coordinate. */
  ghost predicate Coordinates(log: Log) {
    forall i, j | i in log && j in log && log[i].lamport == log[j].lamport && log[i].site == log[j].site :: i == j
  }

  function MessageOps(log: Log, m: string): set<string> {
    set i | i in log && log[i].kind == MessageKind && log[i].target == m
  }

  lemma LowerTrans(log: Log, i: string, j: string, k: string)
    requires i in log && j in log && k in log && Lower(log, i, j) && Lower(log, j, k)
    ensures Lower(log, i, k)
  {
  }

  /** Something claimed has a holder. */
  lemma {:induction false} SomeoneHolds(log: Log, kind: Kind, target: string, i: string)
    requires i in log && Claims(log[i], kind, target)
    ensures exists k :: HoldsRow(log, kind, target, k)
    decreases |set j | j in log && Lower(log, j, i)|
  {
    if !HoldsRow(log, kind, target, i) {
      var j :| j in log && Claims(log[j], kind, target) && Lower(log, j, i);
      forall k | k in log && Lower(log, k, j) ensures Lower(log, k, i) { LowerTrans(log, k, j, i); }
      var below, above := set k | k in log && Lower(log, k, j), set k | k in log && Lower(log, k, i);
      assert j in above && j !in below && below <= above;
      Smaller(below, above, j);
      SomeoneHolds(log, kind, target, j);
    }
  }

  lemma Smaller(a: set<string>, b: set<string>, x: string)
    requires a <= b && x in b && x !in a
    ensures |a| < |b|
  {
    Subset(a, b - {x});
  }

  lemma {:induction false} Subset(a: set<string>, b: set<string>)
    requires a <= b
    ensures |a| <= |b|
  {
    if x :| x in a { Subset(a - {x}, b - {x}); }
  }

  /** Only one op holds a row. */
  lemma OneHolds(log: Log, kind: Kind, target: string, i: string, j: string)
    requires Coordinates(log) && HoldsRow(log, kind, target, i) && HoldsRow(log, kind, target, j)
    ensures i == j
  {
    assert !Lower(log, i, j) && !Lower(log, j, i);
  }

  /** The op an id was minted from holds its row against every other claimant, whatever their
      coordinates. */
  lemma OwnerHoldsRow(log: Log, kind: Kind, i: string)
    requires i in log && Claims(log[i], kind, "m-" + i)
    ensures HoldsRow(log, kind, "m-" + i, i)
  {
    forall j | j in log && Claims(log[j], kind, "m-" + i) ensures !Lower(log, j, i) {
      if log[j].target == "m-" + j { assert ("m-" + i)[2..] == i && ("m-" + j)[2..] == j; }
    }
  }

  /** Where no such op is held, the claimant with the lowest Lamport number holds it, and among equal
      ones that of the lowest site. */
  lemma LowestHoldsRow(log: Log, kind: Kind, target: string, i: string)
    requires i in log && Claims(log[i], kind, target) && forall j | j in log && Claims(log[j], kind, target) :: target != "m-" + j
    ensures HoldsRow(log, kind, target, i) <==>
            forall j | j in log && Claims(log[j], kind, target) ::
              log[i].lamport < log[j].lamport || (log[i].lamport == log[j].lamport && log[i].site <= log[j].site)
  {
  }

  lemma {:induction false} LessAsymmetric(a: string, b: string)
    requires a == b || Less(a, b)
    ensures !Less(b, a)
  {
    if a != [] && b != [] && a[0] == b[0] { LessAsymmetric(a[1..], b[1..]); }
  }

  lemma {:induction false} LessTotal(a: string, b: string)
    ensures a == b || Less(a, b) || Less(b, a)
  {
    if a != [] && b != [] && a[0] == b[0] {
      LessTotal(a[1..], b[1..]);
      assert a == [a[0]] + a[1..] && b == [b[0]] + b[1..];
    }
  }

  lemma OneFirst(log: Log, thread: string, i: string, j: string)
    requires Coordinates(log) && FirstInThread(log, thread, i) && FirstInThread(log, thread, j)
    ensures i == j
  {
    LessTotal(log[i].target, log[j].target);
    assert log[i].target == log[j].target;
    OneHolds(log, MessageKind, log[i].target, i, j);
  }

  /** A message's row depends on nothing but the ops about that message. */
  lemma RowDepends(a: Log, b: Log, all: Log, m: string, thread: string, channel: string)
    requires Within(a, all) && Within(b, all) && MessageOps(a, m) == MessageOps(b, m)
    ensures MessageIn(a, m, thread, channel) ==> MessageIn(b, m, thread, channel)
  {
    if MessageIn(a, m, thread, channel) {
      var i :| i in a && HoldsRow(a, MessageKind, m, i) && a[i].body == Post(Some(thread), channel);
      assert i in MessageOps(b, m);
      forall j | j in b && Claims(b[j], MessageKind, m) ensures !Lower(b, j, i) {
        assert j in MessageOps(a, m);
        assert a[j] == all[j] == b[j] && a[i] == all[i] == b[i];
      }
      assert HoldsRow(b, MessageKind, m, i);
    }
  }
}
