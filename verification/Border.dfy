/** The record a workspace keeps of its border threads, and what a handover does to it
    (`crates/chat/src/border.rs`). Each statement below is one SQL statement of the source. What the
    host answers (admission, session start, resume, the peer) comes in as a value. */
module Border {
  import opened Options

  datatype BorderState = Submitted | Working | InputRequired | Completed | Rejected | Canceled

  predicate IsFinal(s: BorderState) { s.Rejected? || s.Canceled? }

  predicate InProgress(s: BorderState) { s.Submitted? || s.Working? || s.InputRequired? }

  datatype Direction = Inbound | Outbound

  datatype Row = Row(direction: Direction, peer: string, persona: string, state: BorderState,
                     reason: Option<string>, session: Option<string>)

  /** `border_threads` by thread id, and the `border_served` pairs of thread and message id. */
  datatype Tables = Tables(rows: map<string, Row>, served: set<(string, string)>)

  datatype Refusal = WorkspaceUnknown | NotOnThisMachine | NotTrusted | RoleNotAdmitted | NoSuchPersona | DepthLimit

  datatype Stamp = Stamp(refusal: Option<Refusal>, canceled: bool)

  datatype Message = Message(id: string, sender: string, escalation: bool, border: Option<Stamp>, body: string)

  predicate IsCancel(m: Message) { m.border.Some? && m.border.value.canceled }

  // ---- the statements --------------------------------------------------------------------

  function Inserted(tb: Tables, thread: string, direction: Direction, peer: string, persona: string, session: Option<string>): Tables {
    if thread in tb.rows then tb
    else tb.(rows := tb.rows[thread := Row(direction, peer, persona, Submitted, None, session)])
  }

  function WithState(tb: Tables, thread: string, state: BorderState, reason: Option<string>): Tables {
    if thread !in tb.rows then tb
    else var row := tb.rows[thread];
         tb.(rows := tb.rows[thread := row.(state := state, reason := if reason.Some? then reason else row.reason)])
  }

  function WithSession(tb: Tables, thread: string, session: string): Tables {
    if thread !in tb.rows then tb else tb.(rows := tb.rows[thread := tb.rows[thread].(session := Some(session))])
  }

  /** The compare-and-swap of the admission claim finds a row that is still submitted. */
  predicate Claimable(tb: Tables, thread: string) { thread in tb.rows && tb.rows[thread].state == Submitted }

  function Claimed(tb: Tables, thread: string): Tables {
    if Claimable(tb, thread) then tb.(rows := tb.rows[thread := tb.rows[thread].(state := Working)]) else tb
  }

  function Marked(tb: Tables, thread: string, message: string): Tables { tb.(served := tb.served + {(thread, message)}) }

  function Unmarked(tb: Tables, thread: string, message: string): Tables { tb.(served := tb.served - {(thread, message)}) }

  // ---- reading a thread ------------------------------------------------------------------

  /** Where the thread stands, read off its newest acting message. */
  function StateAfter(acting: seq<Message>, worker: string, current: BorderState): BorderState {
    if acting == [] then current
    else if acting[|acting| - 1].sender != worker then Working
    else if acting[|acting| - 1].escalation then InputRequired
    else Completed
  }

  /** What the newest message says of the thread: the other party wrote last, so the work is on; or
      the worker did, and handed the task back or answered it. */
  ghost predicate NewestSays(acting: seq<Message>, worker: string, state: BorderState)
    requires acting != []
  {
    var newest := acting[|acting| - 1];
    && (newest.sender != worker ==> state == Working)
    && (newest.sender == worker && newest.escalation ==> state == InputRequired)
    && (newest.sender == worker && !newest.escalation ==> state == Completed)
  }

  /** Which messages a side hands on: the caller what the worker wrote, the receiver the rest. */
  predicate ForSide(m: Message, worker: string, direction: Direction) {
    match direction case Inbound => m.sender != worker case Outbound => m.sender == worker
  }

  function Due(served: set<(string, string)>, thread: string, acting: seq<Message>, worker: string, direction: Direction): seq<Message> {
    if acting == [] then []
    else
      var m, rest := acting[|acting| - 1], Due(served, thread, acting[..|acting| - 1], worker, direction);
      if ForSide(m, worker, direction) && (thread, m.id) !in served then rest + [m] else rest
  }

  function IdsOf(thread: string, messages: seq<Message>): set<(string, string)> {
    set m | m in messages :: (thread, m.id)
  }

  function Pairs(thread: string, ids: set<string>): set<(string, string)> { set m | m in ids :: (thread, m) }

  predicate IsFirstCancel(messages: seq<Message>, i: int) {
    0 <= i < |messages| && IsCancel(messages[i]) && forall j | 0 <= j < i :: !IsCancel(messages[j])
  }

  /** The first of the messages that takes the commission back. */
  function FirstCancel(messages: seq<Message>): (r: Option<Message>)
    ensures r.None? <==> forall m | m in messages :: !IsCancel(m)
    ensures r.Some? ==> exists i :: 0 <= i < |messages| && messages[i] == r.value && IsFirstCancel(messages, i)
  {
    if messages == [] then None
    else if IsCancel(messages[0]) then Some(messages[0])
    else FirstCancel(messages[1..])
  }

  /** The worker's message `i` carries a refusal. */
  predicate RefusesAt(acting: seq<Message>, worker: string, i: int) {
    0 <= i < |acting| && acting[i].sender == worker && acting[i].border.Some? && acting[i].border.value.refusal.Some?
  }

  /** The refusal in the newest of the worker's messages that carries one. */
  function NewestRefusal(acting: seq<Message>, worker: string): (r: Option<Refusal>)
    ensures r.Some? <==> exists i :: RefusesAt(acting, worker, i)
    ensures forall i | RefusesAt(acting, worker, i) && (forall j | i < j < |acting| :: !RefusesAt(acting, worker, j)) ::
              r == acting[i].border.value.refusal
  {
    if acting == [] then None
    else if RefusesAt(acting, worker, |acting| - 1) then acting[|acting| - 1].border.value.refusal
    else
      var init := acting[..|acting| - 1];
      assert forall i | i < |init| :: RefusesAt(init, worker, i) <==> RefusesAt(acting, worker, i);
      NewestRefusal(init, worker)
  }

  // ---- the receiver's side ---------------------------------------------------------------

  /** What resuming a session comes to. */
  datatype Outcome = Woke | Held | Neither

  datatype Verdict = Unreadable | Admit | Refuse(refusal: Refusal, text: string)

  /** What the host answers while the receiver acts: the admission verdict, the session that started
      (none when the start failed), whether the refusal's reply could be written, whether the chain
      has room, and how a resume went. */
  datatype InboundAnswers = InboundAnswers(verdict: Verdict, session: Option<string>, replied: bool, hopOk: bool, outcome: Outcome)

  /** What a handover sees of one thread: its stamped first message, its acting messages in causal
      order, and the participant that does the work. */
  datatype View = View(opening: Option<Message>, acting: seq<Message>, worker: string)

  function Delivered(tb: Tables, thread: string, messages: seq<Message>, outcome: Outcome): Tables {
    if outcome == Neither then tb else tb.(served := tb.served + IdsOf(thread, messages))
  }

  function Judged(tb: Tables, thread: string, opening: Message, a: InboundAnswers): Tables {
    match a.verdict
    case Unreadable => tb
    case Admit =>
      if !Claimable(tb, thread) || a.session.None? then tb
      else Marked(WithSession(Claimed(tb, thread), thread, a.session.value), thread, opening.id)
    case Refuse(WorkspaceUnknown, text) => WithState(tb, thread, Rejected, Some(text))
    case Refuse(_, text) =>
      if !Claimable(tb, thread) then tb
      else if !a.replied then Claimed(tb, thread)
      else WithState(Claimed(tb, thread), thread, Rejected, Some(text))
  }

  function Followed(tb: Tables, thread: string, row: Row, v: View, a: InboundAnswers): Tables {
    var due := Due(tb.served, thread, v.acting, v.worker, Inbound);
    var cancel := FirstCancel(due);
    if cancel.Some? then
      WithState(tb.(served := tb.served + IdsOf(thread, due)), thread, Canceled, Some(cancel.value.body))
    else if due != [] && !a.hopOk then tb
    else Settled(Delivered(tb, thread, due, a.outcome), thread, row, StateAfter(v.acting, v.worker, row.state), None)
  }

  function Settled(tb: Tables, thread: string, row: Row, state: BorderState, reason: Option<string>): Tables {
    if state != row.state then WithState(tb, thread, state, reason) else tb
  }

  function ActedInbound(tb: Tables, thread: string, row: Row, v: View, a: InboundAnswers): Tables {
    if v.opening.None? then tb
    else if row.state == Submitted then Judged(tb, thread, v.opening.value, a)
    else if row.session.None? then tb
    else Followed(tb, thread, row, v, a)
  }

  // ---- the caller's side -----------------------------------------------------------------

  /** What the host answers while the caller acts: whether the thread still expects the worker,
      whether its newest answer is no longer vouched for, whether the deadline passed, and whether
      the peer records the thread; `text` words a withdrawal and a refusal. */
  datatype OutboundAnswers = OutboundAnswers(expected: bool, unvouched: bool, overdue: bool, peerHolds: bool,
                                             hopOk: bool, outcome: Outcome, text: string)

  predicate GivesUp(row: Row, a: OutboundAnswers) {
    a.expected && ((InProgress(row.state) && a.unvouched) || ((row.state.Working? || row.state.Submitted?) && a.overdue))
  }

  predicate Answered(acting: seq<Message>, worker: string) { exists m | m in acting :: m.sender == worker }

  function OutboundState(row: Row, v: View, a: OutboundAnswers): BorderState {
    if NewestRefusal(v.acting, v.worker).Some? then Rejected
    else if Answered(v.acting, v.worker) then StateAfter(v.acting, v.worker, row.state)
    else if row.state == Submitted && a.peerHolds then Working
    else row.state
  }

  function ActedOutbound(tb: Tables, thread: string, row: Row, v: View, a: OutboundAnswers): Tables {
    if !a.expected then tb
    else if GivesUp(row, a) then WithState(tb, thread, Canceled, Some(a.text))
    else
      var reason := if NewestRefusal(v.acting, v.worker).Some? then Some(a.text) else None;
      var tb' := Settled(tb, thread, row, OutboundState(row, v, a), reason);
      var due := Due(tb.served, thread, v.acting, v.worker, Outbound);
      if due == [] || (row.session.Some? && !a.hopOk) then tb'
      else if row.session.Some? then Delivered(tb', thread, due, a.outcome)
      else tb'.(served := tb'.served + IdsOf(thread, due))
  }

  // ---- one thread of a handover ----------------------------------------------------------

  datatype Call = Call(view: View, inbound: InboundAnswers, outbound: OutboundAnswers)

  function Handled(tb: Tables, thread: string, call: Call): Tables {
    if thread !in tb.rows || IsFinal(tb.rows[thread].state) then tb
    else if tb.rows[thread].direction == Inbound then ActedInbound(tb, thread, tb.rows[thread], call.view, call.inbound)
    else ActedOutbound(tb, thread, tb.rows[thread], call.view, call.outbound)
  }

  // ---- facts -----------------------------------------------------------------------------

  lemma {:induction false} DueMeans(served: set<(string, string)>, thread: string, acting: seq<Message>, worker: string, d: Direction, m: Message)
    ensures m in Due(served, thread, acting, worker, d) <==>
            m in acting && ForSide(m, worker, d) && (thread, m.id) !in served
  {
    if acting != [] {
      var n := |acting| - 1;
      DueMeans(served, thread, acting[..n], worker, d, m);
      assert acting == acting[..n] + [acting[n]];
    }
  }

  /** Due messages are read off the thread's own served pairs. */
  lemma {:induction false} DueLocal(a: set<(string, string)>, b: set<(string, string)>, thread: string, acting: seq<Message>, worker: string, d: Direction)
    requires forall m :: (thread, m) in a <==> (thread, m) in b
    ensures Due(a, thread, acting, worker, d) == Due(b, thread, acting, worker, d)
  {
    if acting != [] { DueLocal(a, b, thread, acting[..|acting| - 1], worker, d); }
  }

  /** Once everything due is served nothing is due any more. */
  lemma NothingDue(served: set<(string, string)>, thread: string, acting: seq<Message>, worker: string, d: Direction)
    ensures Due(served + IdsOf(thread, Due(served, thread, acting, worker, d)), thread, acting, worker, d) == []
  {
    var due := Due(served, thread, acting, worker, d);
    var all := served + IdsOf(thread, due);
    var again := Due(all, thread, acting, worker, d);
    if again != [] {
      var m := again[0];
      DueMeans(served, thread, acting, worker, d, m);
      DueMeans(all, thread, acting, worker, d, m);
      assert false;
    }
  }

  /** Recording a thread never changes a row that is there: whatever is recorded afterwards, the first
      record stands. */
  lemma FirstRecordStands(tb: Tables, t: string, d: Direction, peer: string, persona: string, session: Option<string>,
                          d': Direction, peer': string, persona': string, session': Option<string>)
    ensures var once := Inserted(tb, t, d, peer, persona, session);
            && Inserted(once, t, d', peer', persona', session') == once && once.served == tb.served
            && (forall u | u in tb.rows :: u in once.rows && once.rows[u] == tb.rows[u])
            && (t !in tb.rows ==> Claimable(once, t)) && once.rows.Keys == tb.rows.Keys + {t}
            && (t !in tb.rows ==> var row := once.rows[t];
                                  row.direction == d && row.peer == peer && row.persona == persona && row.session == session && row.reason == None)
  {
  }

  /** Of two state changes the last one's state stands, and the last reason given; a change to a
      thread that is not recorded records nothing. */
  lemma LastStateStands(tb: Tables, t: string, a: BorderState, r: Option<string>, b: BorderState, q: Option<string>)
    ensures WithState(WithState(tb, t, a, r), t, b, q) == WithState(tb, t, b, if q.Some? then q else r)
    ensures WithState(tb, t, a, r).rows.Keys == tb.rows.Keys && WithState(tb, t, a, r).served == tb.served
    ensures forall u | u != t && u in tb.rows :: WithState(tb, t, a, r).rows[u] == tb.rows[u]
    ensures t in tb.rows ==> WithState(tb, t, a, r).rows[t].session == tb.rows[t].session
  {
    if t in tb.rows {
      var x, y := WithState(WithState(tb, t, a, r), t, b, q), WithState(tb, t, b, if q.Some? then q else r);
      assert x.rows == y.rows;
    }
  }

  /** Two tables record the same of one thread. */
  ghost predicate SameAt(a: Tables, b: Tables, thread: string) {
    && (thread in a.rows <==> thread in b.rows)
    && (thread in a.rows ==> a.rows[thread] == b.rows[thread])
    && (forall m :: (thread, m) in a.served <==> (thread, m) in b.served)
  }

  /** Acting on a thread touches nothing recorded of any other, and never gives a message back. */
  lemma HandledFrame(tb: Tables, thread: string, call: Call, other: string)
    requires other != thread
    ensures SameAt(Handled(tb, thread, call), tb, other) && tb.served <= Handled(tb, thread, call).served
  {
  }

  /** Acting on a thread depends on nothing recorded of any other. */
  lemma HandledLocal(a: Tables, b: Tables, thread: string, call: Call)
    requires SameAt(a, b, thread)
    ensures SameAt(Handled(a, thread, call), Handled(b, thread, call), thread)
  {
    if thread in a.rows && !IsFinal(a.rows[thread].state) {
      if a.rows[thread].direction == Inbound {
        InboundLocal(a, b, thread, a.rows[thread], call.view, call.inbound);
      } else {
        OutboundLocal(a, b, thread, a.rows[thread], call.view, call.outbound);
      }
    }
  }

  lemma InboundLocal(a: Tables, b: Tables, thread: string, row: Row, v: View, x: InboundAnswers)
    requires SameAt(a, b, thread)
    ensures SameAt(ActedInbound(a, thread, row, v, x), ActedInbound(b, thread, row, v, x), thread)
  {
    DueLocal(a.served, b.served, thread, v.acting, v.worker, Inbound);
  }

  lemma OutboundLocal(a: Tables, b: Tables, thread: string, row: Row, v: View, x: OutboundAnswers)
    requires SameAt(a, b, thread)
    ensures SameAt(ActedOutbound(a, thread, row, v, x), ActedOutbound(b, thread, row, v, x), thread)
  {
    DueLocal(a.served, b.served, thread, v.acting, v.worker, Outbound);
  }

  /** On an admitted commission, a handover whose delivery put something in motion leaves nothing for
      a second one to do, however the host answers then. */
  lemma HandledTwiceInbound(tb: Tables, thread: string, call: Call, again: Call)
    requires thread in tb.rows && tb.rows[thread].direction == Inbound && tb.rows[thread].state != Submitted
    requires call.inbound.hopOk && call.inbound.outcome != Neither && again.view == call.view
    ensures Handled(Handled(tb, thread, call), thread, again) == Handled(tb, thread, call)
  {
    var v := call.view;
    NothingDue(tb.served, thread, v.acting, v.worker, Inbound);
  }

  /** The same on the caller's side, where the answer is vouched for and in time. */
  lemma HandledTwiceOutbound(tb: Tables, thread: string, call: Call)
    requires thread in tb.rows && tb.rows[thread].direction == Outbound
    requires !call.outbound.unvouched && !call.outbound.overdue && call.outbound.hopOk && call.outbound.outcome != Neither
    ensures Handled(Handled(tb, thread, call), thread, call) == Handled(tb, thread, call)
  {
    var v := call.view;
    NothingDue(tb.served, thread, v.acting, v.worker, Outbound);
  }
}
