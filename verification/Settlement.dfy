/** The two records of one commission, the caller's and the receiver's (`crates/chat/src/border.rs`):
    handovers run one at a time, both logs hold the thread's ops and each side trusts the other's
    key, so both read the same acting messages in the same order. */
module Settlement {
  import opened Options
  import opened Border

  /** One commission: its thread and the participant that does the work. */
  datatype Case = Case(thread: string, worker: string)

  /** Both records, the acting messages, and whether the thread still expects the worker. */
  datatype World = World(caller: Tables, receiver: Tables, acting: seq<Message>, expected: bool)

  datatype Step =
    | Post(acting: seq<Message>)                                    // either party writes
    | Withdraw(acting: seq<Message>, message: Message, why: string) // the caller takes it back
    | Discover(peer: string, persona: string)
    | HandIn(inbound: InboundAnswers)
    | HandOut(outbound: OutboundAnswers)

  /** Messages have ids of their own, and later ones may fall anywhere in the causal order except
      before the opening. */
  ghost predicate Grows(old_: seq<Message>, new_: seq<Message>) {
    && old_ != [] && new_ != [] && new_[0] == old_[0]
    && (forall m | m in old_ :: m in new_)
    && (forall m, n | m in new_ && n in new_ && m.id == n.id :: m == n)
  }

  predicate IsPlain(m: Message) { !IsCancel(m) && (m.border.Some? ==> m.border.value.refusal.None?) }

  /** The commission is never refused, and a caller that gives up does it by withdrawing. */
  ghost predicate Enabled(w: World, c: Case, step: Step) {
    match step
    case Post(acting) => Grows(w.acting, acting) && forall m | m in acting && m !in w.acting :: IsPlain(m)
    case Withdraw(acting, n, _) =>
      && c.thread in w.caller.rows && !IsFinal(w.caller.rows[c.thread].state)
      && Grows(w.acting, acting) && n in acting && n !in w.acting && (forall m | m in acting && m != n :: m in w.acting)
      && IsCancel(n) && n.border.value.refusal.None? && n.sender != c.worker
    case Discover(_, _) => true
    case HandIn(a) => !a.verdict.Refuse?
    case HandOut(a) =>
      && (a.expected <==> w.expected) && (a.peerHolds ==> c.thread in w.receiver.rows)
      && !a.unvouched && !a.overdue
  }

  function ViewOf(w: World, c: Case): View
    requires w.acting != []
  {
    View(Some(w.acting[0]), w.acting, c.worker)
  }

  function HandedIn(w: World, c: Case, a: InboundAnswers): Tables
    requires w.acting != []
  {
    if c.thread !in w.receiver.rows || IsFinal(w.receiver.rows[c.thread].state) then w.receiver
    else ActedInbound(w.receiver, c.thread, w.receiver.rows[c.thread], ViewOf(w, c), a)
  }

  function HandedOut(w: World, c: Case, a: OutboundAnswers): Tables
    requires w.acting != []
  {
    if c.thread !in w.caller.rows || IsFinal(w.caller.rows[c.thread].state) then w.caller
    else ActedOutbound(w.caller, c.thread, w.caller.rows[c.thread], ViewOf(w, c), a)
  }

  function After(w: World, c: Case, step: Step): World
    requires w.acting != []
  {
    match step
    case Post(acting) => w.(acting := acting)
    case Withdraw(acting, _, why) =>
      w.(acting := acting, expected := false, caller := WithState(w.caller, c.thread, Canceled, Some(why)))
    case Discover(peer, persona) => w.(receiver := Inserted(w.receiver, c.thread, Inbound, peer, persona, None))
    case HandIn(a) => w.(receiver := HandedIn(w, c, a))
    case HandOut(a) => w.(caller := HandedOut(w, c, a))
  }

  /** A commission just recorded by its caller. */
  ghost predicate Commissioned(w: World, c: Case) {
    && |w.acting| == 1 && w.acting[0].sender != c.worker && IsPlain(w.acting[0]) && w.expected
    && c.thread in w.caller.rows && w.caller.rows[c.thread].direction == Outbound && w.caller.rows[c.thread].state == Submitted
    && c.thread !in w.receiver.rows && (forall m :: (c.thread, m) !in w.receiver.served)
  }

  // ---- what every run keeps --------------------------------------------------------------

  ghost predicate Withdrawn(w: World) { exists m | m in w.acting :: IsCancel(m) }

  ghost predicate MessagesOk(w: World, c: Case) {
    && w.acting != [] && w.acting[0].sender != c.worker && !IsCancel(w.acting[0])
    && (forall m, n | m in w.acting && n in w.acting && m.id == n.id :: m == n)
    && (forall m | m in w.acting && m.border.Some? :: m.border.value.refusal.None?)
    && (forall m | m in w.acting && IsCancel(m) :: m.sender != c.worker)
  }

  ghost predicate CallerOk(w: World, c: Case) {
    && c.thread in w.caller.rows
    && var row := w.caller.rows[c.thread];
    && row.direction == Outbound && row.state != Rejected
    && (row.state == Canceled <==> Withdrawn(w)) && (w.expected <==> !Withdrawn(w))
    && (row.state.InputRequired? || row.state.Completed? ==> Answered(w.acting, c.worker))
  }

  ghost predicate ReceiverOk(w: World, c: Case) {
    && (forall id | (c.thread, id) in w.receiver.served :: exists m | m in w.acting :: m.id == id)
    && (c.thread !in w.receiver.rows ==> forall id :: (c.thread, id) !in w.receiver.served)
    && (c.thread in w.receiver.rows ==>
          var row := w.receiver.rows[c.thread];
          && row.direction == Inbound && row.state != Rejected
          && (row.state == Canceled ==> Withdrawn(w))
          && (row.state != Submitted ==> row.session.Some?)
          && (forall m | m in w.acting && IsCancel(m) && (c.thread, m.id) in w.receiver.served :: row.state == Canceled))
  }

  ghost predicate Inv(w: World, c: Case) { MessagesOk(w, c) && CallerOk(w, c) && ReceiverOk(w, c) }

  lemma PostKeeps(w: World, c: Case, step: Step)
    requires Inv(w, c) && Enabled(w, c, step) && step.Post?
    ensures Inv(After(w, c, step), c)
  {
    var w' := After(w, c, step);
    assert Withdrawn(w') <==> Withdrawn(w);
  }

  lemma WithdrawKeeps(w: World, c: Case, step: Step)
    requires Inv(w, c) && Enabled(w, c, step) && step.Withdraw?
    ensures Inv(After(w, c, step), c)
  {
    var w' := After(w, c, step);
    assert IsCancel(step.message) && step.message in w'.acting;
    assert forall k | k in w.acting :: k.id != step.message.id;
    assert (c.thread, step.message.id) !in w.receiver.served;
  }

  lemma DiscoverKeeps(w: World, c: Case, step: Step)
    requires Inv(w, c) && Enabled(w, c, step) && step.Discover?
    ensures Inv(After(w, c, step), c)
  {
  }

  lemma HandOutKeeps(w: World, c: Case, step: Step)
    requires Inv(w, c) && Enabled(w, c, step) && step.HandOut?
    ensures Inv(After(w, c, step), c)
  {
    OutState(w, c, step.outbound);
    var w' := After(w, c, step);
    assert Withdrawn(w') <==> Withdrawn(w);
  }

  /** The caller's row after its handover. */
  lemma OutState(w: World, c: Case, a: OutboundAnswers)
    requires MessagesOk(w, c) && CallerOk(w, c) && Enabled(w, c, HandOut(a))
    ensures c.thread in HandedOut(w, c, a).rows && HandedOut(w, c, a).rows[c.thread].direction == Outbound
    ensures var before := w.caller.rows[c.thread].state;
            var after := HandedOut(w, c, a).rows[c.thread].state;
            if Withdrawn(w) then after == Canceled
            else if Answered(w.acting, c.worker) then NewestSays(w.acting, c.worker, after)
            else after == if before == Submitted && a.peerHolds then Working else before
  {
    var v := ViewOf(w, c);
    assert NewestRefusal(v.acting, v.worker).None?;
  }

  /** The receiver's record after its handover of an admitted commission. */
  lemma InState(w: World, c: Case, a: InboundAnswers)
    requires MessagesOk(w, c) && ReceiverOk(w, c) && c.thread in w.receiver.rows && w.receiver.rows[c.thread].state != Submitted
    ensures c.thread in HandedIn(w, c, a).rows
    ensures var row, row' := w.receiver.rows[c.thread], HandedIn(w, c, a).rows[c.thread];
            && row'.direction == Inbound && row'.session == row.session
            && (Withdrawn(w) ==> row'.state == Canceled)
            && (!Withdrawn(w) && a.hopOk ==> NewestSays(w.acting, c.worker, row'.state))
            && (!Withdrawn(w) ==> row'.state == row.state || NewestSays(w.acting, c.worker, row'.state))
  {
    var row, v := w.receiver.rows[c.thread], ViewOf(w, c);
    var due := Due(w.receiver.served, c.thread, v.acting, v.worker, Inbound);
    if Withdrawn(w) && row.state != Canceled {
      var m :| m in w.acting && IsCancel(m);
      DueMeans(w.receiver.served, c.thread, v.acting, v.worker, Inbound, m);
      assert m in due && FirstCancel(due).Some?;
    } else if !Withdrawn(w) {
      assert FirstCancel(due).None? by {
        if FirstCancel(due).Some? {
          DueMeans(w.receiver.served, c.thread, v.acting, v.worker, Inbound, FirstCancel(due).value);
        }
      }
    }
  }

  /** The receiver marks nothing but messages of the thread, and a cancellation only as it acts on
      it. */
  lemma InServed(w: World, c: Case, a: InboundAnswers, id: string)
    requires MessagesOk(w, c) && ReceiverOk(w, c) && !a.verdict.Refuse?
    requires (c.thread, id) in HandedIn(w, c, a).served && (c.thread, id) !in w.receiver.served
    ensures c.thread in w.receiver.rows && exists m | m in w.acting :: m.id == id
  {
    var v := ViewOf(w, c);
    var due := Due(w.receiver.served, c.thread, v.acting, v.worker, Inbound);
    if w.receiver.rows[c.thread].state == Submitted {
      assert id == w.acting[0].id;
    } else {
      assert (c.thread, id) in IdsOf(c.thread, due);
      var m :| m in due && m.id == id;
      DueMeans(w.receiver.served, c.thread, v.acting, v.worker, Inbound, m);
    }
  }

  lemma HandInKeeps(w: World, c: Case, step: Step)
    requires Inv(w, c) && Enabled(w, c, step) && step.HandIn?
    ensures Inv(After(w, c, step), c)
  {
    var w' := After(w, c, step);
    assert Withdrawn(w') <==> Withdrawn(w);
    forall id | (c.thread, id) in w'.receiver.served ensures exists m | m in w'.acting :: m.id == id {
      if (c.thread, id) !in w.receiver.served { InServed(w, c, step.inbound, id); }
    }
    if c.thread in w.receiver.rows {
      if w.receiver.rows[c.thread].state == Submitted {
        AdmitKeeps(w, c, step.inbound);
      } else {
        InState(w, c, step.inbound);
      }
    }
  }

  lemma AdmitKeeps(w: World, c: Case, a: InboundAnswers)
    requires Inv(w, c) && !a.verdict.Refuse? && c.thread in w.receiver.rows && w.receiver.rows[c.thread].state == Submitted
    ensures var end := HandedIn(w, c, a);
            && c.thread in end.rows && end.rows[c.thread].direction == Inbound
            && (end.rows[c.thread].state == Submitted || (end.rows[c.thread].state == Working && end.rows[c.thread].session.Some?))
            && (forall m | m in w.acting && IsCancel(m) :: (c.thread, m.id) !in end.served)
  {
  }

  lemma StepKeeps(w: World, c: Case, step: Step)
    requires Inv(w, c) && Enabled(w, c, step)
    ensures Inv(After(w, c, step), c)
  {
    match step
    case Post(_) => PostKeeps(w, c, step);
    case Withdraw(_, _, _) => WithdrawKeeps(w, c, step);
    case Discover(_, _) => DiscoverKeeps(w, c, step);
    case HandIn(_) => HandInKeeps(w, c, step);
    case HandOut(_) => HandOutKeeps(w, c, step);
  }

  /** The worlds a commission passes through. */
  ghost predicate IsRun(worlds: seq<World>, c: Case, steps: seq<Step>) {
    && |worlds| == |steps| + 1
    && (forall i | 0 <= i <= |steps| :: worlds[i].acting != [])
    && forall i | 0 <= i < |steps| ::
         Enabled(worlds[i], c, steps[i]) && worlds[i + 1] == After(worlds[i], c, steps[i])
  }

  lemma {:induction false} Throughout(worlds: seq<World>, c: Case, steps: seq<Step>, n: nat)
    requires IsRun(worlds, c, steps) && Commissioned(worlds[0], c) && n <= |steps|
    ensures Inv(worlds[n], c)
  {
    if n > 0 {
      Throughout(worlds, c, steps, n - 1);
      StepKeeps(worlds[n - 1], c, steps[n - 1]);
    }
  }

  // ---- the two records agree -------------------------------------------------------------

  /** Where the commission stands: withdrawn, or whatever its newest message says. */
  ghost predicate StandsAt(w: World, c: Case, state: BorderState)
    requires w.acting != []
  {
    if Withdrawn(w) then state == Canceled else NewestSays(w.acting, c.worker, state)
  }

  /** Whatever has happened to an admitted commission since it was made, one handover on each side,
      in either order, leaves both records saying where it stands. */
  lemma BothSettle(worlds: seq<World>, c: Case, steps: seq<Step>, n: nat, a: InboundAnswers, b: OutboundAnswers)
    requires IsRun(worlds, c, steps) && Commissioned(worlds[0], c) && n <= |steps|
    requires c.thread in worlds[n].receiver.rows && worlds[n].receiver.rows[c.thread].state != Submitted
    requires Enabled(worlds[n], c, HandIn(a)) && a.hopOk && Enabled(worlds[n], c, HandOut(b)) && b.peerHolds
    ensures var w := worlds[n];
            var inFirst := After(After(w, c, HandIn(a)), c, HandOut(b));
            var outFirst := After(After(w, c, HandOut(b)), c, HandIn(a));
            && inFirst == outFirst
            && c.thread in inFirst.caller.rows && StandsAt(w, c, inFirst.caller.rows[c.thread].state)
            && c.thread in inFirst.receiver.rows && inFirst.receiver.rows[c.thread].state == inFirst.caller.rows[c.thread].state
  {
    var w := worlds[n];
    Throughout(worlds, c, steps, n);
    OutState(w, c, b);
    InState(w, c, a);
    NobodyAnswered(w, c);
    HandInLeavesRow(w, c, a, b);
  }

  /** With nothing answered the newest message is the caller's, and the work is on. */
  lemma NobodyAnswered(w: World, c: Case)
    requires w.acting != []
    ensures !Answered(w.acting, c.worker) ==> NewestSays(w.acting, c.worker, Working)
  {
    assert w.acting[|w.acting| - 1] in w.acting;
  }

  lemma HandInLeavesRow(w: World, c: Case, a: InboundAnswers, b: OutboundAnswers)
    requires w.acting != []
    ensures HandedOut(After(w, c, HandIn(a)), c, b) == HandedOut(w, c, b)
    ensures HandedIn(After(w, c, HandOut(b)), c, a) == HandedIn(w, c, a)
  {
  }
}
