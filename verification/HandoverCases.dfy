/** What a handover does to one row, case by case (`act_inbound` and `act_outbound` in
    `crates/chat/src/border.rs`): its state, its session, its reason and its marks afterwards. */
module HandoverCases {
  import opened Options
  import opened Border

  /** The marks of the messages a side has to hand on, whether they were there or not. */
  ghost function OthersMarks(t: string, acting: seq<Message>, worker: string): set<(string, string)> {
    set m | m in acting && m.sender != worker :: (t, m.id)
  }

  ghost function WorkersMarks(t: string, acting: seq<Message>, worker: string): set<(string, string)> {
    set m | m in acting && m.sender == worker :: (t, m.id)
  }

  /** Due and marked is the same as marked whether due or not. */
  lemma DueMarks(served: set<(string, string)>, t: string, acting: seq<Message>, worker: string)
    ensures served + IdsOf(t, Due(served, t, acting, worker, Inbound)) == served + OthersMarks(t, acting, worker)
    ensures served + IdsOf(t, Due(served, t, acting, worker, Outbound)) == served + WorkersMarks(t, acting, worker)
    ensures Due(served, t, acting, worker, Inbound) == [] <==> OthersMarks(t, acting, worker) <= served
    ensures Due(served, t, acting, worker, Outbound) == [] <==> WorkersMarks(t, acting, worker) <= served
  {
    var due, out := Due(served, t, acting, worker, Inbound), Due(served, t, acting, worker, Outbound);
    forall m ensures m in due <==> m in acting && m.sender != worker && (t, m.id) !in served {
      DueMeans(served, t, acting, worker, Inbound, m);
    }
    forall m ensures m in out <==> m in acting && m.sender == worker && (t, m.id) !in served {
      DueMeans(served, t, acting, worker, Outbound, m);
    }
    if due != [] { assert due[0] in due; }
    if out != [] { assert out[0] in out; }
  }

  /** A commission that is still submitted: admitted and started it is working, with its session and
      its opening marked; refused by an unknown workspace it is rejected without a claim; refused
      otherwise it is rejected once the reply is written. Everything else leaves it, but for the
      claim of a refusal whose reply failed. */
  lemma AdmissionCases(tb: Tables, t: string, row: Row, v: View, a: InboundAnswers)
    requires t in tb.rows && tb.rows[t] == row && row.state == Submitted && v.opening.Some?
    ensures var tb' := ActedInbound(tb, t, row, v, a);
            && (a.verdict.Unreadable? ==> tb' == tb)
            && (a.verdict.Admit? && a.session.None? ==> tb' == tb)
            && (a.verdict.Admit? && a.session.Some? ==>
                  t in tb'.rows && tb'.rows[t] == row.(state := Working, session := a.session)
                  && tb'.served == tb.served + {(t, v.opening.value.id)})
            && (a.verdict.Refuse? && (a.verdict.refusal == WorkspaceUnknown || a.replied) ==>
                  t in tb'.rows && tb'.rows[t] == row.(state := Rejected, reason := Some(a.verdict.text)) && tb'.served == tb.served)
            && (a.verdict.Refuse? && a.verdict.refusal != WorkspaceUnknown && !a.replied ==>
                  t in tb'.rows && tb'.rows[t] == row.(state := Working) && tb'.served == tb.served)
  {
  }

  /** An unserved message of the caller that takes the commission back. */
  predicate TakesBack(tb: Tables, t: string, v: View, m: Message) {
    m.sender != v.worker && (t, m.id) !in tb.served && m.border.Some? && m.border.value.canceled
  }

  ghost predicate TakenBack(tb: Tables, t: string, v: View) { exists m | m in v.acting :: TakesBack(tb, t, v, m) }

  /** An admitted commission: taken back it is canceled and everything marked; without room in the
      chain for what is unserved it is left; otherwise its newest message says where it stands, and
      everything is marked if the session woke or will get it. */
  lemma FollowCases(tb: Tables, t: string, row: Row, v: View, a: InboundAnswers)
    requires t in tb.rows && tb.rows[t] == row && row.state != Submitted && row.session.Some? && v.opening.Some?
    ensures var tb', marks := ActedInbound(tb, t, row, v, a), OthersMarks(t, v.acting, v.worker);
            && t in tb'.rows && tb'.rows[t].session == row.session
            && (TakenBack(tb, t, v) ==>
                  && tb'.rows[t].state == Canceled && tb'.served == tb.served + marks
                  && exists m | m in v.acting :: TakesBack(tb, t, v, m) && tb'.rows[t].reason == Some(m.body))
            && (!TakenBack(tb, t, v) && !(marks <= tb.served) && !a.hopOk ==> tb' == tb)
            && (!TakenBack(tb, t, v) && (marks <= tb.served || a.hopOk) ==>
                  && (if v.acting == [] then tb'.rows[t].state == row.state else NewestSays(v.acting, v.worker, tb'.rows[t].state))
                  && tb'.rows[t].reason == row.reason
                  && tb'.served == if a.outcome == Neither then tb.served else tb.served + marks)
  {
    var due := Due(tb.served, t, v.acting, v.worker, Inbound);
    DueMarks(tb.served, t, v.acting, v.worker);
    TakenBackMeans(tb, t, v);
  }

  lemma TakenBackMeans(tb: Tables, t: string, v: View)
    ensures TakenBack(tb, t, v) <==> FirstCancel(Due(tb.served, t, v.acting, v.worker, Inbound)).Some?
    ensures TakenBack(tb, t, v) ==> var m := FirstCancel(Due(tb.served, t, v.acting, v.worker, Inbound)).value; m in v.acting && TakesBack(tb, t, v, m)
  {
    var due := Due(tb.served, t, v.acting, v.worker, Inbound);
    forall m ensures m in due <==> m in v.acting && m.sender != v.worker && (t, m.id) !in tb.served {
      DueMeans(tb.served, t, v.acting, v.worker, Inbound, m);
    }
  }

  /** A worker's message that carries a refusal. */
  ghost predicate Refused(v: View) { exists i :: RefusesAt(v.acting, v.worker, i) }

  /** The caller gives up on an answer it cannot vouch for while anything is open, and on silence
      while the work has not come back. */
  predicate GivenUp(row: Row, a: OutboundAnswers) {
    || (a.unvouched && row.state in {Submitted, Working, InputRequired})
    || (a.overdue && row.state in {Submitted, Working})
  }

  /** The caller's row while the worker is expected: given up it is canceled; refused it is rejected;
      answered, the newest message says where it stands; otherwise it is working once the peer has
      it. */
  lemma OutboundCases(tb: Tables, t: string, row: Row, v: View, a: OutboundAnswers)
    requires t in tb.rows && tb.rows[t] == row && a.expected
    ensures var row' := ActedOutbound(tb, t, row, v, a).rows[t];
            && row'.session == row.session
            && (GivenUp(row, a) ==> row'.state == Canceled && row'.reason == Some(a.text))
            && (!GivenUp(row, a) && Refused(v) ==> row'.state == Rejected && (row.state != Rejected ==> row'.reason == Some(a.text)))
            && (!GivenUp(row, a) && !Refused(v) && Answered(v.acting, v.worker) ==>
                  NewestSays(v.acting, v.worker, row'.state) && row'.reason == row.reason)
            && (!GivenUp(row, a) && !Refused(v) && !Answered(v.acting, v.worker) ==>
                  row' == row.(state := if row.state == Submitted && a.peerHolds then Working else row.state))
  {
  }

  /** The caller's marks: nothing while the worker is not expected, it gave up, or the chain has no
      room; otherwise what the worker wrote, unless a session was resumed and nothing came of it. */
  lemma OutboundMarks(tb: Tables, t: string, row: Row, v: View, a: OutboundAnswers)
    ensures var served', marks := ActedOutbound(tb, t, row, v, a).served, WorkersMarks(t, v.acting, v.worker);
            if a.expected && !GivenUp(row, a) && (row.session.None? || (a.hopOk && a.outcome != Neither)) then served' == tb.served + marks
            else served' == tb.served
  {
    DueMarks(tb.served, t, v.acting, v.worker);
  }

  lemma NotExpected(tb: Tables, t: string, row: Row, v: View, a: OutboundAnswers)
    requires !a.expected
    ensures ActedOutbound(tb, t, row, v, a) == tb
  {
  }
}
