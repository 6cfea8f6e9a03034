/** The border record as the store object that the handover updates statement by statement
    (`crates/chat/src/border.rs`). */
module BorderStores {
  import opened Options
  import opened Border

  class BorderStore {
    var rows: map<string, Row>
    var served: set<(string, string)>

    function Record(): Tables
      reads this
    {
      Tables(rows, served)
    }

    constructor (tb: Tables)
      ensures Record() == tb
    {
      rows, served := tb.rows, tb.served;
    }

    method InsertRow(thread: string, direction: Direction, peer: string, persona: string, session: Option<string>)
      modifies this
      ensures Record() == Inserted(old(Record()), thread, direction, peer, persona, session)
      ensures forall t | t in old(rows) :: t in rows && rows[t] == old(rows)[t]
      ensures thread !in old(rows) ==> Claimable(Record(), thread)
    {
      if thread !in rows { rows := rows[thread := Row(direction, peer, persona, Submitted, None, session)]; }
    }

    method SetState(thread: string, state: BorderState, reason: Option<string>)
      modifies this
      ensures Record() == WithState(old(Record()), thread, state, reason)
    {
      if thread in rows {
        var row := rows[thread];
        rows := rows[thread := row.(state := state, reason := if reason.Some? then reason else row.reason)];
      }
    }

    method SetSession(thread: string, session: string)
      modifies this
      ensures Record() == WithSession(old(Record()), thread, session)
    {
      if thread in rows { rows := rows[thread := rows[thread].(session := Some(session))]; }
    }

    method MarkServed(thread: string, message: string) returns (won: bool)
      modifies this
      ensures won <==> (thread, message) !in old(served)
      ensures Record() == Marked(old(Record()), thread, message)
    {
      won := (thread, message) !in served;
      served := served + {(thread, message)};
    }

    method UnmarkServed(thread: string, message: string)
      modifies this
      ensures Record() == Unmarked(old(Record()), thread, message)
    {
      served := served - {(thread, message)};
    }

    method ClaimAdmission(thread: string) returns (won: bool)
      modifies this
      ensures won <==> Claimable(old(Record()), thread)
      ensures Record() == Claimed(old(Record()), thread)
    {
      won := thread in rows && rows[thread].state == Submitted;
      if won { rows := rows[thread := rows[thread].(state := Working)]; }
    }

    /** Marks every message and keeps those whose mark was new. */
    method ClaimMessages(thread: string, messages: seq<Message>) returns (claimed: seq<Message>)
      modifies this
      ensures rows == old(rows) && served == old(served) + IdsOf(thread, messages)
      ensures forall m | m in claimed :: m in messages
      ensures IdsOf(thread, claimed) == served - old(served)
    {
      claimed := [];
      for i := 0 to |messages|
        invariant rows == old(rows) && served == old(served) + IdsOf(thread, messages[..i])
        invariant forall m | m in claimed :: m in messages
        invariant IdsOf(thread, claimed) == served - old(served)
      {
        assert messages[..i + 1] == messages[..i] + [messages[i]];
        IdsStep(thread, messages[..i], messages[i]);
        IdsStep(thread, claimed, messages[i]);
        var won := MarkServed(thread, messages[i].id);
        if won { claimed := claimed + [messages[i]]; }
      }
      assert messages[..|messages|] == messages;
    }

    method GiveBack(thread: string, messages: seq<Message>)
      modifies this
      ensures rows == old(rows) && served == old(served) - IdsOf(thread, messages)
    {
      for i := 0 to |messages|
        invariant rows == old(rows) && served == old(served) - IdsOf(thread, messages[..i])
      {
        assert messages[..i + 1] == messages[..i] + [messages[i]];
        IdsStep(thread, messages[..i], messages[i]);
        UnmarkServed(thread, messages[i].id);
      }
      assert messages[..|messages|] == messages;
    }

    /** Claims the messages, resumes the session with those it won, and gives them back when nothing
        was put in motion. */
    method Deliver(thread: string, messages: seq<Message>, outcome: Outcome) returns (woke: bool)
      modifies this
      ensures Record() == Delivered(old(Record()), thread, messages, outcome)
      ensures woke <==> outcome == Woke && exists m | m in messages :: (thread, m.id) !in old(served)
    {
      var claimed := ClaimMessages(thread, messages);
      if claimed == [] {
        assert IdsOf(thread, claimed) == {};
        assert forall p | p in served :: p in old(served) || p in served - old(served);
        assert served == old(served);
        assert forall m | m in messages :: (thread, m.id) in IdsOf(thread, messages);
        return false;
      }
      assert (thread, claimed[0].id) in IdsOf(thread, claimed) && claimed[0] in messages;
      if outcome == Neither { GiveBack(thread, claimed); }
      woke := outcome == Woke;
    }

    /** The messages of the thread this side has to hand on, oldest first. */
    method DueMessages(thread: string, acting: seq<Message>, worker: string, d: Direction) returns (due: seq<Message>)
      ensures due == Due(served, thread, acting, worker, d)
    {
      due := [];
      for i := 0 to |acting|
        invariant due == Due(served, thread, acting[..i], worker, d)
      {
        assert acting[..i + 1][..i] == acting[..i];
        if ForSide(acting[i], worker, d) && (thread, acting[i].id) !in served { due := due + [acting[i]]; }
      }
      assert acting[..|acting|] == acting;
    }

    method MarkAll(thread: string, messages: seq<Message>)
      modifies this
      ensures rows == old(rows) && served == old(served) + IdsOf(thread, messages)
    {
      var _ := ClaimMessages(thread, messages);
    }

    method Judge(thread: string, opening: Message, a: InboundAnswers)
      modifies this
      ensures Record() == Judged(old(Record()), thread, opening, a)
    {
      match a.verdict {
        case Unreadable =>
        case Admit =>
          var won := ClaimAdmission(thread);
          if !won { return; }
          if a.session.None? { SetState(thread, Submitted, None); return; }
          SetSession(thread, a.session.value);
          var _ := MarkServed(thread, opening.id);
        case Refuse(WorkspaceUnknown, text) => SetState(thread, Rejected, Some(text));
        case Refuse(_, text) =>
          var won := ClaimAdmission(thread);
          if won && a.replied { SetState(thread, Rejected, Some(text)); }
      }
    }

    method Follow(thread: string, row: Row, session: string, v: View, a: InboundAnswers) returns (woke: Option<string>)
      modifies this
      ensures Record() == Followed(old(Record()), thread, row, v, a)
      ensures woke.Some? ==> woke.value == session && a.outcome == Woke
    {
      var due := DueMessages(thread, v.acting, v.worker, Inbound);
      var cancel := FirstCancel(due);
      if cancel.Some? {
        MarkAll(thread, due);
        SetState(thread, Canceled, Some(cancel.value.body));
        return None;
      }
      woke := None;
      if due != [] {
        if !a.hopOk { return; }
        var now := Deliver(thread, due, a.outcome);
        if now { woke := Some(session); }
      } else {
        assert IdsOf(thread, due) == {};
      }
      var state := StateAfter(v.acting, v.worker, row.state);
      if state != row.state { SetState(thread, state, None); }
    }

    method ActInbound(thread: string, row: Row, v: View, a: InboundAnswers)
      modifies this
      ensures Record() == ActedInbound(old(Record()), thread, row, v, a)
    {
      if v.opening.None? { return; }
      if row.state == Submitted { Judge(thread, v.opening.value, a); return; }
      if row.session.None? { return; }
      var _ := Follow(thread, row, row.session.value, v, a);
    }

    method ActOutbound(thread: string, row: Row, v: View, a: OutboundAnswers)
      modifies this
      ensures Record() == ActedOutbound(old(Record()), thread, row, v, a)
    {
      if !a.expected { return; }
      if (InProgress(row.state) && a.unvouched) || ((row.state.Working? || row.state.Submitted?) && a.overdue) {
        SetState(thread, Canceled, Some(a.text));
        return;
      }
      var refusal := NewestRefusal(v.acting, v.worker);
      var state := row.state;
      if refusal.Some? {
        state := Rejected;
      } else if exists m | m in v.acting :: m.sender == v.worker {
        state := StateAfter(v.acting, v.worker, row.state);
      } else if row.state == Submitted && a.peerHolds {
        state := Working;
      }
      if state != row.state { SetState(thread, state, if refusal.Some? then Some(a.text) else None); }
      var due := DueMessages(thread, v.acting, v.worker, Outbound);
      if due == [] { return; }
      if row.session.Some? {
        if a.hopOk { var _ := Deliver(thread, due, a.outcome); }
      } else {
        MarkAll(thread, due);
      }
    }

    /** The second half of a handover: acts on every open thread of a list read once. Each thread
        ends up as if it alone had been handled, and whatever was final stays as it was. */
    method HandOver(listed: seq<string>, calls: string -> Call)
      requires forall i, j | 0 <= i < j < |listed| :: listed[i] != listed[j]
      requires forall t :: t in listed <==> t in rows
      modifies this
      ensures forall t | t in listed :: SameAt(Record(), Handled(old(Record()), t, calls(t)), t)
      ensures rows.Keys == old(rows).Keys
      ensures forall t | t in old(rows) && IsFinal(old(rows)[t].state) :: SameAt(Record(), old(Record()), t)
    {
      var snapshot := rows;
      for i := 0 to |listed|
        invariant Progress(old(Record()), Record(), listed[..i], calls)
      {
        var t := listed[i];
        assert listed[..i + 1] == listed[..i] + [t] && t !in listed[..i];
        ghost var before := Record();
        assert SameAt(before, old(Record()), t);
        HandleThread(t, snapshot[t], calls(t));
        ProgressStep(old(Record()), before, listed[..i], t, calls);
      }
      assert listed[..|listed|] == listed;
      ProgressEnds(old(Record()), Record(), listed, calls);
    }

    method HandleThread(thread: string, row: Row, call: Call)
      requires thread in rows && rows[thread] == row
      modifies this
      ensures Record() == Handled(old(Record()), thread, call)
    {
      if IsFinal(row.state) { return; }
      if row.direction == Inbound {
        ActInbound(thread, row, call.view, call.inbound);
      } else {
        ActOutbound(thread, row, call.view, call.outbound);
      }
    }
  }

  lemma IdsStep(thread: string, messages: seq<Message>, m: Message)
    ensures IdsOf(thread, messages + [m]) == IdsOf(thread, messages) + {(thread, m.id)}
  {
  }

  /** The threads in `done` stand as if each alone had been handled, the others as they were. */
  ghost predicate Progress(start: Tables, now: Tables, done: seq<string>, calls: string -> Call) {
    && (forall t | t in done :: SameAt(now, Handled(start, t, calls(t)), t))
    && (forall t | t !in done :: SameAt(now, start, t))
  }

  lemma ProgressStep(start: Tables, before: Tables, done: seq<string>, thread: string, calls: string -> Call)
    requires Progress(start, before, done, calls) && thread !in done
    ensures Progress(start, Handled(before, thread, calls(thread)), done + [thread], calls)
  {
    var now := Handled(before, thread, calls(thread));
    HandledLocal(before, start, thread, calls(thread));
    forall t | t != thread ensures SameAt(now, before, t) { HandledFrame(before, thread, calls(thread), t); }
    forall t | t in done + [thread] ensures SameAt(now, Handled(start, t, calls(t)), t) {
      if t != thread { SameTrans(now, before, Handled(start, t, calls(t)), t); }
    }
    forall t | t !in done + [thread] ensures SameAt(now, start, t) { SameTrans(now, before, start, t); }
  }

  lemma SameTrans(a: Tables, b: Tables, c: Tables, thread: string)
    requires SameAt(a, b, thread) && SameAt(b, c, thread)
    ensures SameAt(a, c, thread)
  {
  }

  lemma ProgressEnds(start: Tables, now: Tables, done: seq<string>, calls: string -> Call)
    requires Progress(start, now, done, calls) && forall t :: t in done <==> t in start.rows
    ensures now.rows.Keys == start.rows.Keys
    ensures forall t | t in start.rows && IsFinal(start.rows[t].state) :: SameAt(now, start, t)
  {
    forall t ensures t in now.rows <==> t in start.rows {
      if t in done { HandledKeepsRow(start, t, calls(t)); }
    }
  }

  lemma HandledKeepsRow(tb: Tables, thread: string, call: Call)
    requires thread in tb.rows
    ensures thread in Handled(tb, thread, call).rows
  {
  }
}
