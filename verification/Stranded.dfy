/** Where the border record gets stuck or loses a final state (`crates/chat/src/border.rs`): a
    refusal whose reply could not be written, a run that stops between winning an admission and
    recording its session, and a final state overwritten by a run that read the row earlier. */
module Stranded {
  import opened Options
  import opened Border
  import opened Interleaving

  /** An inbound commission taken, with no session to hand anything to. */
  predicate IsStranded(tb: Tables, t: string) {
    t in tb.rows && tb.rows[t].direction == Inbound && tb.rows[t].state == Working && tb.rows[t].session.None?
  }

  /** No handover acts on it, whatever the thread says and the host answers. */
  lemma HandledStranded(tb: Tables, t: string, call: Call)
    requires IsStranded(tb, t)
    ensures Handled(tb, t, call) == tb
  {
  }

  /** Handovers one after the other, on any threads. */
  function Handovers(tb: Tables, calls: seq<(string, Call)>): Tables
    decreases |calls|
  {
    if calls == [] then tb else Handovers(Handled(tb, calls[0].0, calls[0].1), calls[1..])
  }

  /** A stranded commission stays as it is through any number of handovers. */
  lemma {:induction false} StrandedForever(tb: Tables, t: string, calls: seq<(string, Call)>)
    requires IsStranded(tb, t)
    ensures SameAt(Handovers(tb, calls), tb, t)
    decreases |calls|
  {
    if calls != [] {
      var next := Handled(tb, calls[0].0, calls[0].1);
      if calls[0].0 == t {
        HandledStranded(tb, t, calls[0].1);
      } else {
        HandledFrame(tb, calls[0].0, calls[0].1, t);
      }
      StrandedForever(next, t, calls[1..]);
    }
  }

  /** A refusal that is answered at all ends rejected exactly when its reply could be written; without
      the reply a commission that had no session is stranded. */
  lemma RefusalEndsExactly(tb: Tables, t: string, opening: Message, a: InboundAnswers)
    requires Claimable(tb, t) && a.verdict.Refuse? && a.verdict.refusal != WorkspaceUnknown
    ensures t in Judged(tb, t, opening, a).rows
    ensures Judged(tb, t, opening, a).rows[t].state == Rejected <==> a.replied
    ensures tb.rows[t].direction == Inbound && tb.rows[t].session.None? ==> (IsStranded(Judged(tb, t, opening, a), t) <==> !a.replied)
  {
  }

  // ---- a run that stops ------------------------------------------------------------------

  /** Stopping after the claim, or after the start, leaves the commission stranded. */
  lemma StopStrands(s: State, r: int, t: string, session: string)
    requires PcOf(s, r).Idle? && Claimable(s.tb, t) && s.tb.rows[t].direction == Inbound && s.tb.rows[t].session.None?
    ensures var claimed := After(s, ClaimToStart(r, t));
            var started := After(claimed, StartSucceeds(r, session));
            IsStranded(After(claimed, Stop(r)).tb, t) && IsStranded(After(started, Stop(r)).tb, t)
  {
  }

  /** From a state in which nobody holds the admission of a taken commission, nobody ever does
      again, and no further start succeeds. */
  lemma {:induction false} NeverAdmittedAgain(states: seq<State>, steps: seq<Step>, k: nat, n: nat, t: string)
    requires IsRun(states, steps) && k <= n <= |steps|
    requires Taken(states[k], t) && forall r :: !Holds(PcOf(states[k], r), t)
    ensures Taken(states[n], t) && (forall r :: !Holds(PcOf(states[n], r), t)) && states[n].starts[t] == states[k].starts[t]
  {
    if k < n {
      NeverAdmittedAgain(states, steps, k, n - 1, t);
      var s, step, s' := states[n - 1], steps[n - 1], states[n];
      if step.GiveAdmissionBack? { assert Holds(PcOf(s, step.run), PcOf(s, step.run).thread); }
      if step.StartSucceeds? { assert Holds(PcOf(s, step.run), PcOf(s, step.run).thread); }
      TakenStays(s, step, s', t);
      forall r ensures !Holds(PcOf(s', r), t) {
        if Holds(PcOf(s', r), t) { HolderFrom(s, step, s', r, t); }
      }
    }
  }

  /** A holder that stops is such a state, in every interleaving. */
  lemma StoppedForGood(states: seq<State>, steps: seq<Step>, k: nat, n: nat, r: int, t: string)
    requires IsRun(states, steps) && Quiet(states[0]) && k < n <= |steps|
    requires Holds(PcOf(states[k], r), t) && steps[k] == Stop(r)
    ensures Taken(states[n], t) && (forall q :: !Holds(PcOf(states[n], q), t)) && states[n].starts[t] == states[k].starts[t]
  {
    AdmissionThroughout(states, steps, k);
    var s, s' := states[k], states[k + 1];
    TakenStays(s, steps[k], s', t);
    forall q ensures !Holds(PcOf(s', q), t) {
      if q != r { OthersStay(s, steps[k], s', q); }
    }
    NeverAdmittedAgain(states, steps, k + 1, n, t);
  }

  // ---- final states ----------------------------------------------------------------------

  /** The step writes another state over the thread's. */
  predicate Overwrites(s: State, step: Step, t: string)
    requires Enabled(s, step) && t in s.tb.rows
  {
    || (step.Write? && step.thread == t && step.state != s.tb.rows[t].state)
    || (step.RecordRefusal? && PcOf(s, step.run).thread == t && s.tb.rows[t].state != Rejected)
    || (step.GiveAdmissionBack? && PcOf(s, step.run).thread == t)
  }

  /** A final state survives a step exactly when the step is none of these three writes. */
  lemma FinalKeptExactly(s: State, step: Step, t: string)
    requires Enabled(s, step) && t in s.tb.rows && IsFinal(s.tb.rows[t].state)
    ensures t in After(s, step).tb.rows
    ensures After(s, step).tb.rows[t].state == s.tb.rows[t].state <==> !Overwrites(s, step, t)
  {
  }

  /** Two runs that both read the row while it was open: one cancels, the other writes what the
      messages said, and the commission is open again. */
  lemma FinalOverwritten(s: State, t: string, q: int, r: int) returns (states: seq<State>)
    requires Quiet(s) && t in s.tb.rows && s.tb.rows[t].state == Working
    ensures IsRun(states, [Write(q, t, Canceled, None), Write(r, t, Completed, None)]) && states[0] == s
    ensures t in states[1].tb.rows && states[1].tb.rows[t].state == Canceled
    ensures t in states[2].tb.rows && states[2].tb.rows[t].state == Completed
  {
    var s1 := After(s, Write(q, t, Canceled, None));
    assert PcOf(s1, r) == Idle;
    states := [s, s1, After(s1, Write(r, t, Completed, None))];
  }
}
