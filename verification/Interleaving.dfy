/** Any number of handovers of one workspace at once (`crates/chat/src/border.rs`): the service's
    pass, a `send`, the peer's child process. Every SQL statement is one atomic step, and a run may
    stop between any two of them. What a run read earlier may be stale, so a run may attempt any
    operation on any thread at any time. */
module Interleaving {
  import opened Options
  import opened Border

  /** Where a run stands inside one operation. */
  datatype Pc =
    | Idle
    | Starting(thread: string)                   // won the admission, the persona's start is in flight
    | Started(thread: string, session: string)   // the start succeeded
    | GivingBack(thread: string)                 // the start failed
    | Opened(thread: string)                     // the session is recorded, the opening is not yet marked
    | Refusing(thread: string, text: string)     // won the admission in order to refuse
    | Answering(thread: string, text: string)    // the refusal is written on the thread
    | Claiming(thread: string, todo: seq<string>, mine: set<string>, delivery: nat)
    | Returning(thread: string, mine: set<string>, left: set<string>, delivery: nat)

  /** The record, the runs, and what has happened: successful starts, the messages of each
      delivery that woke or held a session, the messages each other delivery gave back, and which
      delivery's claim each pair is. */
  datatype State = State(tb: Tables, runs: map<int, Pc>, starts: multiset<string>,
                         carried: map<nat, (string, set<string>)>, returned: map<nat, (string, set<string>)>,
                         owner: map<(string, string), nat>, next: nat)

  datatype Step =
    | Insert(thread: string, direction: Direction, peer: string, persona: string, caller: Option<string>)
    | ClaimToStart(run: int, thread: string)
    | ClaimToRefuse(run: int, thread: string, text: string)
    | StartSucceeds(run: int, session: string)
    | StartFails(run: int)
    | GiveAdmissionBack(run: int)
    | RecordSession(run: int)
    | MarkOpening(run: int, message: string)
    | RefusalWritten(run: int)
    | RecordRefusal(run: int)
    | Write(run: int, thread: string, state: BorderState, reason: Option<string>)
    | Mark(run: int, thread: string, message: string)
    | BeginDelivery(run: int, thread: string, messages: seq<string>)
    | ClaimNext(run: int, fails: bool)
    | Resume(run: int, outcome: Outcome)
    | Unclaim(run: int, message: string, fails: bool)
    | Stop(run: int)

  function PcOf(s: State, run: int): Pc { if run in s.runs then s.runs[run] else Idle }

  /** A step fits where its run stands. No operation but giving an admission back writes
      `Submitted`. */
  predicate Enabled(s: State, step: Step) {
    match step
    case Insert(_, _, _, _, _) => true
    case ClaimToStart(r, _) => PcOf(s, r).Idle?
    case ClaimToRefuse(r, _, _) => PcOf(s, r).Idle?
    case StartSucceeds(r, _) => PcOf(s, r).Starting?
    case StartFails(r) => PcOf(s, r).Starting?
    case GiveAdmissionBack(r) => PcOf(s, r).GivingBack?
    case RecordSession(r) => PcOf(s, r).Started?
    case MarkOpening(r, _) => PcOf(s, r).Opened?
    case RefusalWritten(r) => PcOf(s, r).Refusing?
    case RecordRefusal(r) => PcOf(s, r).Answering?
    case Write(r, _, state, _) => PcOf(s, r).Idle? && state != Submitted
    case Mark(r, _, _) => PcOf(s, r).Idle?
    case BeginDelivery(r, _, _) => PcOf(s, r).Idle?
    case ClaimNext(r, _) => PcOf(s, r).Claiming? && PcOf(s, r).todo != []
    case Resume(r, _) => PcOf(s, r).Claiming? && PcOf(s, r).todo == []
    case Unclaim(r, m, _) => PcOf(s, r).Returning? && m in PcOf(s, r).left
    case Stop(_) => true
  }

  /** Where the run stands after its step. A claim moves on when the row was still submitted; a
      delivery keeps a message when its mark is new, and leaves it to whoever marked it otherwise; a
      resume that woke and held nothing gives back; a delete that fails is not noticed, and its
      claim stands. */
  function PcAfter(s: State, step: Step): Pc
    requires Enabled(s, step) && !step.Insert?
  {
    var pc := PcOf(s, step.run);
    match step
    case ClaimToStart(_, t) => if Claimable(s.tb, t) then Starting(t) else Idle
    case ClaimToRefuse(_, t, text) => if Claimable(s.tb, t) then Refusing(t, text) else Idle
    case StartSucceeds(_, session) => Started(pc.thread, session)
    case StartFails(_) => GivingBack(pc.thread)
    case RecordSession(_) => Opened(pc.thread)
    case RefusalWritten(_) => Answering(pc.thread, pc.text)
    case BeginDelivery(_, t, messages) => Claiming(t, messages, {}, s.next)
    case ClaimNext(_, _) => if Wins(s, step) then pc.(todo := pc.todo[1..], mine := pc.mine + {pc.todo[0]}) else pc.(todo := pc.todo[1..])
    case Resume(_, outcome) =>
      if pc.mine != {} && outcome == Neither then Returning(pc.thread, pc.mine, pc.mine, pc.delivery) else Idle
    case Unclaim(_, m, fails) => if pc.left == {m} then Idle else pc.(mine := Given(pc, m, fails), left := pc.left - {m})
    case _ => Idle
  }

  /** The step claims the next message of its delivery. */
  predicate Wins(s: State, step: Step)
    requires Enabled(s, step)
  {
    step.ClaimNext? && !step.fails && (PcOf(s, step.run).thread, PcOf(s, step.run).todo[0]) !in s.tb.served
  }

  /** The messages of the delivery that are given back, or still to be. */
  function Given(pc: Pc, m: string, fails: bool): set<string>
    requires pc.Returning?
  {
    if fails then pc.mine - {m} else pc.mine
  }

  function TablesAfter(s: State, step: Step): Tables
    requires Enabled(s, step)
  {
    match step
    case Insert(t, d, peer, persona, caller) => Inserted(s.tb, t, d, peer, persona, caller)
    case ClaimToStart(_, t) => Claimed(s.tb, t)
    case ClaimToRefuse(_, t, _) => Claimed(s.tb, t)
    case GiveAdmissionBack(r) => WithState(s.tb, PcOf(s, r).thread, Submitted, None)
    case RecordSession(r) => WithSession(s.tb, PcOf(s, r).thread, PcOf(s, r).session)
    case MarkOpening(r, m) => Marked(s.tb, PcOf(s, r).thread, m)
    case RecordRefusal(r) => WithState(s.tb, PcOf(s, r).thread, Rejected, Some(PcOf(s, r).text))
    case Write(_, t, state, reason) => WithState(s.tb, t, state, reason)
    case Mark(_, t, m) => Marked(s.tb, t, m)
    case ClaimNext(r, _) => if Wins(s, step) then Marked(s.tb, PcOf(s, r).thread, PcOf(s, r).todo[0]) else s.tb
    case Unclaim(r, m, fails) => if fails then s.tb else Unmarked(s.tb, PcOf(s, r).thread, m)
    case _ => s.tb
  }

  function OwnerAfter(s: State, step: Step): map<(string, string), nat>
    requires Enabled(s, step)
  {
    if Wins(s, step) then s.owner[(PcOf(s, step.run).thread, PcOf(s, step.run).todo[0]) := PcOf(s, step.run).delivery]
    else if step.Unclaim? && !step.fails then s.owner - {(PcOf(s, step.run).thread, step.message)}
    else s.owner
  }

  function CarriedAfter(s: State, step: Step): map<nat, (string, set<string>)>
    requires Enabled(s, step)
  {
    if step.Resume? && PcOf(s, step.run).mine != {} && step.outcome != Neither then
      s.carried[PcOf(s, step.run).delivery := (PcOf(s, step.run).thread, PcOf(s, step.run).mine)]
    else s.carried
  }

  function ReturnedAfter(s: State, step: Step): map<nat, (string, set<string>)>
    requires Enabled(s, step)
  {
    if step.Unclaim? && PcOf(s, step.run).left == {step.message} then
      s.returned[PcOf(s, step.run).delivery := (PcOf(s, step.run).thread, Given(PcOf(s, step.run), step.message, step.fails))]
    else s.returned
  }

  function After(s: State, step: Step): State
    requires Enabled(s, step)
  {
    State(TablesAfter(s, step),
          if step.Insert? then s.runs else s.runs[step.run := PcAfter(s, step)],
          if step.StartSucceeds? then s.starts + multiset{PcOf(s, step.run).thread} else s.starts,
          CarriedAfter(s, step), ReturnedAfter(s, step), OwnerAfter(s, step),
          if step.BeginDelivery? then s.next + 1 else s.next)
  }

  /** The states an interleaving passes through: each but the last makes one enabled step. */
  predicate IsRun(states: seq<State>, steps: seq<Step>) {
    && |states| == |steps| + 1
    && forall i | 0 <= i < |steps| :: Enabled(states[i], steps[i]) && states[i + 1] == After(states[i], steps[i])
  }

  /** Nothing is under way; the record is whatever earlier handovers left. */
  predicate Quiet(s: State) {
    s.runs == map[] && s.starts == multiset{} && s.carried == map[] && s.returned == map[] && s.owner == map[]
  }

  /** A step moves no run but its own. */
  lemma OthersStay(s: State, step: Step, s': State, q: int)
    requires Enabled(s, step) && s' == After(s, step) && (step.Insert? || q != step.run)
    ensures PcOf(s', q) == PcOf(s, q)
  {
  }

  // ---- admission -------------------------------------------------------------------------

  /** The run won the admission of the thread and has not let it go. */
  predicate Holds(pc: Pc, thread: string) {
    (pc.Starting? || pc.Started? || pc.GivingBack? || pc.Refusing? || pc.Answering?) && pc.thread == thread
  }

  /** Holding, with the outcome of the start still open or failed. */
  predicate Undecided(pc: Pc) { pc.Starting? || pc.GivingBack? || pc.Refusing? || pc.Answering? }

  predicate Taken(s: State, thread: string) { thread in s.tb.rows && s.tb.rows[thread].state != Submitted }

  ghost predicate AdmissionInv(s: State) {
    && (forall r, t | Holds(PcOf(s, r), t) :: Taken(s, t))
    && (forall r, q, t | Holds(PcOf(s, r), t) && Holds(PcOf(s, q), t) :: r == q)
    && (forall t | t in s.starts :: s.starts[t] == 1 && Taken(s, t))
    && (forall r, t | t in s.starts && Holds(PcOf(s, r), t) :: !Undecided(PcOf(s, r)))
  }

  /** What a step does to the admission of a thread: it never turns a taken row back unless the run
      that holds it gives it back. */
  lemma TakenStays(s: State, step: Step, s': State, t: string)
    requires Enabled(s, step) && s' == After(s, step) && Taken(s, t) && !(step.GiveAdmissionBack? && PcOf(s, step.run).thread == t)
    ensures Taken(s', t)
  {
  }

  /** A run comes to hold a thread only by finding it submitted, or holds it already. */
  lemma HolderFrom(s: State, step: Step, s': State, r: int, t: string)
    requires Enabled(s, step) && s' == After(s, step) && Holds(PcOf(s', r), t)
    ensures Holds(PcOf(s, r), t) || (!Taken(s, t) && Taken(s', t) && (step.ClaimToStart? || step.ClaimToRefuse?) && step.run == r)
  {
    if step.Insert? || r != step.run { OthersStay(s, step, s', r); }
  }

  lemma HoldersKept(s: State, step: Step)
    requires AdmissionInv(s) && Enabled(s, step)
    ensures var s' := After(s, step);
            && (forall r, t | Holds(PcOf(s', r), t) :: Taken(s', t))
            && (forall r, q, t | Holds(PcOf(s', r), t) && Holds(PcOf(s', q), t) :: r == q)
  {
    var s' := After(s, step);
    forall r, t | Holds(PcOf(s', r), t) ensures Taken(s', t) {
      HolderFrom(s, step, s', r, t);
      if Holds(PcOf(s, r), t) {
        if step.GiveAdmissionBack? { assert Holds(PcOf(s, step.run), PcOf(s, step.run).thread); }
        TakenStays(s, step, s', t);
      }
    }
    forall r, q, t | Holds(PcOf(s', r), t) && Holds(PcOf(s', q), t) ensures r == q {
      HolderFrom(s, step, s', r, t);
      HolderFrom(s, step, s', q, t);
    }
  }

  lemma StartsKept(s: State, step: Step)
    requires AdmissionInv(s) && Enabled(s, step)
    ensures var s' := After(s, step);
            && (forall t | t in s'.starts :: s'.starts[t] == 1 && Taken(s', t))
            && (forall r, t | t in s'.starts && Holds(PcOf(s', r), t) :: !Undecided(PcOf(s', r)))
  {
    var s' := After(s, step);
    forall t | t in s'.starts ensures s'.starts[t] == 1 && Taken(s', t) {
      StartCounted(s, step, s', t);
      if step.GiveAdmissionBack? { assert Holds(PcOf(s, step.run), PcOf(s, step.run).thread); }
      TakenStays(s, step, s', t);
    }
    forall r, t | t in s'.starts && Holds(PcOf(s', r), t) ensures !Undecided(PcOf(s', r)) {
      StartCounted(s, step, s', t);
      HolderFrom(s, step, s', r, t);
      StillDecided(s, step, s', r, t);
    }
  }

  /** A thread is counted as started because it was, or by the run that held it undecided. */
  lemma StartCounted(s: State, step: Step, s': State, t: string)
    requires AdmissionInv(s) && Enabled(s, step) && s' == After(s, step) && t in s'.starts
    ensures s'.starts[t] == 1 && Taken(s, t)
    ensures t !in s.starts ==> step.StartSucceeds? && PcOf(s, step.run) == Starting(t)
    ensures t in s.starts ==> !(step.StartSucceeds? && PcOf(s, step.run).thread == t)
  {
    if step.StartSucceeds? {
      var h := PcOf(s, step.run).thread;
      assert Holds(PcOf(s, step.run), h) && Undecided(PcOf(s, step.run));
    }
  }

  lemma StillDecided(s: State, step: Step, s': State, r: int, t: string)
    requires AdmissionInv(s) && Enabled(s, step) && s' == After(s, step) && Holds(PcOf(s, r), t) && Holds(PcOf(s', r), t)
    requires t in s.starts || (step.StartSucceeds? && PcOf(s, step.run) == Starting(t))
    ensures !Undecided(PcOf(s', r))
  {
    if t !in s.starts {
      assert Holds(PcOf(s, step.run), t);
      assert r == step.run;
    }
  }

  lemma AdmissionKept(s: State, step: Step)
    requires AdmissionInv(s) && Enabled(s, step)
    ensures AdmissionInv(After(s, step))
  {
    HoldersKept(s, step);
    StartsKept(s, step);
  }

  lemma {:induction false} AdmissionThroughout(states: seq<State>, steps: seq<Step>, n: nat)
    requires IsRun(states, steps) && Quiet(states[0]) && n <= |steps|
    ensures AdmissionInv(states[n])
  {
    if n > 0 {
      AdmissionThroughout(states, steps, n - 1);
      AdmissionKept(states[n - 1], steps[n - 1]);
    }
  }

  /** In every interleaving, starts that fail and give the claim back included: two starts for one
      commission are never in flight together, and at most one ever succeeds. */
  lemma OneStart(states: seq<State>, steps: seq<Step>, n: nat, t: string, r: int, q: int)
    requires IsRun(states, steps) && Quiet(states[0]) && n <= |steps|
    ensures PcOf(states[n], r) == Starting(t) && PcOf(states[n], q) == Starting(t) ==> r == q
    ensures states[n].starts[t] <= 1
    ensures states[n].starts[t] == 1 ==> PcOf(states[n], r) != Starting(t)
  {
    AdmissionThroughout(states, steps, n);
    assert Holds(PcOf(states[n], r), t) || PcOf(states[n], r) != Starting(t);
    assert Holds(PcOf(states[n], q), t) || PcOf(states[n], q) != Starting(t);
    if t in states[n].starts { assert states[n].starts[t] == 1; }
  }

  // ---- delivery --------------------------------------------------------------------------

  predicate Delivers(pc: Pc, d: nat) { (pc.Claiming? || pc.Returning?) && pc.delivery == d }

  /** The messages a delivery under way holds a claim on. */
  function HeldBy(pc: Pc): set<string> {
    if pc.Claiming? then pc.mine else if pc.Returning? then pc.left else {}
  }

  predicate Owns(s: State, d: nat, thread: string, m: string) {
    (thread, m) in s.tb.served && (thread, m) in s.owner && s.owner[(thread, m)] == d
  }

  /** Claimed by the delivery and given back since. */
  function GivenBack(pc: Pc): set<string> { if pc.Returning? then pc.mine - pc.left else {} }

  predicate NotOwned(s: State, d: nat, thread: string, m: string) {
    (thread, m) in s.owner ==> s.owner[(thread, m)] != d
  }

  /** Delivery numbers are given out once, and a delivery is under way in one run or over. */
  ghost predicate NumberInv(s: State) {
    && (forall r, d: nat | Delivers(PcOf(s, r), d) :: d < s.next && d !in s.carried && d !in s.returned)
    && (forall r, q, d: nat | Delivers(PcOf(s, r), d) && Delivers(PcOf(s, q), d) :: r == q)
    && (forall d | d in s.carried :: d < s.next && d !in s.returned)
    && (forall d | d in s.returned :: d < s.next)
  }

  /** A delivery owns what it holds or carried, and nothing it gave back. */
  ghost predicate ClaimInv(s: State) {
    && (forall r, m | m in HeldBy(PcOf(s, r)) :: Owns(s, PcOf(s, r).delivery, PcOf(s, r).thread, m))
    && (forall r, m | m in GivenBack(PcOf(s, r)) :: NotOwned(s, PcOf(s, r).delivery, PcOf(s, r).thread, m))
    && (forall d, m | d in s.carried && m in s.carried[d].1 :: Owns(s, d, s.carried[d].0, m))
    && (forall d, m | d in s.returned && m in s.returned[d].1 :: NotOwned(s, d, s.returned[d].0, m))
  }

  lemma NumbersKept(s: State, step: Step)
    requires NumberInv(s) && Enabled(s, step)
    ensures NumberInv(After(s, step))
  {
    var s' := After(s, step);
    forall r, d: nat | Delivers(PcOf(s', r), d) ensures d < s'.next && d !in s'.carried && d !in s'.returned {
      NumberFrom(s, step, s', r, d);
    }
    forall r, q, d: nat | Delivers(PcOf(s', r), d) && Delivers(PcOf(s', q), d) ensures r == q {
      NumberFrom(s, step, s', r, d);
      NumberFrom(s, step, s', q, d);
    }
    forall d | d in s'.carried ensures d < s'.next && d !in s'.returned { EndedFrom(s, step, s', d); }
    forall d | d in s'.returned ensures d < s'.next { EndedFrom(s, step, s', d); }
  }

  /** A delivery under way was so before, or has just been numbered; no other has just ended. */
  lemma NumberFrom(s: State, step: Step, s': State, r: int, d: nat)
    requires NumberInv(s) && Enabled(s, step) && s' == After(s, step) && Delivers(PcOf(s', r), d)
    ensures Delivers(PcOf(s, r), d) || (step.BeginDelivery? && step.run == r && d == s.next)
    ensures d < s'.next && d !in s'.carried && d !in s'.returned
  {
    if step.Insert? || r != step.run {
      OthersStay(s, step, s', r);
      assert Delivers(PcOf(s, r), d);
    }
    EndedFrom(s, step, s', d);
  }

  /** A delivery is over because it was, or because its own run has just ended it. */
  lemma EndedFrom(s: State, step: Step, s': State, d: nat)
    requires Enabled(s, step) && s' == After(s, step)
    ensures s.next <= s'.next
    ensures d in s'.carried ==> d in s.carried || (step.Resume? && Delivers(PcOf(s, step.run), d))
    ensures d in s'.returned ==> d in s.returned || (step.Unclaim? && Delivers(PcOf(s, step.run), d))
    ensures step.Resume? && d in s'.carried && d !in s.carried ==> PcOf(s', step.run) == Idle
    ensures step.Unclaim? && d in s'.returned && d !in s.returned ==> PcOf(s', step.run) == Idle
  {
  }

  /** A delivery stays the owner of a pair unless it is the one that gives it back. */
  lemma OwnsStays(s: State, step: Step, s': State, d: nat, t: string, m: string)
    requires Enabled(s, step) && s' == After(s, step) && Owns(s, d, t, m)
    requires !(step.Unclaim? && !step.fails && PcOf(s, step.run).thread == t && step.message == m)
    ensures Owns(s', d, t, m)
  {
  }

  /** A delivery comes to own a pair only by claiming it. */
  lemma NotOwnedStays(s: State, step: Step, s': State, d: nat, t: string, m: string)
    requires Enabled(s, step) && s' == After(s, step) && NotOwned(s, d, t, m)
    requires !(step.ClaimNext? && Delivers(PcOf(s, step.run), d))
    ensures NotOwned(s', d, t, m)
  {
  }

  lemma HeldOwned(s: State, step: Step, s': State, r: int, m: string)
    requires NumberInv(s) && ClaimInv(s) && Enabled(s, step) && s' == After(s, step) && m in HeldBy(PcOf(s', r))
    ensures Owns(s', PcOf(s', r).delivery, PcOf(s', r).thread, m)
  {
    if step.Insert? || r != step.run {
      OthersStay(s, step, s', r);
      assert Delivers(PcOf(s, r), PcOf(s, r).delivery);
      OthersKeep(s, step, s', PcOf(s, r).delivery, PcOf(s, r).thread, m);
    } else if m in HeldBy(PcOf(s, r)) {
      OwnsStays(s, step, s', PcOf(s, r).delivery, PcOf(s, r).thread, m);
    }
  }

  /** What a delivery owns survives every step of another. */
  lemma OthersKeep(s: State, step: Step, s': State, d: nat, t: string, m: string)
    requires ClaimInv(s) && Enabled(s, step) && s' == After(s, step) && Owns(s, d, t, m) && (step.Insert? || !Delivers(PcOf(s, step.run), d))
    ensures Owns(s', d, t, m)
  {
    if step.Unclaim? {
      assert step.message in HeldBy(PcOf(s, step.run));
    }
    OwnsStays(s, step, s', d, t, m);
  }

  lemma BackNotOwned(s: State, step: Step, s': State, r: int, m: string)
    requires NumberInv(s) && ClaimInv(s) && Enabled(s, step) && s' == After(s, step) && m in GivenBack(PcOf(s', r))
    ensures NotOwned(s', PcOf(s', r).delivery, PcOf(s', r).thread, m)
  {
    if step.Insert? || r != step.run {
      OthersStay(s, step, s', r);
      assert Delivers(PcOf(s, r), PcOf(s, r).delivery);
      NotOwnedStays(s, step, s', PcOf(s, r).delivery, PcOf(s, r).thread, m);
    } else if m in GivenBack(PcOf(s, r)) {
      NotOwnedStays(s, step, s', PcOf(s, r).delivery, PcOf(s, r).thread, m);
    }
  }

  lemma CarriedOwned(s: State, step: Step, s': State, d: nat, m: string)
    requires NumberInv(s) && ClaimInv(s) && Enabled(s, step) && s' == After(s, step) && d in s'.carried && m in s'.carried[d].1
    ensures Owns(s', d, s'.carried[d].0, m)
  {
    if step.Resume? && Delivers(PcOf(s, step.run), d) {
      assert m in HeldBy(PcOf(s, step.run));
      OwnsStays(s, step, s', d, PcOf(s, step.run).thread, m);
    } else {
      OthersKeep(s, step, s', d, s.carried[d].0, m);
    }
  }

  lemma ReturnedNotOwned(s: State, step: Step, s': State, d: nat, m: string)
    requires NumberInv(s) && ClaimInv(s) && Enabled(s, step) && s' == After(s, step) && d in s'.returned && m in s'.returned[d].1
    ensures NotOwned(s', d, s'.returned[d].0, m)
  {
    if step.Unclaim? && Delivers(PcOf(s, step.run), d) {
      var t := PcOf(s, step.run).thread;
      assert d !in s.returned;
      assert m in PcOf(s, step.run).left ==> m == step.message || m in PcOf(s, step.run).left - {step.message};
      if m in GivenBack(PcOf(s, step.run)) { NotOwnedStays(s, step, s', d, t, m); }
    } else {
      EndedFrom(s, step, s', d);
      NotOwnedStays(s, step, s', d, s.returned[d].0, m);
    }
  }

  lemma ClaimsKept(s: State, step: Step)
    requires NumberInv(s) && ClaimInv(s) && Enabled(s, step)
    ensures ClaimInv(After(s, step))
  {
    var s' := After(s, step);
    forall r, m | m in HeldBy(PcOf(s', r)) ensures Owns(s', PcOf(s', r).delivery, PcOf(s', r).thread, m) { HeldOwned(s, step, s', r, m); }
    forall r, m | m in GivenBack(PcOf(s', r)) ensures NotOwned(s', PcOf(s', r).delivery, PcOf(s', r).thread, m) { BackNotOwned(s, step, s', r, m); }
    forall d, m | d in s'.carried && m in s'.carried[d].1 ensures Owns(s', d, s'.carried[d].0, m) { CarriedOwned(s, step, s', d, m); }
    forall d, m | d in s'.returned && m in s'.returned[d].1 ensures NotOwned(s', d, s'.returned[d].0, m) { ReturnedNotOwned(s, step, s', d, m); }
  }

  lemma QuietIsSound(s: State)
    requires Quiet(s)
    ensures NumberInv(s) && ClaimInv(s)
  {
    assert forall r, d: nat :: !Delivers(PcOf(s, r), d);
  }

  lemma {:induction false} DeliveryThroughout(states: seq<State>, steps: seq<Step>, n: nat)
    requires IsRun(states, steps) && Quiet(states[0]) && n <= |steps|
    ensures NumberInv(states[n]) && ClaimInv(states[n])
  {
    if n == 0 {
      QuietIsSound(states[0]);
    } else {
      DeliveryThroughout(states, steps, n - 1);
      NumbersKept(states[n - 1], steps[n - 1]);
      ClaimsKept(states[n - 1], steps[n - 1]);
    }
  }

  /** In every interleaving no message is carried by two deliveries that woke or held a session. */
  lemma DeliveredOnce(states: seq<State>, steps: seq<Step>, n: nat, d: nat, e: nat)
    requires IsRun(states, steps) && Quiet(states[0]) && n <= |steps|
    requires d != e && d in states[n].carried && e in states[n].carried && states[n].carried[d].0 == states[n].carried[e].0
    ensures states[n].carried[d].1 !! states[n].carried[e].1
  {
    DeliveryThroughout(states, steps, n);
    var s := states[n];
    forall m | m in s.carried[d].1 ensures m !in s.carried[e].1 {
      assert Owns(s, d, s.carried[d].0, m);
    }
  }

  /** In every interleaving, a step that takes a mark away is a delivery giving back its own claim,
      and takes away nothing else; the message can be claimed again at once. */
  lemma OnlyOwnClaimsReturned(states: seq<State>, steps: seq<Step>, n: nat, p: (string, string))
    requires IsRun(states, steps) && Quiet(states[0]) && n < |steps|
    requires p in states[n].tb.served && p !in states[n + 1].tb.served
    ensures steps[n].Unclaim? && Owns(states[n], PcOf(states[n], steps[n].run).delivery, p.0, p.1)
    ensures states[n + 1].tb == Unmarked(states[n].tb, p.0, p.1)
  {
    DeliveryThroughout(states, steps, n);
    assert steps[n].Unclaim?;
    assert steps[n].message in HeldBy(PcOf(states[n], steps[n].run));
  }

  /** Whatever a delivery gave back is not its own any more: unmarked, or marked anew by another. */
  lemma ReturnedStaysFree(states: seq<State>, steps: seq<Step>, n: nat, d: nat, m: string)
    requires IsRun(states, steps) && Quiet(states[0]) && n <= |steps|
    requires d in states[n].returned && m in states[n].returned[d].1
    ensures !Owns(states[n], d, states[n].returned[d].0, m) && d !in states[n].carried
  {
    DeliveryThroughout(states, steps, n);
  }
}
