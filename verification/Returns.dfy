/** What the deliveries of an interleaving put into the served table and took out of it
    (`deliver`, `mark_served` and `unmark_served` in `crates/chat/src/border.rs`), read off the
    tables themselves over the whole run. */
module Returns {
  import opened Options
  import opened Border
  import opened Interleaving

  type Pair = (string, string)

  /** The step is one of delivery `d`. */
  predicate StepOf(s: State, step: Step, d: nat) {
    !step.Insert? && Delivers(PcOf(s, step.run), d)
  }

  /** The pairs the steps of `d` put into the table, up to state `n`. */
  ghost function Won(states: seq<State>, steps: seq<Step>, n: nat, d: nat): set<Pair>
    requires n <= |steps| && |states| == |steps| + 1
  {
    if n == 0 then {}
    else Won(states, steps, n - 1, d)
         + if StepOf(states[n - 1], steps[n - 1], d) then states[n].tb.served - states[n - 1].tb.served else {}
  }

  /** The pairs the steps of `d` took out of the table, up to state `n`. */
  ghost function Freed(states: seq<State>, steps: seq<Step>, n: nat, d: nat): set<Pair>
    requires n <= |steps| && |states| == |steps| + 1
  {
    if n == 0 then {}
    else Freed(states, steps, n - 1, d)
         + if StepOf(states[n - 1], steps[n - 1], d) then states[n - 1].tb.served - states[n].tb.served else {}
  }

  /** The pairs whose delete failed in a step of `d`, up to state `n`. */
  ghost function Failed(states: seq<State>, steps: seq<Step>, n: nat, d: nat): set<Pair>
    requires n <= |steps| && |states| == |steps| + 1
  {
    if n == 0 then {}
    else Failed(states, steps, n - 1, d) + FailedIn(states[n - 1], steps[n - 1], d)
  }

  function FailedIn(s: State, step: Step, d: nat): set<Pair> {
    if step.Unclaim? && step.fails && Delivers(PcOf(s, step.run), d) then {(PcOf(s, step.run).thread, step.message)} else {}
  }

  /** What a delivery has put in, taken out and failed to take out, by where it stands. */
  ghost predicate Accounts(s: State, d: nat, won: set<Pair>, freed: set<Pair>, failed: set<Pair>) {
    && (d >= s.next ==> won == {} && freed == {} && failed == {})
    && (forall r | Delivers(PcOf(s, r), d) :: RunAccounts(PcOf(s, r), won, freed, failed))
    && (d in s.carried ==> won == Pairs(s.carried[d].0, s.carried[d].1) && freed == {} && failed == {})
    && (d in s.returned ==> Pairs(s.returned[d].0, s.returned[d].1) == freed && won == freed + failed && freed !! failed)
  }

  ghost predicate RunAccounts(pc: Pc, won: set<Pair>, freed: set<Pair>, failed: set<Pair>)
    requires pc.Claiming? || pc.Returning?
  {
    if pc.Claiming? then won == Pairs(pc.thread, pc.mine) && freed == {} && failed == {}
    else && pc.left <= pc.mine && won == Pairs(pc.thread, pc.mine) + failed
         && freed == Pairs(pc.thread, pc.mine - pc.left) && failed !! Pairs(pc.thread, pc.mine)
  }

  /** A step of another delivery, or of none, leaves the accounts of `d`. */
  lemma OthersKeepAccounts(s: State, step: Step, s': State, d: nat, won: set<Pair>, freed: set<Pair>, failed: set<Pair>)
    requires NumberInv(s) && Accounts(s, d, won, freed, failed) && Enabled(s, step) && s' == After(s, step) && !StepOf(s, step, d)
    ensures Accounts(s', d, won, freed, failed)
  {
    EndedFrom(s, step, s', d);
    forall r | Delivers(PcOf(s', r), d) ensures RunAccounts(PcOf(s', r), won, freed, failed) {
      NumberFrom(s, step, s', r, d);
      if step.Insert? || r != step.run { OthersStay(s, step, s', r); }
    }
    EndedSame(s, step, s', d);
  }

  lemma EndedSame(s: State, step: Step, s': State, d: nat)
    requires Enabled(s, step) && s' == After(s, step) && !StepOf(s, step, d)
    ensures d in s'.carried <==> d in s.carried
    ensures d in s.carried ==> s'.carried[d] == s.carried[d]
    ensures d in s'.returned <==> d in s.returned
    ensures d in s.returned ==> s'.returned[d] == s.returned[d]
  {
  }

  /** The table before and after a step of the delivery. */
  lemma OwnStep(s: State, step: Step, s': State)
    requires ClaimInv(s) && Enabled(s, step) && s' == After(s, step) && !step.Insert?
    requires PcOf(s, step.run).Claiming? || PcOf(s, step.run).Returning?
    ensures var pc := PcOf(s, step.run);
            && s'.tb.served - s.tb.served == (if Wins(s, step) then {(pc.thread, pc.todo[0])} else {})
            && s.tb.served - s'.tb.served == (if step.Unclaim? && !step.fails then {(pc.thread, step.message)} else {})
  {
    if step.Unclaim? {
      assert step.message in HeldBy(PcOf(s, step.run));
      assert Owns(s, PcOf(s, step.run).delivery, PcOf(s, step.run).thread, step.message);
    }
  }

  lemma PairsMean(t: string, ids: set<string>)
    ensures forall p :: p in Pairs(t, ids) <==> p.0 == t && p.1 in ids
  {
  }

  /** The delivery under way in one run, with nothing else to its number. */
  lemma OnlyRunAccounts(s: State, d: nat, r: int, won: set<Pair>, freed: set<Pair>, failed: set<Pair>)
    requires NumberInv(s) && Delivers(PcOf(s, r), d) && RunAccounts(PcOf(s, r), won, freed, failed)
    ensures Accounts(s, d, won, freed, failed)
  {
  }

  lemma ClaimNextAccounts(s: State, step: Step, s': State, d: nat, won: set<Pair>)
    requires NumberInv(s') && Enabled(s, step) && s' == After(s, step) && step.ClaimNext? && Delivers(PcOf(s, step.run), d)
    requires RunAccounts(PcOf(s, step.run), won, {}, {})
    ensures var pc := PcOf(s, step.run);
            Accounts(s', d, won + (if Wins(s, step) then {(pc.thread, pc.todo[0])} else {}), {}, {})
  {
    var pc := PcOf(s, step.run);
    var won' := won + if Wins(s, step) then {(pc.thread, pc.todo[0])} else {};
    PairsMean(pc.thread, pc.mine);
    PairsMean(pc.thread, PcOf(s', step.run).mine);
    assert won' == Pairs(pc.thread, PcOf(s', step.run).mine);
    OnlyRunAccounts(s', d, step.run, won', {}, {});
  }

  lemma ResumeAccounts(s: State, step: Step, s': State, d: nat, won: set<Pair>)
    requires NumberInv(s) && NumberInv(s') && Enabled(s, step) && s' == After(s, step) && step.Resume? && Delivers(PcOf(s, step.run), d)
    requires RunAccounts(PcOf(s, step.run), won, {}, {})
    ensures Accounts(s', d, won, {}, {})
  {
    var pc := PcOf(s, step.run);
    if pc.mine != {} && step.outcome == Neither {
      assert pc.mine - pc.mine == {} && Pairs(pc.thread, {}) == {};
      OnlyRunAccounts(s', d, step.run, won, {}, {});
    } else {
      NoLongerUnderWay(s, step, s', d);
    }
  }

  /** Once its run is idle, no run is at the delivery. */
  lemma NoLongerUnderWay(s: State, step: Step, s': State, d: nat)
    requires NumberInv(s) && Enabled(s, step) && s' == After(s, step) && StepOf(s, step, d) && PcOf(s', step.run) == Idle
    ensures (forall r :: !Delivers(PcOf(s', r), d)) && d < s'.next
  {
    EndedFrom(s, step, s', d);
    forall r ensures !Delivers(PcOf(s', r), d) {
      if r != step.run {
        OthersStay(s, step, s', r);
        assert !Delivers(PcOf(s, r), d);
      }
    }
  }

  lemma UnclaimAccounts(s: State, step: Step, s': State, d: nat, won: set<Pair>, freed: set<Pair>, failed: set<Pair>)
    requires NumberInv(s) && NumberInv(s') && Enabled(s, step) && s' == After(s, step) && step.Unclaim? && Delivers(PcOf(s, step.run), d)
    requires RunAccounts(PcOf(s, step.run), won, freed, failed)
    ensures var p := (PcOf(s, step.run).thread, step.message);
            Accounts(s', d, won, freed + (if step.fails then {} else {p}), failed + (if step.fails then {p} else {}))
  {
    var pc, m := PcOf(s, step.run), step.message;
    var t := pc.thread;
    var freed' := freed + if step.fails then {} else {(t, m)};
    var failed' := failed + if step.fails then {(t, m)} else {};
    var mine, left := Given(pc, m, step.fails), pc.left - {m};
    PairsMean(t, pc.mine);
    PairsMean(t, pc.mine - pc.left);
    PairsMean(t, mine);
    PairsMean(t, mine - left);
    assert won == Pairs(t, mine) + failed';
    assert freed' == Pairs(t, mine - left);
    assert failed' !! Pairs(t, mine) && left <= mine;
    if pc.left == {m} {
      assert left == {} && mine - left == mine;
      NoLongerUnderWay(s, step, s', d);
    } else {
      OnlyRunAccounts(s', d, step.run, won, freed', failed');
    }
  }

  lemma AccountsKept(s: State, step: Step, s': State, d: nat, won: set<Pair>, freed: set<Pair>, failed: set<Pair>)
    requires NumberInv(s) && NumberInv(s') && ClaimInv(s) && Accounts(s, d, won, freed, failed)
    requires Enabled(s, step) && s' == After(s, step) && StepOf(s, step, d)
    ensures Accounts(s', d, won + (s'.tb.served - s.tb.served), freed + (s.tb.served - s'.tb.served), failed + FailedIn(s, step, d))
  {
    var gained, lost := s'.tb.served - s.tb.served, s.tb.served - s'.tb.served;
    OwnStep(s, step, s');
    OwnAccounts(s, step, s', d, won, freed, failed, gained, lost);
  }

  lemma OwnAccounts(s: State, step: Step, s': State, d: nat, won: set<Pair>, freed: set<Pair>, failed: set<Pair>,
                    gained: set<Pair>, lost: set<Pair>)
    requires NumberInv(s) && NumberInv(s') && Enabled(s, step) && s' == After(s, step) && StepOf(s, step, d)
    requires RunAccounts(PcOf(s, step.run), won, freed, failed)
    requires gained == if Wins(s, step) then {(PcOf(s, step.run).thread, PcOf(s, step.run).todo[0])} else {}
    requires lost == if step.Unclaim? && !step.fails then {(PcOf(s, step.run).thread, step.message)} else {}
    ensures Accounts(s', d, won + gained, freed + lost, failed + FailedIn(s, step, d))
  {
    match step
    case ClaimNext(_, _) => ClaimNextAccounts(s, step, s', d, won);
    case Resume(_, _) =>
      assert won + gained == won && freed + lost == {} && failed + FailedIn(s, step, d) == {};
      ResumeAccounts(s, step, s', d, won);
    case Unclaim(_, _, _) =>
      assert won + gained == won;
      UnclaimAccounts(s, step, s', d, won, freed, failed);
    case Stop(_) =>
      NoLongerUnderWay(s, step, s', d);
      assert d !in s'.carried && d !in s'.returned;
  }

  lemma AccountsStep(s: State, step: Step, s': State, d: nat, won: set<Pair>, freed: set<Pair>, failed: set<Pair>)
    requires NumberInv(s) && NumberInv(s') && ClaimInv(s) && Accounts(s, d, won, freed, failed)
    requires Enabled(s, step) && s' == After(s, step)
    ensures Accounts(s', d, won + (if StepOf(s, step, d) then s'.tb.served - s.tb.served else {}),
                     freed + (if StepOf(s, step, d) then s.tb.served - s'.tb.served else {}), failed + FailedIn(s, step, d))
  {
    if StepOf(s, step, d) {
      AccountsKept(s, step, s', d, won, freed, failed);
    } else {
      OthersKeepAccounts(s, step, s', d, won, freed, failed);
    }
  }

  lemma QuietAccounts(s: State, d: nat)
    requires Quiet(s)
    ensures Accounts(s, d, {}, {}, {})
  {
    assert forall r :: PcOf(s, r) == Idle;
  }

  lemma {:induction false} AccountsThroughout(states: seq<State>, steps: seq<Step>, n: nat, d: nat)
    requires IsRun(states, steps) && Quiet(states[0]) && n <= |steps|
    ensures Accounts(states[n], d, Won(states, steps, n, d), Freed(states, steps, n, d), Failed(states, steps, n, d))
  {
    if n == 0 {
      QuietAccounts(states[0], d);
    } else {
      AccountsThroughout(states, steps, n - 1, d);
      DeliveryThroughout(states, steps, n - 1);
      DeliveryThroughout(states, steps, n);
      AccountsStep(states[n - 1], steps[n - 1], states[n], d,
                   Won(states, steps, n - 1, d), Freed(states, steps, n - 1, d), Failed(states, steps, n - 1, d));
    }
  }

  // ---- the results -----------------------------------------------------------------------

  /** Step `j` is a step of the delivery and takes the pair out of the table. */
  ghost predicate Frees(states: seq<State>, steps: seq<Step>, j: nat, d: nat, p: Pair)
    requires j < |steps| && |states| == |steps| + 1
  {
    StepOf(states[j], steps[j], d) && p in states[j].tb.served && p !in states[j + 1].tb.served
  }

  lemma {:induction false} FreedAt(states: seq<State>, steps: seq<Step>, k: nat, n: nat, d: nat, p: Pair)
    requires |states| == |steps| + 1 && k <= n <= |steps| && p !in Freed(states, steps, k, d)
    ensures p in Freed(states, steps, n, d) <==> exists j :: k <= j < n && Frees(states, steps, j, d, p)
  {
    if k < n {
      FreedAt(states, steps, k, n - 1, d, p);
      if p in Freed(states, steps, n, d) && p !in Freed(states, steps, n - 1, d) { assert Frees(states, steps, n - 1, d, p); }
      if j :| k <= j < n && Frees(states, steps, j, d, p) { assert j < n - 1 || p in Freed(states, steps, n, d); }
    }
  }

  lemma {:induction false} WonAt(states: seq<State>, steps: seq<Step>, i: nat, n: nat, d: nat, p: Pair)
    requires |states| == |steps| + 1 && i < n <= |steps|
    requires StepOf(states[i], steps[i], d) && p !in states[i].tb.served && p in states[i + 1].tb.served
    ensures p in Won(states, steps, n, d)
  {
    if i < n - 1 { WonAt(states, steps, i, n - 1, d, p); }
  }

  /** A delivery that put nothing in motion: what it gave back is exactly what it took out of the
      table, and that is everything it had put in but the messages whose delete failed. */
  lemma GivesAllBack(states: seq<State>, steps: seq<Step>, n: nat, d: nat)
    requires IsRun(states, steps) && Quiet(states[0]) && n <= |steps| && d in states[n].returned
    ensures Pairs(states[n].returned[d].0, states[n].returned[d].1) == Freed(states, steps, n, d)
    ensures Freed(states, steps, n, d) == Won(states, steps, n, d) - Failed(states, steps, n, d)
    ensures Failed(states, steps, n, d) <= Won(states, steps, n, d)
  {
    AccountsThroughout(states, steps, n, d);
  }

  /** In every interleaving, for every message a delivery won and every way it came to give back:
      a later step of the delivery takes the message out of the table again exactly when its delete
      did not fail. */
  lemma ClaimableAgain(states: seq<State>, steps: seq<Step>, i: nat, n: nat, d: nat, p: Pair)
    requires IsRun(states, steps) && Quiet(states[0]) && i < n <= |steps| && d in states[n].returned
    requires StepOf(states[i], steps[i], d) && p !in states[i].tb.served && p in states[i + 1].tb.served
    ensures (exists j :: i < j < n && Frees(states, steps, j, d, p)) <==> p !in Failed(states, steps, n, d)
    ensures p in Pairs(states[n].returned[d].0, states[n].returned[d].1) <==> p !in Failed(states, steps, n, d)
  {
    GivesAllBack(states, steps, n, d);
    WonAt(states, steps, i, n, d, p);
    NotYetFreed(states, steps, i, d, p);
    FreedAt(states, steps, i + 1, n, d, p);
  }

  /** While a delivery still claims it has taken nothing out. */
  lemma NotYetFreed(states: seq<State>, steps: seq<Step>, i: nat, d: nat, p: Pair)
    requires IsRun(states, steps) && Quiet(states[0]) && i < |steps|
    requires StepOf(states[i], steps[i], d) && p !in states[i].tb.served && p in states[i + 1].tb.served
    ensures p !in Freed(states, steps, i + 1, d)
  {
    AccountsThroughout(states, steps, i, d);
    DeliveryThroughout(states, steps, i);
    OwnStep(states[i], steps[i], states[i + 1]);
    assert RunAccounts(PcOf(states[i], steps[i].run), Won(states, steps, i, d), Freed(states, steps, i, d), Failed(states, steps, i, d));
  }

  /** A message whose delete failed stays the claim of its delivery in every later state, and no
      other delivery that wakes or holds a session carries it. */
  lemma {:induction false} FailedStaysClaimed(states: seq<State>, steps: seq<Step>, n: nat, d: nat, p: Pair)
    requires IsRun(states, steps) && Quiet(states[0]) && n <= |steps| && p in Failed(states, steps, n, d)
    ensures Owns(states[n], d, p.0, p.1)
    ensures forall e | e != d && e in states[n].carried && states[n].carried[e].0 == p.0 :: p.1 !in states[n].carried[e].1
  {
    DeliveryThroughout(states, steps, n);
    DeliveryThroughout(states, steps, n - 1);
    var s, step := states[n - 1], steps[n - 1];
    if p in Failed(states, steps, n - 1, d) {
      FailedStaysClaimed(states, steps, n - 1, d, p);
      AccountsThroughout(states, steps, n - 1, d);
      FailedIsNotLeft(s, step, d, p, Won(states, steps, n - 1, d), Freed(states, steps, n - 1, d), Failed(states, steps, n - 1, d));
    } else {
      assert step.message in HeldBy(PcOf(s, step.run));
    }
    OwnsStays(s, step, states[n], d, p.0, p.1);
  }

  lemma FailedIsNotLeft(s: State, step: Step, d: nat, p: Pair, won: set<Pair>, freed: set<Pair>, failed: set<Pair>)
    requires NumberInv(s) && ClaimInv(s) && Enabled(s, step) && Accounts(s, d, won, freed, failed) && p in failed && Owns(s, d, p.0, p.1)
    ensures !(step.Unclaim? && PcOf(s, step.run).thread == p.0 && step.message == p.1)
  {
    if step.Unclaim? && PcOf(s, step.run).thread == p.0 && step.message == p.1 {
      var pc := PcOf(s, step.run);
      assert step.message in HeldBy(pc);
      assert Delivers(pc, d);
      PairsMean(pc.thread, pc.mine);
      assert false;
    }
  }

  /** So once a delivery has given back, the messages it won that are still its claims are exactly
      those whose delete failed; the others are unmarked, or marked anew by another. */
  lemma StillClaimedExactly(states: seq<State>, steps: seq<Step>, n: nat, d: nat, p: Pair)
    requires IsRun(states, steps) && Quiet(states[0]) && n <= |steps| && d in states[n].returned && p in Won(states, steps, n, d)
    ensures Owns(states[n], d, p.0, p.1) <==> p in Failed(states, steps, n, d)
  {
    GivesAllBack(states, steps, n, d);
    if p in Failed(states, steps, n, d) {
      FailedStaysClaimed(states, steps, n, d, p);
    } else {
      PairsMean(states[n].returned[d].0, states[n].returned[d].1);
      ReturnedStaysFree(states, steps, n, d, p.1);
    }
  }
}
