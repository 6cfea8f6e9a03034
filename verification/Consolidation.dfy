/** The consolidation claim (`crates/chat/src/consolidation_claim.rs`): who consolidates a completed
    round of a thread. Each operation is one SQL statement, so every interleaving of processes is a
    sequence of these steps. */
module Consolidation {
  import opened Options

  /** The last-writer-wins position of a register: a Lamport number, then the site. */
  datatype Position = Position(v: int, site: int)

  predicate Newer(a: Position, b: Position) {
    a.v > b.v || (a.v == b.v && a.site > b.site)
  }

  /** A thread's `expects_reply_from` register: its stored text, if any, and its position. */
  datatype Register = Register(value: Option<string>, at: Position)

  /** The device's tables: the thread registers, and the claims taken. */
  datatype Tables = Tables(threads: map<string, Register>, claims: set<(string, Position)>)

  /** `serde_json::to_string(&[marker])` for a marker that needs no escaping. */
  function Encoded(marker: string): string { "[\"" + marker + "\"]" }

  // ---- the statements --------------------------------------------------------------------

  /** The row the claim would insert: none for an unknown thread or one already retargeted. */
  function ClaimKey(tb: Tables, thread: string, marker: string): Option<(string, Position)> {
    if thread in tb.threads && tb.threads[thread].value != Some(Encoded(marker)) then
      Some((thread, tb.threads[thread].at))
    else None
  }

  predicate Claimable(tb: Tables, thread: string, marker: string) {
    ClaimKey(tb, thread, marker).Some? && ClaimKey(tb, thread, marker).value !in tb.claims
  }

  function Claimed(tb: Tables, thread: string, marker: string): Tables {
    if ClaimKey(tb, thread, marker).Some? then tb.(claims := tb.claims + {ClaimKey(tb, thread, marker).value}) else tb
  }

  /** Deletes the claim of the thread's current round, whoever holds it. */
  function Released(tb: Tables, thread: string): Tables {
    if thread in tb.threads then tb.(claims := tb.claims - {(thread, tb.threads[thread].at)}) else tb
  }

  class ClaimStore {
    var threads: map<string, Register>
    var claims: set<(string, Position)>

    function View(): Tables
      reads this
    {
      Tables(threads, claims)
    }

    constructor (tb: Tables)
      ensures View() == tb
    {
      threads, claims := tb.threads, tb.claims;
    }

    /** The round a thread is in: the one position every claim of it is keyed on. */
    method ExpectsVersion(thread: string) returns (at: Option<Position>)
      ensures at.None? <==> thread !in threads
      ensures at.Some? ==> forall marker | ClaimKey(View(), thread, marker).Some? ::
                ClaimKey(View(), thread, marker).value == (thread, at.value)
      ensures at.Some? ==> Released(View(), thread).claims == claims - {(thread, at.value)}
    {
      if thread in threads { return Some(threads[thread].at); }
      return None;
    }

    method ClaimConsolidation(thread: string, marker: string) returns (won: bool)
      modifies this
      ensures won == Claimable(old(View()), thread, marker)
      ensures threads == old(threads)
      ensures won <==> thread in threads && threads[thread].value != Some("[\"" + marker + "\"]") && (thread, threads[thread].at) !in old(claims)
      ensures View() == Claimed(old(View()), thread, marker)
    {
      if thread !in threads || threads[thread].value == Some(Encoded(marker)) { return false; }
      var key := (thread, threads[thread].at);
      won := key !in claims;
      claims := claims + {key};
    }

    method ReleaseConsolidationClaim(thread: string)
      modifies this
      ensures View() == Released(old(View()), thread)
    {
      if thread in threads { claims := claims - {(thread, threads[thread].at)}; }
    }
  }

  // ---- any interleaving ------------------------------------------------------------------

  /** The device, and who holds which round: a process that claimed and has not released. */
  datatype State = State(tb: Tables, holders: map<(string, Position), set<int>>)

  datatype Step =
    | Declare(thread: string, value: Option<string>, at: Position)
    | Claim(process: int, thread: string, marker: string)
    | Release(process: int, thread: string)

  function HoldersOf(s: State, key: (string, Position)): set<int> {
    if key in s.holders then s.holders[key] else {}
  }

  /** Whether a declaration overwrites the register: only a newer one does, the rest are ignored. */
  predicate Overwrites(tb: Tables, thread: string, at: Position) {
    thread in tb.threads ==> Newer(at, tb.threads[thread].at)
  }

  /** Anyone may declare or claim at any time. A process releases only a round it holds that is
      still current. */
  predicate Allowed(s: State, step: Step) {
    match step
    case Declare(_, _, _) => true
    case Claim(_, _, _) => true
    case Release(p, thread) => thread in s.tb.threads && p in HoldersOf(s, (thread, s.tb.threads[thread].at))
  }

  function After(s: State, step: Step): State {
    match step
    case Declare(thread, value, at) =>
      if Overwrites(s.tb, thread, at) then s.(tb := s.tb.(threads := s.tb.threads[thread := Register(value, at)]))
      else s
    case Claim(p, thread, marker) =>
      if Claimable(s.tb, thread, marker) then
        var key := ClaimKey(s.tb, thread, marker).value;
        State(Claimed(s.tb, thread, marker), s.holders[key := HoldersOf(s, key) + {p}])
      else s.(tb := Claimed(s.tb, thread, marker))
    case Release(p, thread) =>
      if thread in s.tb.threads then
        var key := (thread, s.tb.threads[thread].at);
        State(Released(s.tb, thread), s.holders[key := HoldersOf(s, key) - {p}])
      else s
  }

  predicate Run(s: State, steps: seq<Step>)
    decreases |steps|
  {
    steps == [] || (Allowed(s, steps[0]) && Run(After(s, steps[0]), steps[1..]))
  }

  function End(s: State, steps: seq<Step>): State
    decreases |steps|
  {
    if steps == [] then s else End(After(s, steps[0]), steps[1..])
  }

  /** Every claim is of a thread known here, at or before its current round; every round is held by
      at most one process, and exactly the held rounds are claimed. */
  ghost predicate Inv(s: State) {
    && (forall k | k in s.tb.claims :: k.0 in s.tb.threads && !Newer(k.1, s.tb.threads[k.0].at))
    && (forall k :: k in s.tb.claims <==> HoldersOf(s, k) != {})
    && (forall k, p, q | p in HoldersOf(s, k) && q in HoldersOf(s, k) :: p == q)
  }

  lemma NewerTrans(a: Position, b: Position, c: Position)
    requires Newer(a, b) && !Newer(c, b)
    ensures Newer(a, c) && !Newer(c, a)
  {
  }

  lemma DeclareKeeps(s: State, step: Step)
    requires Inv(s) && step.Declare?
    ensures Inv(After(s, step))
  {
    var s' := After(s, step);
    forall k | k in s'.tb.claims ensures k.0 in s'.tb.threads && !Newer(k.1, s'.tb.threads[k.0].at) {
      if k.0 == step.thread && Overwrites(s.tb, step.thread, step.at) { NewerTrans(step.at, s.tb.threads[k.0].at, k.1); }
    }
    forall k ensures HoldersOf(s', k) == HoldersOf(s, k) {}
  }

  predicate AtOrAfter(a: Position, b: Position) { a.v > b.v || (a.v == b.v && a.site >= b.site) }

  /** Of two declarations the one with the higher number stands, of equal numbers the one of the higher
      site, whichever of them comes first. */
  lemma NewestDeclarationStands(s: State, thread: string, v: Option<string>, at: Position, w: Option<string>, bt: Position)
    requires at != bt
    ensures var s' := After(After(s, Declare(thread, v, at)), Declare(thread, w, bt));
            && s' == After(After(s, Declare(thread, w, bt)), Declare(thread, v, at))
            && thread in s'.tb.threads
            && var now := s'.tb.threads[thread];
            && AtOrAfter(now.at, at) && AtOrAfter(now.at, bt)
            && (now == Register(v, at) || now == Register(w, bt) || (thread in s.tb.threads && now == s.tb.threads[thread]))
            && (thread in s.tb.threads ==> AtOrAfter(now.at, s.tb.threads[thread].at))
  {
    var s1, s2 := After(s, Declare(thread, v, at)), After(s, Declare(thread, w, bt));
    assert s.tb.threads[thread := Register(v, at)][thread := Register(w, bt)] == s.tb.threads[thread := Register(w, bt)];
    assert s.tb.threads[thread := Register(w, bt)][thread := Register(v, at)] == s.tb.threads[thread := Register(v, at)];
    assert thread in s1.tb.threads && thread in s2.tb.threads;
  }

  lemma ClaimKeeps(s: State, step: Step)
    requires Inv(s) && step.Claim?
    ensures Inv(After(s, step))
  {
    var s' := After(s, step);
    var key := ClaimKey(s.tb, step.thread, step.marker);
    if key.Some? {
      forall k ensures HoldersOf(s', k) == if k == key.value && key.value !in s.tb.claims then {step.process} else HoldersOf(s, k) {}
    } else {
      forall k ensures HoldersOf(s', k) == HoldersOf(s, k) {}
    }
  }

  lemma ReleaseKeeps(s: State, step: Step)
    requires Inv(s) && step.Release? && Allowed(s, step)
    ensures Inv(After(s, step))
  {
    var s' := After(s, step);
    var key := (step.thread, s.tb.threads[step.thread].at);
    assert forall q | q in HoldersOf(s, key) :: q == step.process;
    forall k ensures HoldersOf(s', k) == if k == key then {} else HoldersOf(s, k) {}
  }

  /** The invariant holds throughout every run. */
  lemma {:induction false} RunKeeps(s: State, steps: seq<Step>)
    requires Inv(s) && Run(s, steps)
    ensures Inv(End(s, steps))
    decreases |steps|
  {
    if steps != [] {
      match steps[0] {
        case Declare(_, _, _) => DeclareKeeps(s, steps[0]);
        case Claim(_, _, _) => ClaimKeeps(s, steps[0]);
        case Release(_, _) => ReleaseKeeps(s, steps[0]);
      }
      RunKeeps(After(s, steps[0]), steps[1..]);
    }
  }

  /** From a device without claims: in every interleaving at most one process ever holds a round,
      whichever markers were used, and no claim is ahead of its thread. */
  lemma OneHolderPerRound(threads: map<string, Register>, steps: seq<Step>, k: (string, Position), p: int, q: int)
    requires Run(State(Tables(threads, {}), map[]), steps)
    ensures var s := End(State(Tables(threads, {}), map[]), steps);
            && (p in HoldersOf(s, k) && q in HoldersOf(s, k) ==> p == q)
            && (k in s.tb.claims ==> k.0 in s.tb.threads && !Newer(k.1, s.tb.threads[k.0].at))
  {
    RunKeeps(State(Tables(threads, {}), map[]), steps);
  }

  /** A newer declaration opens a new round: unless it names the claimer's own marker, it can be
      claimed, by exactly the first who tries. */
  lemma NewRoundIsClaimable(s: State, step: Step, marker: string, other: string)
    requires Inv(s) && step.Declare? && Overwrites(s.tb, step.thread, step.at)
    ensures var tb := After(s, step).tb;
            && (Claimable(tb, step.thread, marker) <==> step.value != Some("[\"" + marker + "\"]"))
            && (Claimable(tb, step.thread, marker) ==> !Claimable(Claimed(tb, step.thread, marker), step.thread, other))
  {
    var key := (step.thread, step.at);
    assert key !in s.tb.claims;
  }

  /** Releasing undoes a claim: the round can be claimed again, and nothing else has changed. */
  lemma ReleaseUndoesClaim(tb: Tables, thread: string, marker: string)
    requires Claimable(tb, thread, marker)
    ensures Released(Claimed(tb, thread, marker), thread) == tb
  {
  }

  /** Nobody has claimed the thread's current round. */
  predicate CurrentFree(s: State, thread: string) {
    thread in s.tb.threads ==> (thread, s.tb.threads[thread].at) !in s.tb.claims
  }

  /** The release checks the round, not the owner: whoever calls it, the invariant survives exactly
      when the caller holds the current round or nobody does. A process whose round has passed takes
      the claim of whoever holds the current one. */
  lemma ReleaseKeepsExactly(s: State, step: Step)
    requires Inv(s) && step.Release?
    ensures Inv(After(s, step)) <==> Allowed(s, step) || CurrentFree(s, step.thread)
  {
    var s' := After(s, step);
    if Allowed(s, step) {
      ReleaseKeeps(s, step);
    } else if step.thread in s.tb.threads {
      var key := (step.thread, s.tb.threads[step.thread].at);
      forall k ensures HoldersOf(s', k) == HoldersOf(s, k) {}
      assert key !in s'.tb.claims;
    }
  }

  /** And then a second process can claim the round its holder never gave back. */
  lemma LateReleaseDoubles(s: State, p: int, q: int, r: int, thread: string, marker: string)
    requires Inv(s) && thread in s.tb.threads && s.tb.threads[thread].value != Some(Encoded(marker))
    requires p != q && q != r && q in HoldersOf(s, (thread, s.tb.threads[thread].at))
    ensures var s' := After(After(s, Release(p, thread)), Claim(r, thread, marker));
            {q, r} <= HoldersOf(s', (thread, s.tb.threads[thread].at))
  {
  }
}
