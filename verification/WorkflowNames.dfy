/** Two workflows with one display name (`by_name` in `xtask/src/runners.rs`): the guard's table keeps
    the last one only, while a `workflow_run` trigger hangs off every workflow of that name. */
module WorkflowNames {
  import opened Truths
  import opened Options
  import opened Routing
  import opened EntryEvents

  /** The workflow is entered, as far as the guard sees. */
  ghost predicate Entered(ws: seq<Workflow>, w: Workflow) { exists e :: Reaches(ws, w, e) }

  /** Another file answers to the workflow's name in the table. */
  predicate Shadowed(ws: seq<Workflow>, w: Workflow) { ByName(ws, w.name) != Some(w.file) }

  /** Repeated names do no harm: whatever hangs off an entered workflow that the table does not find
      is entered as `workflow_run` all the same. */
  ghost predicate Harmless(ws: seq<Workflow>) {
    forall u, w | u in ws && w in ws && Entered(ws, u) && Shadowed(ws, u) && u.name in w.upstreams :: Reaches(ws, w, "workflow_run")
  }

  /** The guard misses no way in: whatever a chain by display names brings is in its table. */
  ghost predicate MissesNothing(ws: seq<Workflow>) {
    forall c | IsChain(c, ws, AsNamed) :: Reaches(ws, c.into, EventOf(c))
  }

  /** What the table finds bears the name. */
  lemma {:induction false} FoundBearsName(ws: seq<Workflow>, name: string)
    ensures ByName(ws, name).Some? ==> exists w | w in ws :: w.name == name && w.file == ByName(ws, name).value
  {
    if ws != [] {
      var init := ws[..|ws| - 1];
      FoundBearsName(init, name);
      if ws[|ws| - 1].name == name {
        assert ws[|ws| - 1] in ws;
      } else if ByName(init, name).Some? {
        var w :| w in init && w.name == name && w.file == ByName(init, name).value;
        assert w in ws;
      }
    }
  }

  /** The table sees no hop that display names do not make. */
  lemma {:induction false} LookedUpIsNamed(c: Chain, ws: seq<Workflow>)
    requires DistinctFiles(ws) && IsChain(c, ws, AsLookedUp)
    ensures IsChain(c, ws, AsNamed)
  {
    match c
    case Triggered(_, _) =>
    case Called(from, job, w) => LookedUpIsNamed(from, ws); LocalCalledMeans(job.uses.value, w.file);
    case Ran(from, w) =>
      LookedUpIsNamed(from, ws);
      var n :| n in w.upstreams && ByName(ws, n) == Some(from.into.file);
      FoundBearsName(ws, n);
      var v :| v in ws && v.name == n && v.file == from.into.file;
      FileIsWorkflow(ws, v, from.into);
  }

  lemma {:induction false} NamedIsReached(c: Chain, ws: seq<Workflow>)
    requires Harmless(ws) && IsChain(c, ws, AsNamed)
    ensures Reaches(ws, c.into, EventOf(c))
  {
    match c
    case Triggered(w, e) => TriggerReaches(ws, w, e);
    case Called(from, job, w) =>
      NamedIsReached(from, ws);
      LocalCalledMeans(job.uses.value, w.file);
      CalledReaches(ws, from.into, job, EventOf(from), w);
    case Ran(from, w) =>
      NamedIsReached(from, ws);
      assert Entered(ws, from.into);
      if !Shadowed(ws, from.into) {
        assert HangsOff(ws, w, from.into);
        RanReaches(ws, from.into, EventOf(from), w);
      }
  }

  /** The guard misses no way in exactly when repeated names do no harm. */
  lemma MissesNothingExactly(ws: seq<Workflow>)
    requires DistinctFiles(ws)
    ensures MissesNothing(ws) <==> Harmless(ws)
  {
    if Harmless(ws) {
      forall c | IsChain(c, ws, AsNamed) ensures Reaches(ws, c.into, EventOf(c)) { NamedIsReached(c, ws); }
    }
    if MissesNothing(ws) {
      forall u, w | u in ws && w in ws && Entered(ws, u) && Shadowed(ws, u) && u.name in w.upstreams
        ensures Reaches(ws, w, "workflow_run") {
        var e :| Reaches(ws, u, e);
        var c :| IsChain(c, ws, AsLookedUp) && c.into == u && EventOf(c) == e;
        LookedUpIsNamed(c, ws);
        var hop := Ran(c, w);
        assert IsChain(hop, ws, AsNamed) && EventOf(hop) == "workflow_run";
        assert Reaches(ws, hop.into, EventOf(hop));
      }
    }
  }

  /** Distinct names do no harm. */
  lemma DistinctIsHarmless(ws: seq<Workflow>)
    requires DistinctNames(ws)
    ensures Harmless(ws)
  {
    forall u | u in ws ensures !Shadowed(ws, u) { ByNameMeans(ws, u.name, u.file); }
  }

  // ---- the hole --------------------------------------------------------------------------

  /** Two workflows named `CI`, the first on pull requests, the second on pushes, and a third that
      runs after `CI` on a self-hosted runner. */
  function Hole(): seq<Workflow> {
    [Workflow("a.yml", "CI", {"pull_request"}, [], []),
     Workflow("b.yml", "CI", {"push"}, [], []),
     Workflow("c.yml", "Deploy", {}, ["CI"], [HoleJob()])]
  }

  function HoleJob(): Job { Job("deploy", None, Some(YStr("self-hosted")), None, None) }

  /** A chain by names gets in through the first `CI`. */
  lemma HoleIsEntered()
    ensures var ws := Hole(); IsChain(Ran(Triggered(ws[0], "pull_request"), ws[2]), ws, InSomeRun)
  {
    var ws := Hole();
    assert ws[0] in ws && ws[2] in ws;
    assert ws[2].upstreams[0] == "CI";
  }

  lemma HoleLooksUpSecond()
    ensures ByName(Hole(), "CI") == Some("b.yml")
  {
    var ws := Hole();
    assert ws[..2][1] == ws[1] && ws[1].name == "CI";
    assert ByName(ws[..2], "CI") == Some("b.yml");
  }

  /** Only the first is in the table. */
  lemma {:induction false} HoleTable(c: Chain)
    requires IsChain(c, Hole(), AsLookedUp)
    ensures c.into == Hole()[0]
  {
    var ws := Hole();
    match c
    case Triggered(w, e) =>
    case Called(from, job, _) =>
      HoleTable(from);
      assert false;
    case Ran(from, w) =>
      HoleTable(from);
      HoleLooksUpSecond();
      assert false;
  }
}
