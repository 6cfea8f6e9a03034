/** The runner guard itself (`xtask/src/runners.rs`: `check_with`) and what passing it means. Reading
    the workflow files is not modelled: the parsed workflows are the input. */
module RunnerGuard {
  import opened Options
  import opened Text
  import opened Routing
  import opened EntryEvents
  import opened WorkflowNames

  datatype Exemption = Exemption(workflow: string, job: string, reason: string)

  const MIN_REASON_LEN: nat := 24

  datatype Violation = Violation(workflow: string, job: string, events: set<string>, why: Why)

  datatype CheckResult =
    | Passed
    | NoReason(which: Exemption)
    | Stale(exemptions: seq<Exemption>)
    | Violated(violations: seq<Violation>)

  /** `reason.trim().len()` counts bytes. */
  predicate HasReason(ex: Exemption) {
    |Utf8(Trim(ex.reason))| >= MIN_REASON_LEN
  }

  ghost predicate JobFlagged(ws: seq<Workflow>, w: Workflow, job: Job) {
    && job.uses.None?
    && (exists e :: Reaches(ws, w, e) && JobReachableFor(job, e))
    && !OnlyHosted(job.runsOn, job.matrix)
  }

  ghost predicate HasFlagged(ws: seq<Workflow>, w: Workflow, jobs: seq<Job>, id: string) {
    exists job | job in jobs :: job.id == id && JobFlagged(ws, w, job)
  }

  /** The rule flags the job `id` of the file `file`. */
  ghost predicate Flagged(ws: seq<Workflow>, file: string, id: string) {
    exists w | w in ws :: w.file == file && HasFlagged(ws, w, w.jobs, id)
  }

  /** A job of its own runner that some event reaches, on a label that is no hosted image. */
  ghost predicate Exposed(ws: seq<Workflow>, w: Workflow, job: Job, e: string, tag: string) {
    && w in ws && job in w.jobs && job.uses == None && Reaches(ws, w, e) && JobReachableFor(job, e)
    && MayLandOn(job.runsOn, job.matrix, tag) && !HostedImage(tag)
  }

  /** What is flagged is exposed, by an event and a label one can name, and what is exposed is flagged. */
  lemma FlaggedMeans(ws: seq<Workflow>, file: string, id: string)
    ensures Flagged(ws, file, id) <==> exists w, job, e, tag :: Exposed(ws, w, job, e, tag) && w.file == file && job.id == id
  {
    if Flagged(ws, file, id) {
      var w :| w in ws && w.file == file && HasFlagged(ws, w, w.jobs, id);
      var job :| job in w.jobs && job.id == id && JobFlagged(ws, w, job);
      var e :| Reaches(ws, w, e) && JobReachableFor(job, e);
      var tag :| MayLandOn(job.runsOn, job.matrix, tag) && !HostedImage(tag);
      assert Exposed(ws, w, job, e, tag);
    }
    if w, job, e, tag :| Exposed(ws, w, job, e, tag) && w.file == file && job.id == id {
      assert JobFlagged(ws, w, job);
      assert HasFlagged(ws, w, w.jobs, id);
    }
  }

  predicate Exempted(exemptions: seq<Exemption>, file: string, id: string) {
    exists ex | ex in exemptions :: ex.workflow == file && ex.job == id
  }

  predicate Lists(violations: seq<Violation>, file: string, id: string) {
    exists v | v in violations :: v.workflow == file && v.job == id
  }

  predicate AllReasoned(exemptions: seq<Exemption>) {
    forall ex | ex in exemptions :: |Utf8(Trim(ex.reason))| >= 24
  }

  /** The exempted jobs are the flagged jobs. */
  ghost predicate ExemptsFlagged(ws: seq<Workflow>, exemptions: seq<Exemption>) {
    forall f, j :: Flagged(ws, f, j) <==> Exempted(exemptions, f, j)
  }

  ghost predicate ListsStale(ws: seq<Workflow>, exemptions: seq<Exemption>, stale: seq<Exemption>) {
    forall ex :: ex in stale <==> ex in exemptions && !Flagged(ws, ex.workflow, ex.job)
  }

  ghost predicate ListsUnexempted(ws: seq<Workflow>, exemptions: seq<Exemption>, kept: seq<Violation>) {
    forall f, j :: Lists(kept, f, j) <==> Flagged(ws, f, j) && !Exempted(exemptions, f, j)
  }

  /** The guard passes exactly when every reason is long enough and the exempted jobs are the
      flagged jobs. Otherwise it names an unreasoned exemption, or all stale ones, or all flagged
      jobs without an exemption. */
  method CheckWith(ws: seq<Workflow>, exemptions: seq<Exemption>) returns (r: CheckResult)
    requires DistinctFiles(ws)
    ensures r.Passed? <==> AllReasoned(exemptions) && ExemptsFlagged(ws, exemptions)
    ensures r.NoReason? <==> !AllReasoned(exemptions)
    ensures r.Stale? <==> AllReasoned(exemptions) && exists ex | ex in exemptions :: !Flagged(ws, ex.workflow, ex.job)
    ensures r.NoReason? ==> r.which in exemptions && !HasReason(r.which)
    ensures r.Stale? ==> ListsStale(ws, exemptions, r.exemptions)
    ensures r.Violated? ==> ListsUnexempted(ws, exemptions, r.violations)
  {
    var bad := FirstUnreasoned(exemptions);
    if bad.Some? { return NoReason(bad.value); }
    var entry := ComputeEntryEvents(ws);
    var violations := Violations(ws, entry);
    var stale := StaleOnes(ws, exemptions, violations);
    var kept := Retained(violations, exemptions);
    assert ListsUnexempted(ws, exemptions, kept);
    assert stale != [] ==> stale[0] in stale;
    NothingLeft(ws, exemptions, stale, kept);
    r := if stale != [] then Stale(stale) else if kept != [] then Violated(kept) else Passed;
  }

  lemma NothingLeft(ws: seq<Workflow>, exemptions: seq<Exemption>, stale: seq<Exemption>, kept: seq<Violation>)
    requires ListsStale(ws, exemptions, stale) && ListsUnexempted(ws, exemptions, kept)
    ensures stale == [] && kept == [] <==> ExemptsFlagged(ws, exemptions)
  {
    if stale != [] {
      assert stale[0] in stale;
      assert Exempted(exemptions, stale[0].workflow, stale[0].job);
    }
    if kept != [] {
      assert kept[0] in kept && Lists(kept, kept[0].workflow, kept[0].job);
    }
    if stale == [] && kept == [] {
      forall f, j ensures Flagged(ws, f, j) <==> Exempted(exemptions, f, j) {
        assert !Lists(kept, f, j);
        if Exempted(exemptions, f, j) {
          var ex :| ex in exemptions && ex.workflow == f && ex.job == j;
          assert ex !in stale;
        }
      }
    }
  }

  method FirstUnreasoned(exemptions: seq<Exemption>) returns (r: Option<Exemption>)
    ensures r.None? <==> AllReasoned(exemptions)
    ensures r.Some? ==> r.value in exemptions && !HasReason(r.value)
  {
    for i := 0 to |exemptions|
      invariant forall k | 0 <= k < i :: HasReason(exemptions[k])
    {
      var ex := exemptions[i];
      if !HasReason(ex) {
        assert ex in exemptions;
        return Some(ex);
      }
    }
    r := None;
  }

  /** Every flagged job, with the events it is reachable for. */
  method Violations(ws: seq<Workflow>, entry: Entry) returns (out: seq<Violation>)
    requires DistinctFiles(ws) && Covering(ws, entry)
    requires forall w, e | w in ws :: e in entry[w.file] <==> Reaches(ws, w, e)
    ensures forall f, j :: Lists(out, f, j) <==> Flagged(ws, f, j)
  {
    out := [];
    for i := 0 to |ws|
      invariant forall f, j :: Lists(out, f, j) <==> Flagged'(ws, i, f, j)
    {
      var more := JobViolations(ws, ws[i], entry[ws[i].file]);
      forall f, j ensures Lists(out + more, f, j) <==> Flagged'(ws, i + 1, f, j) {
        ListsConcat(out, more, f, j);
        FlaggedNext(ws, i, f, j);
      }
      out := out + more;
    }
    forall f, j ensures Flagged'(ws, |ws|, f, j) <==> Flagged(ws, f, j) {
      if Flagged(ws, f, j) {
        var w :| w in ws && w.file == f && HasFlagged(ws, w, w.jobs, j);
        var k :| 0 <= k < |ws| && ws[k] == w;
      }
    }
  }

  ghost predicate Flagged'(ws: seq<Workflow>, n: nat, file: string, id: string)
    requires n <= |ws|
  {
    exists k :: 0 <= k < n && ws[k].file == file && HasFlagged(ws, ws[k], ws[k].jobs, id)
  }

  lemma FlaggedNext(ws: seq<Workflow>, n: nat, file: string, id: string)
    requires n < |ws|
    ensures Flagged'(ws, n + 1, file, id) <==>
              Flagged'(ws, n, file, id) || (ws[n].file == file && HasFlagged(ws, ws[n], ws[n].jobs, id))
  {
  }

  lemma ListsConcat(a: seq<Violation>, b: seq<Violation>, f: string, j: string)
    ensures Lists(a + b, f, j) <==> Lists(a, f, j) || Lists(b, f, j)
  {
    assert forall v :: v in a + b <==> v in a || v in b;
  }

  method JobViolations(ws: seq<Workflow>, w: Workflow, events: set<string>) returns (out: seq<Violation>)
    requires forall e :: e in events <==> Reaches(ws, w, e)
    ensures forall f, j :: Lists(out, f, j) <==> f == w.file && HasFlagged(ws, w, w.jobs, j)
  {
    out := [];
    if events == {} { return; }
    for i := 0 to |w.jobs|
      invariant forall f, j :: Lists(out, f, j) <==> f == w.file && HasFlagged(ws, w, w.jobs[..i], j)
    {
      var job := w.jobs[i];
      var v := JobViolation(ws, w, job, events);
      var more := if v.Some? then [v.value] else [];
      assert w.jobs[..i + 1] == w.jobs[..i] + [job];
      forall f, j ensures Lists(out + more, f, j) <==> f == w.file && HasFlagged(ws, w, w.jobs[..i + 1], j) {
        ListsConcat(out, more, f, j);
        HasFlaggedConcat(ws, w, w.jobs[..i], job, j);
      }
      out := out + more;
    }
    assert w.jobs[..|w.jobs|] == w.jobs;
  }

  lemma HasFlaggedConcat(ws: seq<Workflow>, w: Workflow, jobs: seq<Job>, job: Job, id: string)
    ensures HasFlagged(ws, w, jobs + [job], id) <==>
              HasFlagged(ws, w, jobs, id) || (job.id == id && JobFlagged(ws, w, job))
  {
    assert job in jobs + [job];
    assert forall x :: x in jobs + [job] <==> x in jobs || x == job;
  }

  method JobViolation(ws: seq<Workflow>, w: Workflow, job: Job, events: set<string>) returns (v: Option<Violation>)
    requires forall e :: e in events <==> Reaches(ws, w, e)
    ensures v.Some? <==> JobFlagged(ws, w, job)
    ensures v.Some? ==> v.value.workflow == w.file && v.value.job == job.id
    ensures v.Some? ==> forall e :: e in v.value.events <==> Reaches(ws, w, e) && JobReachableFor(job, e)
  {
    if job.uses.Some? { return None; }
    if !(exists e | e in events :: JobReachableFor(job, e)) { return None; }
    var route := ClassifyRunsOn(job.runsOn, job.matrix);
    if route.ProvablyHosted? { return None; }
    var reachableFor := set e | e in events && JobReachableFor(job, e);
    v := Some(Violation(w.file, job.id, reachableFor, route.why));
  }

  method StaleOnes(ws: seq<Workflow>, exemptions: seq<Exemption>, violations: seq<Violation>) returns (out: seq<Exemption>)
    requires forall f, j :: Lists(violations, f, j) <==> Flagged(ws, f, j)
    ensures forall ex :: ex in out <==> ex in exemptions && !Flagged(ws, ex.workflow, ex.job)
  {
    out := [];
    for i := 0 to |exemptions|
      invariant forall ex :: ex in out <==> ex in exemptions[..i] && !Flagged(ws, ex.workflow, ex.job)
    {
      var ex := exemptions[i];
      assert exemptions[..i + 1] == exemptions[..i] + [ex];
      assert Lists(violations, ex.workflow, ex.job) <==> Flagged(ws, ex.workflow, ex.job);
      if !Lists(violations, ex.workflow, ex.job) { out := out + [ex]; }
    }
    assert exemptions[..|exemptions|] == exemptions;
  }

  method Retained(violations: seq<Violation>, exemptions: seq<Exemption>) returns (out: seq<Violation>)
    ensures forall f, j :: Lists(out, f, j) <==> Lists(violations, f, j) && !Exempted(exemptions, f, j)
  {
    out := [];
    for i := 0 to |violations|
      invariant forall v :: v in out <==> v in violations[..i] && !Exempted(exemptions, v.workflow, v.job)
    {
      assert violations[..i + 1] == violations[..i] + [violations[i]];
      if !Exempted(exemptions, violations[i].workflow, violations[i].job) { out := out + [violations[i]]; }
    }
    assert violations[..|violations|] == violations;
  }

  // ---- what passing means ----------------------------------------------------------------

  /** End to end: when the guard passes and repeated workflow names do no harm, then along every
      actual chain of a pull-request trigger, local calls and workflow runs by display name, every
      job at its end that some run starts and that is not exempted lands on hosted images only,
      whatever its matrix leg. */
  lemma PassingIsSafe(ws: seq<Workflow>, exemptions: seq<Exemption>, c: Chain, job: Job, tag: string)
    requires ExemptsFlagged(ws, exemptions) && Harmless(ws)
    requires IsChain(c, ws, InSomeRun) && job in c.into.jobs && job.uses.None? && JobCanRun(job, EventOf(c))
    requires MayLandOn(job.runsOn, job.matrix, tag) && !Exempted(exemptions, c.into.file, job.id)
    ensures HostedImage(tag)
  {
    var w, e := c.into, EventOf(c);
    ActualIsNamed(c, ws);
    NamedIsReached(c, ws);
    CanRunIsReachable(job, e);
    assert !JobFlagged(ws, w, job) by {
      if JobFlagged(ws, w, job) { FlaggedJob(ws, w, job); }
    }
  }

  /** Where the names are distinct nothing more is needed. */
  lemma DistinctNamesAreSafe(ws: seq<Workflow>, exemptions: seq<Exemption>, c: Chain, job: Job, tag: string)
    requires ExemptsFlagged(ws, exemptions) && DistinctNames(ws)
    requires IsChain(c, ws, InSomeRun) && job in c.into.jobs && job.uses.None? && JobCanRun(job, EventOf(c))
    requires MayLandOn(job.runsOn, job.matrix, tag) && !Exempted(exemptions, c.into.file, job.id)
    ensures HostedImage(tag)
  {
    DistinctIsHarmless(ws);
    PassingIsSafe(ws, exemptions, c, job, tag);
  }

  /** A repeated name that does harm: the guard passes without exemptions, and a pull request gets to
      a job on a self-hosted runner. */
  lemma HolePasses()
    ensures DistinctFiles(Hole()) && ExemptsFlagged(Hole(), []) && !Harmless(Hole())
    ensures var c := Ran(Triggered(Hole()[0], "pull_request"), Hole()[2]);
            && IsChain(c, Hole(), InSomeRun) && HoleJob() in c.into.jobs && JobCanRun(HoleJob(), EventOf(c))
            && MayLandOn(HoleJob().runsOn, HoleJob().matrix, "self-hosted") && !HostedImage("self-hosted")
  {
    var ws := Hole();
    var c := Ran(Triggered(ws[0], "pull_request"), ws[2]);
    HoleIsEntered();
    NothingFlaggedInHole();
    SelfHostedIsNotHosted();
    LandsOnSelfHosted();
    if Harmless(ws) {
      assert !Exempted([], c.into.file, HoleJob().id);
      PassingIsSafe(ws, [], c, HoleJob(), "self-hosted");
    }
  }

  lemma LandsOnSelfHosted()
    ensures MayLandOn(HoleJob().runsOn, HoleJob().matrix, "self-hosted")
  {
  }

  lemma NothingFlaggedInHole()
    ensures ExemptsFlagged(Hole(), [])
  {
    var ws := Hole();
    forall f, j ensures !Flagged(ws, f, j) {
      forall w, job, e | w in ws && job in w.jobs && Reaches(ws, w, e) ensures false {
        var c :| IsChain(c, ws, AsLookedUp) && c.into == w && EventOf(c) == e;
        HoleTable(c);
      }
    }
  }

  lemma FlaggedJob(ws: seq<Workflow>, w: Workflow, job: Job)
    requires w in ws && job in w.jobs && JobFlagged(ws, w, job)
    ensures Flagged(ws, w.file, job.id)
  {
    assert HasFlagged(ws, w, w.jobs, job.id);
  }
}
