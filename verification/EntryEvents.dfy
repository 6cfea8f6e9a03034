/** Which workflows a pull request can enter, and under which event (`xtask/src/runners.rs`:
    `job_reachable_for`, `local_called_workflow`, `entry_events`). */
module EntryEvents {
  import opened Truths
  import opened Options
  import opened Conditions
  import Text
  import IfExpr
  import Printer
  import opened Routing

  datatype Job = Job(
    id: string, ifExpr: Option<string>, runsOn: Option<Yaml>, matrix: Option<Yaml>, uses: Option<string>)

  datatype Workflow = Workflow(
    file: string, name: string, triggers: set<string>, upstreams: seq<string>, jobs: seq<Job>)

  const PR_EVENTS: set<string> := {"pull_request", "pull_request_target"}
  const ALL_EVENTS: set<string> := PR_EVENTS + {"workflow_run"}

  /** Reachable unless the condition is provably false for the event. */
  predicate JobReachableFor(job: Job, event: string) {
    job.ifExpr.None? || Verdict(job.ifExpr.value, event) != False
  }

  /** The job runs for `event` in some run. */
  ghost predicate JobCanRun(job: Job, event: string) {
    job.ifExpr.None? || CanHold(job.ifExpr.value, event)
  }

  lemma CanRunIsReachable(job: Job, event: string)
    ensures JobCanRun(job, event) ==> JobReachableFor(job, event)
  {
    if job.ifExpr.Some? { VerdictSound(job.ifExpr.value, event); }
  }

  /** A job guarded by a clear condition is taken to run exactly when the condition is true. */
  lemma ClearlyGuarded(job: Job, e: IfExpr.Expr, event: string, run: IfExpr.Run)
    requires Printer.WellFormed(e) && IfExpr.IsClear(e) && (Text.IsAscii(event) || AsciiLiterals(e))
    requires job.ifExpr == Some(Printer.Print(e, 0)) && !Text.Contains(Printer.Print(e, 0), "${{")
    ensures JobReachableFor(job, event) <==> IfExpr.Truthy(IfExpr.Conc(e, event, run), run)
  {
    PrintedClear(e, event, run);
  }

  const PREFIX := "./.github/workflows/"

  /** The file a `uses:` names, if it is a workflow of this repository. */
  function LocalCalled(uses: string): Option<string> {
    if PREFIX <= uses && '/' !in uses[|PREFIX|..] then Some(uses[|PREFIX|..]) else None
  }

  /** `uses:` calls the file: the path of a workflow of this repository, and no file further down. */
  predicate Calls(uses: string, file: string) {
    uses == "./.github/workflows/" + file && '/' !in file
  }

  /** A local call is found exactly where `uses:` makes one. */
  lemma LocalCalledMeans(uses: string, file: string)
    ensures LocalCalled(uses) == Some(file) <==> Calls(uses, file)
  {
    if Calls(uses, file) { assert uses[|PREFIX|..] == file; }
    if LocalCalled(uses) == Some(file) { assert uses == PREFIX + uses[|PREFIX|..]; }
  }

  /** The events that run pull-request code: on the merge result, and on the base. */
  predicate IsPullRequest(event: string) { event == "pull_request" || event == "pull_request_target" }

  /** The names a `workflow_run` trigger refers to; of two workflows with one name the last counts. */
  function ByName(ws: seq<Workflow>, name: string): Option<string> {
    if ws == [] then None
    else if ws[|ws| - 1].name == name then Some(ws[|ws| - 1].file)
    else ByName(ws[..|ws| - 1], name)
  }

  predicate HangsOff(ws: seq<Workflow>, w: Workflow, upstream: Workflow) {
    exists n | n in w.upstreams :: ByName(ws, n) == Some(upstream.file)
  }

  /** A directory holds a file name once. */
  predicate DistinctFiles(ws: seq<Workflow>) {
    forall i, j | 0 <= i < j < |ws| :: ws[i].file != ws[j].file
  }

  predicate DistinctNames(ws: seq<Workflow>) {
    forall i, j | 0 <= i < j < |ws| :: ws[i].name != ws[j].name
  }

  // ---- chains: the ways in ---------------------------------------------------------------

  /** A way a pull request's code gets into a workflow. */
  datatype Chain =
    | Triggered(into: Workflow, event: string)
    | Called(from: Chain, job: Job, into: Workflow)
    | Ran(from: Chain, into: Workflow)

  /** `github.event_name` inside: a called workflow keeps its caller's, a run has its own. */
  function EventOf(c: Chain): string {
    match c
    case Triggered(_, e) => e
    case Called(from, _, _) => EventOf(from)
    case Ran(_, _) => "workflow_run"
  }

  /** How a chain is read. The guard takes its own list of triggers, resolves a call by stripping its
      prefix, takes a calling job to run unless its condition is provably false, and looks the
      upstream of a `workflow_run` up by name in its table. GitHub goes by the text of the file: the
      path a call names, and the display name, which every workflow that bears it answers to. In an
      actual run the calling jobs run, too. */
  datatype Reading = AsLookedUp | AsNamed | InSomeRun

  /** The chain exists in `ws`. */
  ghost predicate IsChain(c: Chain, ws: seq<Workflow>, reading: Reading) {
    && c.into in ws
    && match c
       case Triggered(w, e) => e in w.triggers && (if reading == AsLookedUp then e in PR_EVENTS else IsPullRequest(e))
       case Called(from, job, w) =>
         && IsChain(from, ws, reading)
         && job in from.into.jobs && job.uses.Some?
         && (if reading == AsLookedUp then LocalCalled(job.uses.value) == Some(w.file) else Calls(job.uses.value, w.file))
         && (if reading == InSomeRun then JobCanRun(job, EventOf(from)) else JobReachableFor(job, EventOf(from)))
       case Ran(from, w) =>
         && IsChain(from, ws, reading)
         && (if reading == AsLookedUp then HangsOff(ws, w, from.into) else from.into.name in w.upstreams)
  }

  ghost predicate Reaches(ws: seq<Workflow>, w: Workflow, event: string) {
    exists c :: IsChain(c, ws, AsLookedUp) && c.into == w && EventOf(c) == event
  }

  /** Every actual way in is one in which the guard takes every calling job to run. */
  lemma {:induction false} ActualIsNamed(c: Chain, ws: seq<Workflow>)
    requires IsChain(c, ws, InSomeRun)
    ensures IsChain(c, ws, AsNamed)
  {
    match c
    case Triggered(_, _) =>
    case Called(from, job, _) => ActualIsNamed(from, ws); CanRunIsReachable(job, EventOf(from));
    case Ran(from, _) => ActualIsNamed(from, ws);
  }

  // ---- order does not matter -------------------------------------------------------------

  lemma {:induction false} ByNameMeans(ws: seq<Workflow>, name: string, file: string)
    requires DistinctNames(ws)
    ensures ByName(ws, name) == Some(file) <==> exists w | w in ws :: w.name == name && w.file == file
  {
    if ws != [] {
      var init, last := ws[..|ws| - 1], ws[|ws| - 1];
      ByNameMeans(init, name, file);
      assert ws == init + [last];
      if last.name == name {
        forall w | w in ws && w.name == name ensures w == last {
          var i :| 0 <= i < |ws| && ws[i] == w;
        }
        assert last in ws;
      } else {
        assert forall w | w in init :: w in ws;
      }
    }
  }

  lemma {:induction false} ChainReordered(c: Chain, ws: seq<Workflow>, ws': seq<Workflow>, reading: Reading)
    requires DistinctNames(ws) && DistinctNames(ws')
    requires forall w :: w in ws <==> w in ws'
    requires IsChain(c, ws, reading)
    ensures IsChain(c, ws', reading)
  {
    match c
    case Triggered(_, _) =>
    case Called(from, _, _) => ChainReordered(from, ws, ws', reading);
    case Ran(from, w) =>
      ChainReordered(from, ws, ws', reading);
      if reading == AsLookedUp {
        var n :| n in w.upstreams && ByName(ws, n) == Some(from.into.file);
        ByNameMeans(ws, n, from.into.file);
        ByNameMeans(ws', n, from.into.file);
      }
  }

  /** For distinct names the answer does not depend on the order the workflows are listed in. */
  lemma OrderIndependent(ws: seq<Workflow>, ws': seq<Workflow>, w: Workflow, event: string)
    requires DistinctNames(ws) && DistinctNames(ws')
    requires forall w :: w in ws <==> w in ws'
    ensures Reaches(ws, w, event) <==> Reaches(ws', w, event)
  {
    if Reaches(ws, w, event) {
      var c :| IsChain(c, ws, AsLookedUp) && c.into == w && EventOf(c) == event;
      ChainReordered(c, ws, ws', AsLookedUp);
    }
    if Reaches(ws', w, event) {
      var c :| IsChain(c, ws', AsLookedUp) && c.into == w && EventOf(c) == event;
      ChainReordered(c, ws', ws, AsLookedUp);
    }
  }

  // ---- the fixpoint ----------------------------------------------------------------------

  type Entry = map<string, set<string>>

  ghost predicate Covering(ws: seq<Workflow>, entry: Entry) {
    && (forall f :: f in entry <==> exists w | w in ws :: w.file == f)
    && forall f | f in entry :: entry[f] <= ALL_EVENTS
  }

  /** Nothing is in the table that no chain brings. */
  ghost predicate Sound(ws: seq<Workflow>, entry: Entry) {
    forall w, e | w in ws && w.file in entry && e in entry[w.file] :: Reaches(ws, w, e)
  }

  ghost predicate HasTriggers(ws: seq<Workflow>, entry: Entry) {
    forall w | w in ws :: w.file in entry && PR_EVENTS * w.triggers <= entry[w.file]
  }

  /** Every event of `w` has been handed on by its calls. */
  ghost predicate CallsDone(w: Workflow, jobs: seq<Job>, events: set<string>, entry: Entry) {
    forall job, e | job in jobs && e in events :: CallDone(job, e, entry)
  }

  ghost predicate CallDone(job: Job, e: string, entry: Entry) {
    job.uses.Some? && JobReachableFor(job, e) ==>
      match LocalCalled(job.uses.value)
      case None => true
      case Some(f) => f in entry ==> e in entry[f]
  }

  ghost predicate RunsDone(ws: seq<Workflow>, w: Workflow, upto: nat, entry: Entry)
    requires upto <= |ws|
  {
    forall i | 0 <= i < upto && HangsOff(ws, ws[i], w) :: ws[i].file in entry && "workflow_run" in entry[ws[i].file]
  }

  ghost predicate HandedOn(ws: seq<Workflow>, w: Workflow, entry: Entry) {
    w.file in entry && entry[w.file] != {} ==>
      CallsDone(w, w.jobs, entry[w.file], entry) && RunsDone(ws, w, |ws|, entry)
  }

  /** `b` is `a` with, perhaps, more events; `grew` says whether there are more. */
  ghost predicate Grown(a: Entry, b: Entry, grew: bool) {
    && a.Keys == b.Keys
    && (forall f | f in a :: a[f] <= b[f])
    && (!grew ==> a == b)
    && (grew ==> exists f | f in a :: a[f] < b[f])
  }

  /** A table that holds the triggers and hands everything on holds whatever a chain brings. */
  lemma {:induction false} ChainInTable(c: Chain, ws: seq<Workflow>, entry: Entry)
    requires IsChain(c, ws, AsLookedUp) && DistinctFiles(ws) && Covering(ws, entry) && HasTriggers(ws, entry)
    requires forall w | w in ws :: HandedOn(ws, w, entry)
    ensures c.into.file in entry && EventOf(c) in entry[c.into.file]
  {
    match c
    case Triggered(_, _) =>
    case Called(from, job, w) =>
      ChainInTable(from, ws, entry);
      assert HandedOn(ws, from.into, entry);
      assert CallDone(job, EventOf(from), entry);
    case Ran(from, w) =>
      ChainInTable(from, ws, entry);
      assert HandedOn(ws, from.into, entry);
      var i :| 0 <= i < |ws| && ws[i] == w;
  }

  ghost function Missing(files: set<string>, entry: Entry): set<(string, string)>
    requires files <= entry.Keys
  {
    set f, e | f in files && e in ALL_EVENTS && e !in entry[f] :: (f, e)
  }

  lemma GrownIsProgress(a: Entry, b: Entry)
    requires Grown(a, b, true) && forall f | f in b :: b[f] <= ALL_EVENTS
    ensures Missing(b.Keys, b) < Missing(a.Keys, a)
  {
    var f :| f in a && a[f] < b[f];
    var e :| e in b[f] && e !in a[f];
    assert (f, e) in Missing(a.Keys, a) && (f, e) !in Missing(b.Keys, b);
  }

  lemma GrownTrans(a: Entry, b: Entry, c: Entry, g: bool, h: bool)
    requires Grown(a, b, g) && Grown(b, c, h)
    ensures Grown(a, c, g || h)
  {
    if g {
      var f :| f in a && a[f] < b[f];
      assert a[f] < c[f];
    } else if h {
      var f :| f in b && b[f] < c[f];
      assert a[f] < c[f];
    }
  }

  method Add(entry: Entry, file: string, events: set<string>) returns (next: Entry, grew: bool)
    ensures Grown(entry, next, grew)
    ensures file in entry ==> next == entry[file := entry[file] + events]
    ensures file !in entry ==> next == entry
  {
    if file in entry {
      next := entry[file := entry[file] + events];
      grew := !(events <= entry[file]);
      if grew {
        assert entry[file] < next[file];
      } else {
        assert entry[file] + events == entry[file];
        assert next == entry;
      }
    } else {
      next, grew := entry, false;
    }
  }

  lemma CalledReaches(ws: seq<Workflow>, w: Workflow, job: Job, e: string, into: Workflow)
    requires Reaches(ws, w, e) && job in w.jobs && job.uses.Some? && into in ws
    requires LocalCalled(job.uses.value) == Some(into.file) && JobReachableFor(job, e)
    ensures Reaches(ws, into, e)
  {
    var c :| IsChain(c, ws, AsLookedUp) && c.into == w && EventOf(c) == e;
    assert IsChain(Called(c, job, into), ws, AsLookedUp);
    assert EventOf(Called(c, job, into)) == e;
  }

  lemma RanReaches(ws: seq<Workflow>, w: Workflow, e: string, into: Workflow)
    requires Reaches(ws, w, e) && into in ws && HangsOff(ws, into, w)
    ensures Reaches(ws, into, "workflow_run")
  {
    var c :| IsChain(c, ws, AsLookedUp) && c.into == w && EventOf(c) == e;
    assert IsChain(Ran(c, into), ws, AsLookedUp);
    assert EventOf(Ran(c, into)) == "workflow_run";
  }

  /** The table so far is right as far as it goes. */
  ghost predicate Ready(ws: seq<Workflow>, entry: Entry) {
    DistinctFiles(ws) && Covering(ws, entry) && Sound(ws, entry) && HasTriggers(ws, entry)
  }

  lemma FileIsWorkflow(ws: seq<Workflow>, w: Workflow, w': Workflow)
    requires DistinctFiles(ws) && w in ws && w' in ws && w.file == w'.file
    ensures w == w'
  {
    var i :| 0 <= i < |ws| && ws[i] == w;
    var j :| 0 <= j < |ws| && ws[j] == w';
  }

  /** Adding events that reach a workflow keeps the table right. */
  lemma AddKeepsReady(ws: seq<Workflow>, entry: Entry, file: string, events: set<string>)
    requires Ready(ws, entry) && file in entry && events <= ALL_EVENTS
    requires forall w, e | w in ws && w.file == file && e in events :: Reaches(ws, w, e)
    ensures Ready(ws, entry[file := entry[file] + events])
  {
  }

  lemma CallsStayDone(w: Workflow, jobs: seq<Job>, events: set<string>, a: Entry, b: Entry, grew: bool)
    requires CallsDone(w, jobs, events, a) && Grown(a, b, grew)
    ensures CallsDone(w, jobs, events, b)
  {
    forall job, e | job in jobs && e in events ensures CallDone(job, e, b) {
      assert CallDone(job, e, a);
    }
  }

  /** `workflow_call`: each reachable calling job hands its event on. */
  method HandOnCalls(ws: seq<Workflow>, w: Workflow, entry: Entry) returns (next: Entry, grew: bool)
    requires Ready(ws, entry) && w in ws
    ensures Ready(ws, next) && Grown(entry, next, grew)
    ensures CallsDone(w, w.jobs, entry[w.file], next)
  {
    next, grew := entry, false;
    var events := entry[w.file];
    for i := 0 to |w.jobs|
      invariant Ready(ws, next) && Grown(entry, next, grew)
      invariant CallsDone(w, w.jobs[..i], events, next)
    {
      ghost var before := next;
      var g := false;
      next, g := HandOnCall(ws, w, w.jobs[i], events, next);
      CallsStayDone(w, w.jobs[..i], events, before, next, g);
      GrownTrans(entry, before, next, grew, g);
      grew := grew || g;
      assert w.jobs[..i + 1] == w.jobs[..i] + [w.jobs[i]];
    }
    assert w.jobs[..|w.jobs|] == w.jobs;
  }

  method HandOnCall(ws: seq<Workflow>, w: Workflow, job: Job, events: set<string>, entry: Entry)
    returns (next: Entry, grew: bool)
    requires Ready(ws, entry) && w in ws && job in w.jobs && events <= entry[w.file]
    ensures Ready(ws, next) && Grown(entry, next, grew)
    ensures forall e | e in events :: CallDone(job, e, next)
  {
    if job.uses.None? || LocalCalled(job.uses.value).None? {
      return entry, false;
    }
    var file := LocalCalled(job.uses.value).value;
    var reachableWith := set e | e in events && JobReachableFor(job, e);
    if file in entry {
      forall into, e | into in ws && into.file == file && e in reachableWith ensures Reaches(ws, into, e) {
        CalledReaches(ws, w, job, e, into);
      }
      AddKeepsReady(ws, entry, file, reachableWith);
    }
    next, grew := Add(entry, file, reachableWith);
  }

  /** `workflow_run`: whatever hangs off `w` is entered as `workflow_run`. */
  method HandOnRuns(ws: seq<Workflow>, w: Workflow, entry: Entry) returns (next: Entry, grew: bool)
    requires Ready(ws, entry) && w in ws && entry[w.file] != {}
    ensures Ready(ws, next) && Grown(entry, next, grew)
    ensures RunsDone(ws, w, |ws|, next)
  {
    next, grew := entry, false;
    ghost var e :| e in entry[w.file];
    for i := 0 to |ws|
      invariant Ready(ws, next) && Grown(entry, next, grew)
      invariant RunsDone(ws, w, i, next)
    {
      if HangsOff(ws, ws[i], w) {
        ghost var before := next;
        var g := false;
        next, g := HandOnRun(ws, w, e, ws[i], next);
        GrownTrans(entry, before, next, grew, g);
        RunsStayDone(ws, w, i, before, next, g);
        grew := grew || g;
      }
      RunDone(ws, w, i, next);
    }
  }

  lemma RunsStayDone(ws: seq<Workflow>, w: Workflow, upto: nat, a: Entry, b: Entry, grew: bool)
    requires upto <= |ws| && RunsDone(ws, w, upto, a) && Grown(a, b, grew)
    ensures RunsDone(ws, w, upto, b)
  {
  }

  lemma RunDone(ws: seq<Workflow>, w: Workflow, i: nat, entry: Entry)
    requires i < |ws| && RunsDone(ws, w, i, entry)
    requires HangsOff(ws, ws[i], w) ==> ws[i].file in entry && "workflow_run" in entry[ws[i].file]
    ensures RunsDone(ws, w, i + 1, entry)
  {
  }

  method HandOnRun(ws: seq<Workflow>, w: Workflow, ghost e: string, into: Workflow, entry: Entry)
    returns (next: Entry, grew: bool)
    requires Ready(ws, entry) && w in ws && into in ws && Reaches(ws, w, e) && HangsOff(ws, into, w)
    ensures Ready(ws, next) && Grown(entry, next, grew)
    ensures into.file in next && "workflow_run" in next[into.file]
  {
    RanReaches(ws, w, e, into);
    forall other | other in ws && other.file == into.file ensures other == into {
      FileIsWorkflow(ws, other, into);
    }
    AddKeepsReady(ws, entry, into.file, {"workflow_run"});
    next, grew := Add(entry, into.file, {"workflow_run"});
  }

  lemma TriggerReaches(ws: seq<Workflow>, w: Workflow, e: string)
    requires w in ws && e in PR_EVENTS && e in w.triggers
    ensures Reaches(ws, w, e)
  {
    assert IsChain(Triggered(w, e), ws, AsLookedUp);
    assert EventOf(Triggered(w, e)) == e;
  }

  method Initial(ws: seq<Workflow>) returns (entry: Entry)
    requires DistinctFiles(ws)
    ensures Ready(ws, entry)
  {
    entry := map[];
    for i := 0 to |ws|
      invariant forall f :: f in entry <==> exists k :: 0 <= k < i && ws[k].file == f
      invariant forall k | 0 <= k < i :: entry[ws[k].file] == PR_EVENTS * ws[k].triggers
    {
      entry := entry[ws[i].file := PR_EVENTS * ws[i].triggers];
    }
    forall w, e | w in ws && w.file in entry && e in entry[w.file] ensures Reaches(ws, w, e) {
      TriggerReaches(ws, w, e);
    }
  }

  /** The table is the least one: it holds exactly the events some chain brings. */
  method ComputeEntryEvents(ws: seq<Workflow>) returns (entry: Entry)
    requires DistinctFiles(ws)
    ensures Covering(ws, entry)
    ensures forall w, e | w in ws :: e in entry[w.file] <==> Reaches(ws, w, e)
  {
    entry := Initial(ws);
    while true
      invariant Ready(ws, entry)
      decreases Missing(entry.Keys, entry)
    {
      ghost var before := entry;
      var changed := false;
      entry, changed := Pass(ws, entry);
      if !changed {
        ExactTable(ws, entry);
        return;
      }
      GrownIsProgress(before, entry);
    }
  }

  /** One round over all workflows; a round that changes nothing has handed everything on. */
  method Pass(ws: seq<Workflow>, entry: Entry) returns (next: Entry, changed: bool)
    requires Ready(ws, entry)
    ensures Ready(ws, next) && Grown(entry, next, changed)
    ensures !changed ==> forall k | 0 <= k < |ws| :: HandedOn(ws, ws[k], next)
  {
    next, changed := entry, false;
    for i := 0 to |ws|
      invariant Ready(ws, next) && Grown(entry, next, changed)
      invariant !changed ==> forall k | 0 <= k < i :: HandedOn(ws, ws[k], next)
    {
      if next[ws[i].file] == {} { continue; }
      ghost var was := next;
      var g := false;
      next, g := HandOn(ws, ws[i], next);
      GrownTrans(entry, was, next, changed, g);
      changed := changed || g;
    }
  }

  method HandOn(ws: seq<Workflow>, w: Workflow, entry: Entry) returns (next: Entry, grew: bool)
    requires Ready(ws, entry) && w in ws && entry[w.file] != {}
    ensures Ready(ws, next) && Grown(entry, next, grew)
    ensures !grew ==> HandedOn(ws, w, next)
  {
    var g, h := false, false;
    next, g := HandOnCalls(ws, w, entry);
    ghost var mid := next;
    next, h := HandOnRuns(ws, w, next);
    GrownTrans(entry, mid, next, g, h);
    grew := g || h;
  }

  lemma ExactTable(ws: seq<Workflow>, entry: Entry)
    requires Ready(ws, entry) && forall k | 0 <= k < |ws| :: HandedOn(ws, ws[k], entry)
    ensures forall w, e | w in ws :: e in entry[w.file] <==> Reaches(ws, w, e)
  {
    forall w, e | w in ws && Reaches(ws, w, e) ensures e in entry[w.file] {
      var c :| IsChain(c, ws, AsLookedUp) && c.into == w && EventOf(c) == e;
      ChainInTable(c, ws, entry);
    }
  }
}
