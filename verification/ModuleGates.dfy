/** Gates inherited through `mod` declarations (`xtask/src/macos_tests.rs`: `inherited_gates`). The
    module graph is given: for each source file, its declarations with the files each may name. */
module ModuleGates {
  import opened Options

  datatype Decl = Decl(line: nat, gate: Option<string>, children: seq<string>)

  /** Where a gate was written. */
  datatype Origin = Origin(path: string, line: nat, predicate_: string)

  type Sources = map<string, seq<Decl>>

  // ---- what it means to inherit a gate ---------------------------------------------------

  /** The gated declaration `o` names the source file `c`. */
  predicate GateNames(sources: Sources, o: Origin, c: string) {
    && o.path in sources && c in sources
    && exists d | d in sources[o.path] :: d.line == o.line && d.gate == Some(o.predicate_) && c in d.children
  }

  /** Some declaration in `f` names the source file `c`. */
  predicate Declares(sources: Sources, f: string, c: string) {
    f in sources && c in sources && exists d | d in sources[f] :: c in d.children
  }

  /** A way from a gate to a file: the gated declaration, then any declarations. */
  predicate IsTrail(sources: Sources, o: Origin, t: seq<string>) {
    && t != [] && GateNames(sources, o, t[0])
    && forall i | 0 <= i < |t| - 1 :: Declares(sources, t[i], t[i + 1])
  }

  ghost predicate Inherits(sources: Sources, o: Origin, f: string) {
    exists t :: IsTrail(sources, o, t) && t[|t| - 1] == f
  }

  lemma GateInherits(sources: Sources, o: Origin, c: string)
    requires GateNames(sources, o, c)
    ensures Inherits(sources, o, c)
  {
    assert IsTrail(sources, o, [c]);
    assert [c][|[c]| - 1] == c;
  }

  lemma ChildInherits(sources: Sources, o: Origin, f: string, c: string)
    requires Inherits(sources, o, f) && Declares(sources, f, c)
    ensures Inherits(sources, o, c)
  {
    var t :| IsTrail(sources, o, t) && t[|t| - 1] == f;
    var t' := t + [c];
    assert IsTrail(sources, o, t') && t'[|t'| - 1] == c;
  }

  /** Files that hold every gated child and every child of their own hold all that is inherited. */
  lemma {:induction false} ClosedHoldsAll(sources: Sources, reached: set<string>, o: Origin, t: seq<string>)
    requires forall o, c | GateNames(sources, o, c) :: c in reached
    requires forall f, c | f in reached && Declares(sources, f, c) :: c in reached
    requires IsTrail(sources, o, t)
    ensures t[|t| - 1] in reached
  {
    if |t| > 1 {
      var init := t[..|t| - 1];
      assert IsTrail(sources, o, init);
      ClosedHoldsAll(sources, reached, o, init);
      assert Declares(sources, t[|t| - 2], t[|t| - 1]);
    }
  }

  // ---- the walk --------------------------------------------------------------------------

  type Queue = seq<(string, Origin)>

  predicate Queued(queue: Queue, f: string) {
    exists q | q in queue :: q.0 == f
  }

  ghost predicate AllInherit(sources: Sources, queue: Queue) {
    forall q | q in queue :: q.0 in sources && Inherits(sources, q.1, q.0)
  }

  /** Queue the children that are source files and not reached yet. */
  method PushChildren(sources: Sources, children: seq<string>, o: Origin, reached: map<string, Origin>, queue: Queue)
    returns (out: Queue)
    requires AllInherit(sources, queue)
    requires forall c | c in children && c in sources :: Inherits(sources, o, c)
    ensures AllInherit(sources, out)
    ensures forall q | q in queue :: q in out
    ensures forall c | c in children && c in sources && c !in reached :: Queued(out, c)
  {
    out := queue;
    for i := 0 to |children|
      invariant AllInherit(sources, out)
      invariant forall q | q in queue :: q in out
      invariant forall k | 0 <= k < i && children[k] in sources && children[k] !in reached :: Queued(out, children[k])
    {
      if children[i] in sources && children[i] !in reached {
        ghost var before := out;
        out := out + [(children[i], o)];
        assert (children[i], o) in out;
        assert forall q | q in before :: q in out;
      }
    }
  }

  lemma StillQueued(a: Queue, b: Queue)
    requires forall q | q in a :: q in b
    ensures forall f | Queued(a, f) :: Queued(b, f)
  {
  }

  predicate GatesQueued(sources: Sources, file: string, upto: nat, queue: Queue)
    requires file in sources && upto <= |sources[file]|
  {
    forall k | 0 <= k < upto && sources[file][k].gate.Some? ::
      forall c | c in sources[file][k].children && c in sources :: Queued(queue, c)
  }

  lemma GatesStayQueued(sources: Sources, file: string, upto: nat, a: Queue, b: Queue)
    requires file in sources && upto <= |sources[file]| && GatesQueued(sources, file, upto, a)
    requires forall q | q in a :: q in b
    ensures GatesQueued(sources, file, upto, b)
  {
    StillQueued(a, b);
  }

  /** Every file a gated declaration names, in the order of the files. */
  method SeedQueue(files: seq<string>, sources: Sources) returns (queue: Queue)
    requires forall f :: f in sources <==> f in files
    ensures AllInherit(sources, queue)
    ensures forall f | f in files :: GatesQueued(sources, f, |sources[f]|, queue)
  {
    queue := [];
    for i := 0 to |files|
      invariant AllInherit(sources, queue)
      invariant forall k | 0 <= k < i :: GatesQueued(sources, files[k], |sources[files[k]]|, queue)
    {
      ghost var before := queue;
      queue := SeedFile(files[i], sources, queue);
      forall k | 0 <= k < i ensures GatesQueued(sources, files[k], |sources[files[k]]|, queue) {
        GatesStayQueued(sources, files[k], |sources[files[k]]|, before, queue);
      }
    }
  }

  method SeedFile(file: string, sources: Sources, queue: Queue) returns (out: Queue)
    requires file in sources && AllInherit(sources, queue)
    ensures AllInherit(sources, out)
    ensures forall q | q in queue :: q in out
    ensures GatesQueued(sources, file, |sources[file]|, out)
  {
    out := queue;
    var decls := sources[file];
    for i := 0 to |decls|
      invariant AllInherit(sources, out)
      invariant forall q | q in queue :: q in out
      invariant GatesQueued(sources, file, i, out)
    {
      if decls[i].gate.None? { continue; }
      var o := Origin(file, decls[i].line, decls[i].gate.value);
      forall c | c in decls[i].children && c in sources ensures Inherits(sources, o, c) {
        assert decls[i] in sources[file];
        GateInherits(sources, o, c);
      }
      ghost var before := out;
      out := PushChildren(sources, decls[i].children, o, map[], out);
      StillQueued(before, out);
    }
  }

  /** What is known between two steps of the walk. */
  ghost predicate WalkInv(sources: Sources, reached: map<string, Origin>, queue: Queue) {
    && AllInherit(sources, queue)
    && (forall f | f in reached :: f in sources && Inherits(sources, reached[f], f))
    && (forall o, c | GateNames(sources, o, c) :: c in reached || Queued(queue, c))
    && (forall f, c | f in reached && Declares(sources, f, c) :: c in reached || Queued(queue, c))
  }

  /** A file is reported exactly when it is reachable from a gated declaration through any
      declarations, and with the origin of a gate that reaches it. The walk ends on every module
      graph, cycles and repeated queue entries included. */
  method InheritedGates(files: seq<string>, sources: Sources) returns (reached: map<string, Origin>)
    requires forall f :: f in sources <==> f in files
    ensures forall f :: f in reached <==> exists o :: Inherits(sources, o, f)
    ensures forall f | f in reached :: Inherits(sources, reached[f], f)
  {
    var queue := SeedQueue(files, sources);
    reached := map[];
    SeedIsEnough(files, sources, queue);
    while queue != []
      invariant WalkInv(sources, reached, queue)
      decreases sources.Keys - reached.Keys, |queue|
    {
      var (file, origin) := queue[0];
      assert queue[0] in queue;
      ghost var was, before := queue, reached;
      if file in reached {
        SkipKeeps(sources, reached, queue);
        queue := queue[1..];
        continue;
      }
      RestInherits(sources, queue);
      reached := reached[file := origin];
      queue := Expand(sources, file, origin, reached, queue[1..]);
      ReachKeeps(sources, before, was, queue);
      assert file in sources.Keys - before.Keys && file !in sources.Keys - reached.Keys;
    }
    AllReached(sources, reached);
  }

  lemma AllReached(sources: Sources, reached: map<string, Origin>)
    requires WalkInv(sources, reached, [])
    ensures forall f :: f in reached <==> exists o :: Inherits(sources, o, f)
  {
    forall o, f | Inherits(sources, o, f) ensures f in reached { Reached(sources, reached, o, f); }
  }

  lemma Reached(sources: Sources, reached: map<string, Origin>, o: Origin, f: string)
    requires WalkInv(sources, reached, []) && Inherits(sources, o, f)
    ensures f in reached
  {
    NothingQueued();
    var t :| IsTrail(sources, o, t) && t[|t| - 1] == f;
    ClosedHoldsAll(sources, reached.Keys, o, t);
  }

  lemma NothingQueued()
    ensures forall f :: !Queued([], f)
  {
  }

  lemma RestInherits(sources: Sources, queue: Queue)
    requires queue != [] && AllInherit(sources, queue)
    ensures AllInherit(sources, queue[1..])
  {
    PopQueue(queue);
  }

  lemma SkipKeeps(sources: Sources, reached: map<string, Origin>, queue: Queue)
    requires WalkInv(sources, reached, queue) && queue != [] && queue[0].0 in reached
    ensures WalkInv(sources, reached, queue[1..])
  {
    PopQueue(queue);
  }

  lemma ReachKeeps(sources: Sources, reached: map<string, Origin>, queue: Queue, out: Queue)
    requires WalkInv(sources, reached, queue) && queue != [] && AllInherit(sources, out)
    requires forall f | Queued(queue[1..], f) :: Queued(out, f)
    requires forall c | Declares(sources, queue[0].0, c) :: c in reached || c == queue[0].0 || Queued(out, c)
    ensures WalkInv(sources, reached[queue[0].0 := queue[0].1], out)
  {
    PopQueue(queue);
    assert queue[0] in queue;
  }

  lemma PopQueue(queue: Queue)
    requires queue != []
    ensures forall q | q in queue[1..] :: q in queue
    ensures forall f | Queued(queue, f) :: f == queue[0].0 || Queued(queue[1..], f)
  {
    forall f | Queued(queue, f) && f != queue[0].0 ensures Queued(queue[1..], f) {
      var q :| q in queue && q.0 == f;
      assert q in queue[1..];
    }
  }

  lemma SeedIsEnough(files: seq<string>, sources: Sources, queue: Queue)
    requires forall f :: f in sources <==> f in files
    requires AllInherit(sources, queue)
    requires forall f | f in files :: GatesQueued(sources, f, |sources[f]|, queue)
    ensures WalkInv(sources, map[], queue)
  {
    forall o, c | GateNames(sources, o, c) ensures Queued(queue, c) {
      var d :| d in sources[o.path] && d.line == o.line && d.gate == Some(o.predicate_) && c in d.children;
      var k :| 0 <= k < |sources[o.path]| && sources[o.path][k] == d;
      assert GatesQueued(sources, o.path, |sources[o.path]|, queue);
    }
  }

  /** Queue what a newly reached file declares. */
  method Expand(sources: Sources, file: string, origin: Origin, reached: map<string, Origin>, queue: Queue)
    returns (out: Queue)
    requires file in sources && file in reached && Inherits(sources, origin, file) && AllInherit(sources, queue)
    ensures AllInherit(sources, out)
    ensures forall f | Queued(queue, f) :: Queued(out, f)
    ensures forall c | Declares(sources, file, c) :: c in reached || Queued(out, c)
  {
    out := queue;
    var decls := sources[file];
    for i := 0 to |decls|
      invariant AllInherit(sources, out)
      invariant forall f | Queued(queue, f) :: Queued(out, f)
      invariant forall k | 0 <= k < i ::
                  forall c | c in decls[k].children && c in sources :: c in reached || Queued(out, c)
    {
      forall c | c in decls[i].children && c in sources ensures Inherits(sources, origin, c) {
        assert decls[i] in sources[file];
        ChildInherits(sources, origin, file, c);
      }
      ghost var before := out;
      out := PushChildren(sources, decls[i].children, origin, reached, out);
      StillQueued(before, out);
    }
    forall c | Declares(sources, file, c) ensures c in reached || Queued(out, c) {
      var d :| d in sources[file] && c in d.children;
      var k :| 0 <= k < |decls| && decls[k] == d;
    }
  }
}
