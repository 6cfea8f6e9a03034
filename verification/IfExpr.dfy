/** The condition language of a workflow job's `if:`: its syntax, the grammar the parser of
    `xtask/src/runners.rs` accepts, and two meanings, concrete and abstract. */
module IfExpr {
  import opened Truths
  import opened Text

  datatype CmpOp = Eq | Ne | Le | Ge | Lt | Gt

  datatype Expr =
    | Str(text: string)
    | Num(digits: string)
    | Path(path: string)
    | Call(name: string, args: seq<Expr>)
    | Not(inner: Expr)
    | Cmp(op: CmpOp, left: Expr, right: Expr)
    | And(left: Expr, right: Expr)
    | Or(left: Expr, right: Expr)

  // ---- the abstract meaning: what the parser computes as it goes -------------------------

  datatype Val = StrVal(s: string) | BoolVal(b: bool) | UnknownVal

  /** `Val::truth`: the empty string is falsy, any other string truthy. */
  function TruthOf(v: Val): Truth {
    match v
    case StrVal(s) => Truth.Of(s != "")
    case BoolVal(b) => Truth.Of(b)
    case UnknownVal => Unknown
  }

  function FromTruth(t: Truth): Val {
    match t
    case True => BoolVal(true)
    case False => BoolVal(false)
    case Unknown => UnknownVal
  }

  /** `equal`: only two known values of one shape decide it. */
  function Equal(a: Val, b: Val): Truth {
    match (a, b)
    case (StrVal(x), StrVal(y)) => Truth.Of(x == y)
    case (BoolVal(x), BoolVal(y)) => Truth.Of(x == y)
    case _ => Unknown
  }

  /** `call`: the built-ins decidable from known arguments. */
  function CallVal(name: string, args: seq<Val>): Val {
    if name == "always" && |args| == 0 then BoolVal(true)
    else if |args| == 2 && args[0].StrVal? && args[1].StrVal? then
      if name == "contains" then BoolVal(Contains(args[0].s, args[1].s))
      else if name == "startsWith" then BoolVal(args[1].s <= args[0].s)
      else if name == "endsWith" then BoolVal(EndsWith(args[0].s, args[1].s))
      else UnknownVal
    else UnknownVal
  }

  function PathVal(path: string, event: string): Val {
    if path == "github.event_name" then StrVal(event)
    else if path == "true" then BoolVal(true)
    else if path == "false" then BoolVal(false)
    else UnknownVal
  }

  function CmpVal(op: CmpOp, a: Val, b: Val): Val {
    match op
    case Eq => FromTruth(Equal(a, b))
    case Ne => FromTruth(Equal(a, b).Not())
    case _ => UnknownVal
  }

  function Abs(e: Expr, event: string): Val
    decreases e, 1
  {
    match e
    case Str(s) => StrVal(s)
    case Num(_) => UnknownVal
    case Path(p) => PathVal(p, event)
    case Call(name, args) => CallVal(name, AbsAll(args, event))
    case Not(x) => FromTruth(TruthOf(Abs(x, event)).Not())
    case Cmp(op, l, r) => CmpVal(op, Abs(l, event), Abs(r, event))
    case And(l, r) => FromTruth(TruthOf(Abs(l, event)).And(TruthOf(Abs(r, event))))
    case Or(l, r) => FromTruth(TruthOf(Abs(l, event)).Or(TruthOf(Abs(r, event))))
  }

  function AbsAll(es: seq<Expr>, event: string): (vs: seq<Val>)
    ensures |vs| == |es|
    decreases es, 0
  {
    if es == [] then [] else [Abs(es[0], event)] + AbsAll(es[1..], event)
  }

  // ---- the concrete meaning: one run, in which nothing is unknown ------------------------

  /** A value of a run: a string, a boolean, or anything else (a number, null, an object). */
  datatype Value = Text(s: string) | Flag(b: bool) | Other(id: int)

  /** Everything about one run that the file does not fix: contexts, the value of a numeral, the
      results of functions and of comparisons across shapes, the truthiness of other values. A key
      that is absent reads as `Other(0)`, or as false. */
  datatype Run = Run(
    contexts: imap<string, Value>,
    numerals: imap<string, Value>,
    functions: imap<(string, seq<Value>), Value>,
    equal: iset<(Value, Value)>,
    ordered: iset<(CmpOp, Value, Value)>,
    truthy: iset<int>)

  ghost predicate Truthy(v: Value, run: Run) {
    match v
    case Text(s) => s != ""
    case Flag(b) => b
    case Other(id) => id in run.truthy
  }

  ghost predicate SameValue(a: Value, b: Value, run: Run) {
    match (a, b)
    case (Text(x), Text(y)) => x == y
    case (Flag(x), Flag(y)) => x == y
    case _ => (a, b) in run.equal
  }

  ghost function Called(name: string, args: seq<Value>, run: Run): Value {
    if name == "always" && args == [] then Flag(true)
    else if name == "contains" && |args| == 2 && args[0].Text? && args[1].Text? then
      Flag(exists i :: 0 <= i <= |args[0].s| && args[1].s <= args[0].s[i..])
    else if name == "startsWith" && |args| == 2 && args[0].Text? && args[1].Text? then
      Flag(args[1].s <= args[0].s)
    else if name == "endsWith" && |args| == 2 && args[0].Text? && args[1].Text? then
      Flag(EndsWith(args[0].s, args[1].s))
    else if (name, args) in run.functions then run.functions[(name, args)]
    else Other(0)
  }

  ghost function Conc(e: Expr, event: string, run: Run): Value
    decreases e, 1
  {
    match e
    case Str(s) => Text(s)
    case Num(d) => if d in run.numerals then run.numerals[d] else Other(0)
    case Path(p) =>
      if p == "github.event_name" then Text(event)
      else if p == "true" then Flag(true)
      else if p == "false" then Flag(false)
      else if p in run.contexts then run.contexts[p]
      else Other(0)
    case Call(name, args) => Called(name, ConcAll(args, event, run), run)
    case Not(x) => Flag(!Truthy(Conc(x, event, run), run))
    case Cmp(op, l, r) =>
      var a, b := Conc(l, event, run), Conc(r, event, run);
      (match op
       case Eq => Flag(SameValue(a, b, run))
       case Ne => Flag(!SameValue(a, b, run))
       case _ => Flag((op, a, b) in run.ordered))
    case And(l, r) => Flag(Truthy(Conc(l, event, run), run) && Truthy(Conc(r, event, run), run))
    case Or(l, r) => Flag(Truthy(Conc(l, event, run), run) || Truthy(Conc(r, event, run), run))
  }

  ghost function ConcAll(es: seq<Expr>, event: string, run: Run): (vs: seq<Value>)
    ensures |vs| == |es|
    decreases es, 0
  {
    if es == [] then [] else [Conc(es[0], event, run)] + ConcAll(es[1..], event, run)
  }

  // ---- soundness of the abstract meaning -------------------------------------------------

  /** `v` says nothing false about `c`. */
  predicate Describes(v: Val, c: Value) {
    match v
    case StrVal(s) => c == Text(s)
    case BoolVal(b) => c == Flag(b)
    case UnknownVal => true
  }

  lemma DescribesTruth(v: Val, c: Value, run: Run)
    requires Describes(v, c)
    ensures Covers(TruthOf(v), Truthy(c, run))
  {
  }

  lemma CallSound(name: string, vs: seq<Val>, cs: seq<Value>, run: Run)
    requires |vs| == |cs| && forall i | 0 <= i < |vs| :: Describes(vs[i], cs[i])
    ensures Describes(CallVal(name, vs), Called(name, cs, run))
  {
    if |vs| == 2 && vs[0].StrVal? && vs[1].StrVal? {
      ContainsMeans(vs[0].s, vs[1].s);
    }
  }

  /** Evaluator soundness: whatever the abstract value claims is so in every run. */
  lemma {:induction false} AbsSound(e: Expr, event: string, run: Run)
    ensures Describes(Abs(e, event), Conc(e, event, run))
    decreases e, 1
  {
    match e
    case Str(_) =>
    case Num(_) =>
    case Path(_) =>
    case Call(name, args) =>
      AbsAllSound(args, event, run);
      CallSound(name, AbsAll(args, event), ConcAll(args, event, run), run);
    case Not(x) =>
      AbsSound(x, event, run);
      DescribesTruth(Abs(x, event), Conc(x, event, run), run);
    case Cmp(_, l, r) =>
      AbsSound(l, event, run);
      AbsSound(r, event, run);
    case And(l, r) =>
      AbsSound(l, event, run);
      AbsSound(r, event, run);
      DescribesTruth(Abs(l, event), Conc(l, event, run), run);
      DescribesTruth(Abs(r, event), Conc(r, event, run), run);
    case Or(l, r) =>
      AbsSound(l, event, run);
      AbsSound(r, event, run);
      DescribesTruth(Abs(l, event), Conc(l, event, run), run);
      DescribesTruth(Abs(r, event), Conc(r, event, run), run);
  }

  lemma {:induction false} AbsAllSound(es: seq<Expr>, event: string, run: Run)
    ensures forall i | 0 <= i < |es| :: Describes(AbsAll(es, event)[i], ConcAll(es, event, run)[i])
    decreases es, 0
  {
    if es != [] {
      AbsSound(es[0], event, run);
      AbsAllSound(es[1..], event, run);
    }
  }

  // ---- nothing is left undecided that a run could not change -----------------------------

  /** A run that fixes nothing but these comparisons and functions. */
  function BareRun(equal: iset<(Value, Value)>, functions: imap<(string, seq<Value>), Value>): Run {
    Run(imap[], imap[], functions, equal, iset{}, iset{})
  }

  /** A value `v` describes; an unknown one may be something that is neither text nor flag. */
  function Example(v: Val): (c: Value)
    ensures Describes(v, c)
  {
    match v
    case StrVal(s) => Text(s)
    case BoolVal(b) => Flag(b)
    case UnknownVal => Other(0)
  }

  /** Equality is decided exactly when every completion of the two values, in every run, gives that
      one answer. */
  lemma EqualIsBest(a: Val, b: Val, v: bool)
    ensures Equal(a, b) == Truth.Of(v) <==>
            forall c, d, run | Describes(a, c) && Describes(b, d) :: SameValue(c, d, run) == v
  {
    if Equal(a, b) != Truth.Of(v) {
      var c, d := Example(a), Example(b);
      var run := if v then BareRun(iset{}, imap[]) else BareRun(iset{(c, d)}, imap[]);
      assert SameValue(c, d, run) != v;
    }
  }

  ghost predicate DescribesAll(vs: seq<Val>, cs: seq<Value>) {
    |vs| == |cs| && forall i | 0 <= i < |vs| :: Describes(vs[i], cs[i])
  }

  /** A call is decided exactly when every completion of its arguments, in every run, gives that one
      answer. */
  lemma CallIsBest(name: string, vs: seq<Val>, v: bool)
    ensures CallVal(name, vs) == BoolVal(v) <==>
            forall cs, run | DescribesAll(vs, cs) :: Called(name, cs, run) == Flag(v)
  {
    if CallVal(name, vs) == BoolVal(v) {
      forall cs, run | DescribesAll(vs, cs) ensures Called(name, cs, run) == Flag(v) { CallSound(name, vs, cs, run); }
    } else {
      var cs := seq(|vs|, i requires 0 <= i < |vs| => Example(vs[i]));
      var run := BareRun(iset{}, imap[(name, cs) := Flag(!v)]);
      assert DescribesAll(vs, cs);
      CallOpen(name, vs, cs, run, v);
    }
  }

  /** An undecided call is what the run makes of it. */
  lemma CallOpen(name: string, vs: seq<Val>, cs: seq<Value>, run: Run, v: bool)
    requires |cs| == |vs| && (forall i | 0 <= i < |vs| :: cs[i] == Example(vs[i])) && CallVal(name, vs) != BoolVal(v)
    requires (name, cs) in run.functions && run.functions[(name, cs)] == Flag(!v)
    ensures Called(name, cs, run) != Flag(v)
  {
    if |vs| == 2 {
      assert cs[0] == Example(vs[0]) && cs[1] == Example(vs[1]);
      if vs[0].StrVal? && vs[1].StrVal? { ContainsMeans(vs[0].s, vs[1].s); }
    }
  }

  /** A literal, or the name of the event. */
  predicate IsText(e: Expr) { e.Str? || e == Path("github.event_name") }

  /** True, false, and whatever the connectives, the equality of two texts or of two flags, and the
      decidable built-ins on texts make of clear trees. */
  predicate IsFlag(e: Expr) {
    match e
    case Str(_) => false
    case Num(_) => false
    case Path(p) => p == "true" || p == "false"
    case Call(name, args) =>
      || (name == "always" && args == [])
      || ((name == "contains" || name == "startsWith" || name == "endsWith") && |args| == 2 && IsText(args[0]) && IsText(args[1]))
    case Not(x) => IsText(x) || IsFlag(x)
    case Cmp(op, l, r) => (op == Eq || op == Ne) && ((IsText(l) && IsText(r)) || (IsFlag(l) && IsFlag(r)))
    case And(l, r) => (IsText(l) || IsFlag(l)) && (IsText(r) || IsFlag(r))
    case Or(l, r) => (IsText(l) || IsFlag(l)) && (IsText(r) || IsFlag(r))
  }

  /** No numeral, no order, no other context and no other function: nothing a run could change. */
  predicate IsClear(e: Expr) { IsText(e) || IsFlag(e) }

  lemma {:induction false} ClearIsKnown(e: Expr, event: string)
    ensures IsText(e) ==> Abs(e, event).StrVal?
    ensures IsFlag(e) ==> Abs(e, event).BoolVal?
  {
    match e
    case Str(_) =>
    case Num(_) =>
    case Path(_) =>
    case Call(name, args) =>
      if IsFlag(e) && |args| == 2 {
        ClearIsKnown(args[0], event);
        ClearIsKnown(args[1], event);
        assert AbsAll(args, event)[0] == Abs(args[0], event);
        assert args[1..][0] == args[1] && AbsAll(args[1..], event)[0] == Abs(args[1], event);
        assert AbsAll(args, event)[1] == Abs(args[1], event);
      }
    case Not(x) =>
      ClearIsKnown(x, event);
      KnownDecides(Abs(x, event), Abs(x, event));
    case Cmp(op, l, r) =>
      ClearIsKnown(l, event);
      ClearIsKnown(r, event);
      EqualDecides(op, Abs(l, event), Abs(r, event));
    case And(l, r) =>
      ClearIsKnown(l, event);
      ClearIsKnown(r, event);
      KnownDecides(Abs(l, event), Abs(r, event));
    case Or(l, r) =>
      ClearIsKnown(l, event);
      ClearIsKnown(r, event);
      KnownDecides(Abs(l, event), Abs(r, event));
  }

  /** Connectives of known values are known. */
  lemma KnownDecides(a: Val, b: Val)
    ensures !a.UnknownVal? ==> FromTruth(TruthOf(a).Not()).BoolVal?
    ensures !a.UnknownVal? && !b.UnknownVal? ==>
            FromTruth(TruthOf(a).And(TruthOf(b))).BoolVal? && FromTruth(TruthOf(a).Or(TruthOf(b))).BoolVal?
  {
  }

  /** So is the equality of two known values of one shape. */
  lemma EqualDecides(op: CmpOp, a: Val, b: Val)
    ensures (op == Eq || op == Ne) && ((a.StrVal? && b.StrVal?) || (a.BoolVal? && b.BoolVal?)) ==> CmpVal(op, a, b).BoolVal?
  {
  }

  /** A clear tree is decided, and its truth is that of every run. */
  lemma ClearIsDecided(e: Expr, event: string, run: Run)
    requires IsClear(e)
    ensures TruthOf(Abs(e, event)) == Truth.Of(Truthy(Conc(e, event, run), run))
  {
    ClearIsKnown(e, event);
    AbsSound(e, event, run);
  }
}
