/** `eval_if` of `xtask/src/runners.rs`: from the raw text of an `if:` to a three-valued verdict. */
module Conditions {
  import opened Truths
  import opened Options
  import opened Text
  import opened Encoding
  import opened IfExpr
  import opened Grammar
  import opened Syntaxes
  import opened Readings
  import opened ExprParsing
  import opened Printer

  /** One whole `${{ … }}` wrapper taken off, or the text as it stands. */
  function Unwrapped(trimmed: string): string {
    if "${{" <= trimmed && EndsWith(trimmed[3..], "}}") then trimmed[3..|trimmed| - 2] else trimmed
  }

  /** The tree of a condition that is understood end to end. */
  function Understood(raw: string): Option<Expr> {
    UnderstoodInner(Unwrapped(Trim(raw)))
  }

  /** Anything that still carries `${{` is a mixed template. */
  function UnderstoodInner(inner: string): Option<Expr> {
    if Contains(inner, "${{") then None else Tree(Utf8(inner))
  }

  /** What `eval_if` answers. */
  function Verdict(raw: string, event: string): Truth {
    VerdictOf(Understood(raw), event)
  }

  function VerdictOf(tree: Option<Expr>, event: string): Truth {
    match tree
    case None => Unknown
    case Some(e) => TruthOf(Abs(e, event))
  }

  method EvalIf(raw: string, event: string) returns (t: Truth)
    ensures t == Verdict(raw, event)
  {
    var inner := Unwrapped(Trim(raw));
    if Contains(inner, "${{") { return Unknown; }
    var p := new ExprParser(Utf8(inner), event);
    var v := p.ParseExpr();
    if v == Err { return Unknown; }
    p.Skip();
    if p.pos != |p.src| { return Unknown; }
    t := TruthOf(v.value);
  }

  /** Only what is written in the language is decided: no text is understood in part. */
  lemma DecidedIsWritten(raw: string, event: string)
    requires Verdict(raw, event) != Unknown
    ensures var inner := Unwrapped(Trim(raw));
            !Contains(inner, "${{") && exists c :: Fits(c, 0) && TextOf(c) == Utf8(inner) && Verdict(raw, event) == TruthOf(Abs(TreeOf(c), event))
  {
    var s := Utf8(Unwrapped(Trim(raw)));
    ReadsExactly(s, Tree(s).value);
    var c :| Writes(c, 0, Tree(s).value, s);
  }

  // ---- soundness -------------------------------------------------------------------------

  /** Some run makes the condition true for `event`. A condition that is not understood may be
      true in any run. */
  ghost predicate CanHold(raw: string, event: string) {
    CanBe(Understood(raw), event, true)
  }

  ghost predicate CanBe(tree: Option<Expr>, event: string, truth: bool) {
    match tree
    case None => true
    case Some(e) => exists run: Run :: Truthy(Conc(e, event, run), run) == truth
  }

  /** A decided verdict is the verdict of every run. */
  lemma DecidedEverywhere(tree: Option<Expr>, event: string, truth: bool)
    requires VerdictOf(tree, event) == Truth.Of(!truth)
    ensures !CanBe(tree, event, truth)
  {
    var e := tree.value;
    forall run: Run ensures Truthy(Conc(e, event, run), run) != truth {
      AbsSound(e, event, run);
      DescribesTruth(Abs(e, event), Conc(e, event, run), run);
    }
  }

  /** The guard's direction: it calls a condition false only if no run makes it true. */
  lemma VerdictSound(raw: string, event: string)
    ensures Verdict(raw, event) == False ==> !CanHold(raw, event)
  {
    var tree := Understood(raw);
    if VerdictOf(tree, event) == False {
      DecidedEverywhere(tree, event, true);
    }
  }

  /** On clear trees the verdict is decided, and is the truth of every run: decided one way exactly
      when no run makes it the other. */
  lemma ClearVerdict(e: Expr, event: string, v: bool)
    requires IsClear(e)
    ensures VerdictOf(Some(e), event) != Unknown
    ensures VerdictOf(Some(e), event) == Truth.Of(v) <==> !CanBe(Some(e), event, !v)
  {
    var run := BareRun(iset{}, imap[]);
    ClearIsDecided(e, event, run);
    if VerdictOf(Some(e), event) == Truth.Of(v) { DecidedEverywhere(Some(e), event, !v); }
  }

  // ---- printed conditions ----------------------------------------------------------------

  /** The tree whose string literals are the UTF-8 bytes of `e`'s: what a parser that reads bytes
      as characters sees. */
  function Encoded(e: Expr): Expr
    decreases e, 1
  {
    match e
    case Str(t) => Str(Utf8(t))
    case Num(_) => e
    case Path(_) => e
    case Call(name, args) => Call(name, EncodedAll(args))
    case Not(x) => Not(Encoded(x))
    case Cmp(op, l, r) => Cmp(op, Encoded(l), Encoded(r))
    case And(l, r) => And(Encoded(l), Encoded(r))
    case Or(l, r) => Or(Encoded(l), Encoded(r))
  }

  function EncodedAll(es: seq<Expr>): (r: seq<Expr>)
    ensures |r| == |es| && forall i | 0 <= i < |es| :: r[i] == Encoded(es[i])
    decreases es, 0
  {
    if es == [] then [] else [Encoded(es[0])] + EncodedAll(es[1..])
  }

  predicate AsciiLiterals(e: Expr) {
    match e
    case Str(t) => IsAscii(t)
    case Num(_) => true
    case Path(_) => true
    case Call(_, args) => forall a | a in args :: AsciiLiterals(a)
    case Not(x) => AsciiLiterals(x)
    case Cmp(_, l, r) => AsciiLiterals(l) && AsciiLiterals(r)
    case And(l, r) => AsciiLiterals(l) && AsciiLiterals(r)
    case Or(l, r) => AsciiLiterals(l) && AsciiLiterals(r)
  }

  /** Reading bytes as characters changes no tree but one with a literal outside ASCII. */
  lemma {:induction false} EncodedSame(e: Expr)
    ensures Encoded(e) == e <==> AsciiLiterals(e)
  {
    match e
    case Str(t) => Utf8OfAscii(t);
    case Num(_) =>
    case Path(_) =>
    case Call(_, args) =>
      forall a | a in args ensures Encoded(a) == a <==> AsciiLiterals(a) { EncodedSame(a); }
      var es := Encoded(e).args;
      assert forall i | 0 <= i < |args| :: es[i] == Encoded(args[i]);
      if AsciiLiterals(e) { assert es == args; }
      if es == args {
        forall a | a in args ensures AsciiLiterals(a) {
          var i :| 0 <= i < |args| && args[i] == a;
          assert es[i] == a;
        }
      }
    case Not(x) => EncodedSame(x);
    case Cmp(_, l, r) => EncodedSame(l); EncodedSame(r);
    case And(l, r) => EncodedSame(l); EncodedSame(r);
    case Or(l, r) => EncodedSame(l); EncodedSame(r);
  }

  lemma {:induction false} EncodedWellFormed(e: Expr)
    requires WellFormed(e)
    ensures WellFormed(Encoded(e)) && Level(Encoded(e)) == Level(e)
  {
    match e
    case Str(_) =>
    case Num(_) =>
    case Path(_) =>
    case Call(_, args) =>
      forall a | a in args ensures WellFormed(Encoded(a)) { EncodedWellFormed(a); }
    case Not(x) => EncodedWellFormed(x);
    case Cmp(_, l, r) => EncodedWellFormed(l); EncodedWellFormed(r);
    case And(l, r) => EncodedWellFormed(l); EncodedWellFormed(r);
    case Or(l, r) => EncodedWellFormed(l); EncodedWellFormed(r);
  }

  lemma {:induction false} Utf8Doubled(t: string)
    ensures Utf8(Doubled(t)) == Doubled(Utf8(t))
  {
    if t != [] {
      Utf8Doubled(t[1..]);
      if t[0] == '\'' {
        Utf8Concat("''", Doubled(t[1..]));
        Utf8OfAscii("''");
        DoubledConcat("'", Utf8(t[1..]));
      } else {
        Utf8Concat([t[0]], Doubled(t[1..]));
        assert Utf8([t[0]]) == Utf8Char(t[0]);
        DoubledConcat(Utf8Char(t[0]), Utf8(t[1..]));
        NoQuoteDoubled(Utf8Char(t[0]));
      }
    }
  }

  lemma {:induction false} DoubledConcat(a: string, b: string)
    ensures Doubled(a + b) == Doubled(a) + Doubled(b)
  {
    if a == [] {
      assert a + b == b;
    } else {
      DoubledConcat(a[1..], b);
      assert (a + b)[1..] == a[1..] + b && (a + b)[0] == a[0];
      var c := if a[0] == '\'' then "''" else [a[0]];
      assert Doubled(a + b) == c + Doubled(a[1..] + b);
      assert c + (Doubled(a[1..]) + Doubled(b)) == (c + Doubled(a[1..])) + Doubled(b);
    }
  }

  lemma {:induction false} NoQuoteDoubled(a: string)
    requires '\'' !in a
    ensures Doubled(a) == a
  {
    if a != [] {
      NoQuoteDoubled(a[1..]);
      assert a == [a[0]] + a[1..];
    }
  }

  lemma Utf8Triple(a: string, b: string, c: string)
    requires IsAscii(b)
    ensures Utf8(a + b + c) == Utf8(a) + b + Utf8(c)
  {
    Utf8Concat(a + b, c);
    Utf8Concat(a, b);
    Utf8OfAscii(b);
  }

  lemma Utf8Between(a: string, b: string, c: string)
    requires IsAscii(a) && IsAscii(c)
    ensures Utf8(a + b + c) == a + Utf8(b) + c
  {
    Utf8Concat(a + b, c);
    Utf8Concat(a, b);
    Utf8OfAscii(a);
    Utf8OfAscii(c);
  }

  /** The bytes of a printed tree are the print of the encoded tree. */
  lemma {:induction false} Utf8Print(e: Expr, level: nat)
    requires WellFormed(e)
    ensures Utf8(Print(e, level)) == Print(Encoded(e), level)
    decreases e, 2
  {
    Utf8Body(e);
    if Level(e) < level {
      Utf8Between("(", Body(e), ")");
    }
  }

  lemma {:induction false} Utf8Body(e: Expr)
    requires WellFormed(e)
    ensures Utf8(Body(e)) == Body(Encoded(e)) && Level(Encoded(e)) == Level(e)
    decreases e, 1
  {
    match e
    case Str(t) => Utf8Literal(t);
    case Num(d) => WordIsAscii(d); Utf8OfAscii(d);
    case Path(p) => WordIsAscii(p); Utf8OfAscii(p);
    case Call(name, args) => Utf8All(args); Utf8Call(name, PrintAll(args));
    case Not(x) => Utf8Print(x, 3); Utf8Bang(Print(x, 3));
    case Cmp(op, l, r) => Utf8Infix(e, l, 3, OpText(op), r, 3);
    case And(l, r) => Utf8Infix(e, l, 1, "&&", r, 2);
    case Or(l, r) => Utf8Infix(e, l, 0, "||", r, 1);
  }

  lemma WordIsAscii(t: string)
    requires IsPath(t) || IsNumeral(t)
    ensures IsAscii(t) && IsPathChar(t[|t| - 1])
  {
    assert forall i | 0 <= i < |t| :: t[i] in t;
  }

  lemma Utf8Literal(t: string)
    ensures Utf8("'" + Doubled(t) + "'") == "'" + Doubled(Utf8(t)) + "'"
  {
    Utf8Doubled(t);
    Utf8Between("'", Doubled(t), "'");
  }

  lemma Utf8Call(name: string, args: string)
    requires IsPath(name)
    ensures Utf8(name + "(" + args + ")") == name + "(" + Utf8(args) + ")"
  {
    WordIsAscii(name);
    Utf8Between(name + "(", args, ")");
  }

  lemma Utf8Bang(t: string)
    ensures Utf8("!" + t) == "!" + Utf8(t)
  {
    Utf8Concat("!", t);
    Utf8OfAscii("!");
  }

  lemma {:induction false} Utf8Infix(whole: Expr, l: Expr, i: nat, tok: string, r: Expr, j: nat)
    requires l < whole && r < whole && WellFormed(l) && WellFormed(r) && IsAscii(tok)
    ensures Utf8(Print(l, i) + Spaced(tok) + Print(r, j))
         == Print(Encoded(l), i) + Spaced(tok) + Print(Encoded(r), j)
    decreases whole, 0
  {
    Utf8Print(l, i);
    Utf8Print(r, j);
    Utf8Triple(Print(l, i), Spaced(tok), Print(r, j));
  }

  lemma {:induction false} Utf8All(es: seq<Expr>)
    requires forall e | e in es :: WellFormed(e)
    ensures Utf8(PrintAll(es)) == PrintAll(EncodedAll(es))
    decreases es, 0
  {
    if es != [] {
      Utf8Print(es[0], 0);
      if |es| > 1 {
        Utf8All(es[1..]);
        Utf8Triple(Print(es[0], 0), ", ", PrintAll(es[1..]));
        assert EncodedAll(es)[1..] == EncodedAll(es[1..]);
      }
    }
  }

  /** A printed tree ends with a byte of its own, as it starts with one. */
  lemma {:induction false} EndsWell(e: Expr, level: nat)
    requires WellFormed(e)
    ensures var t := Print(e, level); t != [] && !IsWhitespace(t[|t| - 1]) && t[|t| - 1] != '}'
    decreases e
  {
    if Level(e) >= level {
      match e
      case Not(x) => EndsWell(x, 3);
      case Cmp(_, _, r) => EndsWell(r, 3);
      case And(_, r) => EndsWell(r, 2);
      case Or(_, r) => EndsWell(r, 1);
      case Num(d) => WordIsAscii(d);
      case Path(p) => WordIsAscii(p);
      case _ =>
    }
  }

  lemma ReadWhole(e: Expr)
    requires WellFormed(e)
    ensures Tree(Print(e, 0)) == Some(e)
  {
    PrintedWrites(e, 0);
    ReadsExactly(Print(e, 0), e);
  }

  lemma TrimNothing(t: string)
    requires t != [] && !IsWhitespace(t[0]) && !IsWhitespace(t[|t| - 1])
    ensures Trim(t) == t
  {
  }

  lemma UnwrapNothing(t: string)
    requires t != [] && t[0] != '$'
    ensures Unwrapped(t) == t
  {
  }

  lemma UnwrapWrapped(t: string)
    ensures Unwrapped(Trim("${{" + t + "}}")) == t
  {
    var w := "${{" + t + "}}";
    TrimNothing(w);
    assert w[3..] == t + "}}";
  }

  /** The bare text and the wrapped one come to the same. */
  lemma PrintedUnwraps(t: string)
    requires t != [] && t[0] != '$' && !IsWhitespace(t[0]) && !IsWhitespace(t[|t| - 1])
    ensures Understood(t) == UnderstoodInner(t)
    ensures Understood("${{" + t + "}}") == UnderstoodInner(t)
  {
    TrimNothing(t);
    UnwrapNothing(t);
    UnwrapWrapped(t);
  }

  /** Round trip: every tree, printed bare or in the expression wrapper, is understood as itself
      (its literals as bytes), unless its text holds the one thing the guard refuses to read. */
  lemma PrintedUnderstood(e: Expr)
    requires WellFormed(e)
    ensures var t := Print(e, 0);
            Understood(t) == Understood("${{" + t + "}}") == if Contains(t, "${{") then None else Some(Encoded(e))
  {
    StartsWell(e, 0);
    EndsWell(e, 0);
    PrintedUnwraps(Print(e, 0));
    PrintedInner(e);
  }

  lemma PrintedInner(e: Expr)
    requires WellFormed(e)
    ensures UnderstoodInner(Print(e, 0)) == if Contains(Print(e, 0), "${{") then None else Some(Encoded(e))
  {
    PrintedTree(e);
  }

  lemma PrintedTree(e: Expr)
    requires WellFormed(e)
    ensures Tree(Utf8(Print(e, 0))) == Some(Encoded(e))
  {
    EncodedWellFormed(e);
    Utf8Print(e, 0);
    ReadWhole(Encoded(e));
  }

  // ---- with space around it --------------------------------------------------------------

  predicate AsciiSpace(s: string) { AllSpace(s) && IsAscii(s) }

  /** A printed tree is read with any space before and after it. */
  lemma ReadSurrounded(e: Expr, b: string, c: string)
    requires WellFormed(e) && AsciiSpace(b) && AsciiSpace(c)
    ensures Tree(b + Print(e, 0) + c) == Some(e)
  {
    PrintedWrites(e, 0);
    LedWrites(Printed(e, 0), 0, e, Print(e, 0), b);
    TrailedWrites(Led(Printed(e, 0), b), 0, e, b + Print(e, 0), c);
    ReadsExactly(b + Print(e, 0) + c, e);
  }

  lemma Utf8Surrounded(b: string, t: string, c: string)
    requires IsAscii(b) && IsAscii(c)
    ensures Utf8(b + t + c) == b + Utf8(t) + c
  {
    Utf8Between(b, t, c);
  }

  /** Space around a text adds no template to it. */
  lemma TemplateSurrounded(b: string, t: string, c: string)
    requires AllSpace(b) && AllSpace(c)
    ensures Contains(b + t + c, "${{") <==> Contains(t, "${{")
  {
    var s := b + t + c;
    ContainsMeans(s, "${{");
    ContainsMeans(t, "${{");
    if i :| 0 <= i <= |t| && "${{" <= t[i..] {
      assert s[|b| + i..] == t[i..] + c;
      assert "${{" <= s[|b| + i..];
    }
    if i :| 0 <= i <= |s| && "${{" <= s[i..] { TemplateInside(b, t, c, i); }
  }

  lemma TemplateInside(b: string, t: string, c: string, i: nat)
    requires AllSpace(b) && AllSpace(c) && i <= |b + t + c| && "${{" <= (b + t + c)[i..]
    ensures exists k :: 0 <= k <= |t| && "${{" <= t[k..]
  {
    var s := b + t + c;
    assert s[i] == s[i..][0] == "${{"[0] && s[i + 1] == s[i..][1] == "${{"[1] && s[i + 2] == s[i..][2] == "${{"[2];
    assert forall k | 0 <= k < |b| :: s[k] == b[k];
    assert forall k | |b| + |t| <= k < |s| :: s[k] == c[k - |b| - |t|];
    assert |b| <= i && i + 2 < |b| + |t|;
    var k := i - |b|;
    assert t[k] == s[i] && t[k + 1] == s[i + 1] && t[k + 2] == s[i + 2];
    assert t[k..][0] == t[k] && t[k..][1] == t[k + 1] && t[k..][2] == t[k + 2];
    assert "${{" <= t[k..];
  }

  /** Neither the wrapper nor space at the ends. */
  predicate FirmEnds(t: string) {
    t != [] && t[0] != '$' && !IsWhitespace(t[0]) && !IsWhitespace(t[|t| - 1])
  }

  /** Space around a bare text, and around and inside a wrapped one. */
  lemma SpacedOut(t: string, a: string, b: string, c: string, d: string)
    requires FirmEnds(t) && AllSpace(a) && AllSpace(d)
    ensures Understood(a + t + d) == UnderstoodInner(t)
    ensures Understood(a + ("${{" + (b + t + c) + "}}") + d) == UnderstoodInner(b + t + c)
  {
    TrimJoin(a, t, d);
    UnwrapNothing(t);
    SpacedWrapper(a, b + t + c, d);
  }

  lemma SpacedWrapper(a: string, mid: string, d: string)
    requires AllSpace(a) && AllSpace(d)
    ensures Understood(a + ("${{" + mid + "}}") + d) == UnderstoodInner(mid)
  {
    var core := "${{" + mid + "}}";
    assert core[0] == '$' && core[|core| - 1] == '}';
    TrimJoin(a, core, d);
    Unwraps(mid);
  }

  /** Round trip with space: any whitespace around the condition or its wrapper, and any ASCII space
      inside the wrapper, change nothing. */
  lemma PrintedAnywhere(e: Expr, a: string, b: string, c: string, d: string)
    requires WellFormed(e) && AllSpace(a) && AllSpace(d) && AsciiSpace(b) && AsciiSpace(c)
    ensures var t := Print(e, 0); var r := if Contains(t, "${{") then None else Some(Encoded(e));
            Understood(a + t + d) == r && Understood(a + ("${{" + (b + t + c) + "}}") + d) == r
  {
    PrintedEnds(e);
    PrintedInner(e);
    SurroundedInner(e, b, c);
    ReadSpacedOut(Print(e, 0), UnderstoodInner(Print(e, 0)), a, b, c, d);
  }

  lemma PrintedEnds(e: Expr)
    requires WellFormed(e)
    ensures FirmEnds(Print(e, 0))
  {
    StartsWell(e, 0);
    EndsWell(e, 0);
  }

  lemma ReadSpacedOut(t: string, r: Option<Expr>, a: string, b: string, c: string, d: string)
    requires FirmEnds(t) && AllSpace(a) && AllSpace(d) && UnderstoodInner(t) == r && UnderstoodInner(b + t + c) == r
    ensures Understood(a + t + d) == r && Understood(a + ("${{" + (b + t + c) + "}}") + d) == r
  {
    SpacedOut(t, a, b, c, d);
  }

  lemma Unwraps(mid: string)
    ensures Unwrapped("${{" + mid + "}}") == mid
  {
    UnwrapWrapped(mid);
    TrimNothing("${{" + mid + "}}");
  }

  lemma SurroundedInner(e: Expr, b: string, c: string)
    requires WellFormed(e) && AsciiSpace(b) && AsciiSpace(c)
    ensures UnderstoodInner(b + Print(e, 0) + c) == if Contains(Print(e, 0), "${{") then None else Some(Encoded(e))
  {
    var t := Print(e, 0);
    TemplateSurrounded(b, t, c);
    Utf8Surrounded(b, t, c);
    EncodedWellFormed(e);
    Utf8Print(e, 0);
    ReadSurrounded(Encoded(e), b, c);
  }

  // ---- reading bytes changes no verdict --------------------------------------------------

  /** The value whose text is the UTF-8 bytes of `v`'s. */
  function EncodedVal(v: Val): Val {
    if v.StrVal? then StrVal(Utf8(v.s)) else v
  }

  lemma CallEncoded(name: string, vs: seq<Val>, es: seq<Val>)
    requires |es| == |vs| && forall i | 0 <= i < |vs| :: es[i] == EncodedVal(vs[i])
    ensures CallVal(name, es) == EncodedVal(CallVal(name, vs))
  {
    if |vs| == 2 && vs[0].StrVal? && vs[1].StrVal? {
      assert es[0] == EncodedVal(vs[0]) && es[1] == EncodedVal(vs[1]);
      ContainsKept(vs[0].s, vs[1].s);
      PrefixKept(vs[1].s, vs[0].s);
      SuffixKept(vs[0].s, vs[1].s);
    }
  }

  lemma EqualEncoded(a: Val, b: Val)
    ensures Equal(EncodedVal(a), EncodedVal(b)) == Equal(a, b)
  {
    if a.StrVal? && b.StrVal? { EqualKept(a.s, b.s); }
  }

  lemma TruthEncoded(v: Val)
    ensures TruthOf(EncodedVal(v)) == TruthOf(v)
  {
    if v.StrVal? { EqualKept(v.s, ""); }
  }

  lemma PathEncoded(path: string, event: string)
    requires IsAscii(event)
    ensures PathVal(path, event) == EncodedVal(PathVal(path, event))
  {
    Utf8OfAscii(event);
  }

  /** For an event in ASCII the encoded tree means what the tree means, encoded. */
  lemma {:induction false} AbsEncoded(e: Expr, event: string)
    requires IsAscii(event)
    ensures Abs(Encoded(e), event) == EncodedVal(Abs(e, event))
    decreases e, 1
  {
    match e
    case Str(_) =>
    case Num(_) =>
    case Path(p) => PathEncoded(p, event);
    case Call(name, args) =>
      AbsAllEncoded(args, event);
      CallEncoded(name, AbsAll(args, event), AbsAll(EncodedAll(args), event));
    case Not(x) => AbsEncoded(x, event); TruthEncoded(Abs(x, event));
    case Cmp(_, l, r) => AbsEncoded(l, event); AbsEncoded(r, event); EqualEncoded(Abs(l, event), Abs(r, event));
    case And(l, r) => BothEncoded(e, l, r, event);
    case Or(l, r) => BothEncoded(e, l, r, event);
  }

  lemma {:induction false} BothEncoded(whole: Expr, l: Expr, r: Expr, event: string)
    requires IsAscii(event) && l < whole && r < whole
    ensures TruthOf(Abs(Encoded(l), event)) == TruthOf(Abs(l, event)) && TruthOf(Abs(Encoded(r), event)) == TruthOf(Abs(r, event))
    decreases whole, 0
  {
    AbsEncoded(l, event);
    AbsEncoded(r, event);
    TruthEncoded(Abs(l, event));
    TruthEncoded(Abs(r, event));
  }

  lemma {:induction false} AbsAllEncoded(es: seq<Expr>, event: string)
    requires IsAscii(event)
    ensures forall i | 0 <= i < |es| :: AbsAll(EncodedAll(es), event)[i] == EncodedVal(AbsAll(es, event)[i])
    decreases es, 0
  {
    if es != [] {
      AbsEncoded(es[0], event);
      AbsAllEncoded(es[1..], event);
      assert EncodedAll(es)[1..] == EncodedAll(es[1..]);
    }
  }

  /** Every printed condition, whatever its literals, gets the verdict of its tree for every event in
      ASCII, and for every event if its literals are: unless the guard refuses to read it, and then
      it is unknown. */
  lemma PrintedVerdict(e: Expr, event: string)
    requires WellFormed(e) && (IsAscii(event) || AsciiLiterals(e))
    ensures var t := Print(e, 0);
            Verdict(t, event) == Verdict("${{" + t + "}}", event) == if Contains(t, "${{") then Unknown else TruthOf(Abs(e, event))
  {
    PrintedUnderstood(e);
    if IsAscii(event) {
      AbsEncoded(e, event);
      TruthEncoded(Abs(e, event));
    } else {
      EncodedSame(e);
    }
  }

  /** So every printed clear condition gets the truth it has in every run. */
  lemma PrintedClear(e: Expr, event: string, run: Run)
    requires WellFormed(e) && IsClear(e) && (IsAscii(event) || AsciiLiterals(e)) && !Contains(Print(e, 0), "${{")
    ensures Verdict(Print(e, 0), event) == Truth.Of(Truthy(Conc(e, event, run), run))
  {
    PrintedVerdict(e, event);
    ClearIsDecided(e, event, run);
  }
}
