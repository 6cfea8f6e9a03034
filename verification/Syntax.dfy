/** What the condition language is, without a reader: the concrete syntax, with its space and its
    parentheses. The reader accepts exactly the texts of the language, and returns the tree that they
    stand for. */
module Syntaxes {
  import opened Text
  import opened IfExpr
  import opened Grammar

  // ---- the words of the language ---------------------------------------------------------

  predicate Blanks(t: string) { forall c | c in t :: IsSpaceByte(c) }

  predicate IsPath(p: string) {
    && p != [] && ('a' <= p[0] <= 'z' || 'A' <= p[0] <= 'Z' || p[0] == '_')
    && forall c | c in p :: 'a' <= c <= 'z' || 'A' <= c <= 'Z' || '0' <= c <= '9' || c == '_' || c == '-' || c == '.'
  }

  predicate IsNumeral(d: string) {
    d != [] && '0' <= d[0] <= '9' && forall c | c in d :: '0' <= c <= '9' || c == '.'
  }

  /** A literal doubles its quotes. */
  function Doubled(t: string): string {
    if t == [] then [] else (if t[0] == '\'' then "''" else [t[0]]) + Doubled(t[1..])
  }

  function OpText(op: CmpOp): string {
    match op
    case Eq => "=="
    case Ne => "!="
    case Le => "<="
    case Ge => ">="
    case Lt => "<"
    case Gt => ">"
  }

  // ---- the language ----------------------------------------------------------------------

  datatype Connector = OrSign | AndSign | CmpSign(op: CmpOp)

  datatype Syntax =
    | Word(before: string, word: Expr, after: string)
    | Parens(before: string, inside: Syntax, after: string)
    | Applied(before: string, name: string, gap: string, args: seq<Syntax>, blank: string, after: string)
    | Bang(before: string, operand: Syntax)
    | Infix(left: Syntax, sign: Connector, right: Syntax)

  function Sign(c: Connector): (t: string)
    ensures 1 <= |t| <= 2
  {
    match c
    case OrSign => "||"
    case AndSign => "&&"
    case CmpSign(op) => OpText(op)
  }

  function WordText(e: Expr): string {
    match e
    case Str(t) => "'" + Doubled(t) + "'"
    case Num(d) => d
    case Path(p) => p
    case _ => ""
  }

  function TextOf(c: Syntax): string
    decreases c, 1
  {
    match c
    case Word(before, word, after) => before + WordText(word) + after
    case Parens(before, inside, after) => before + ("(" + TextOf(inside) + ")") + after
    case Applied(before, name, gap, args, blank, after) =>
      before + (name + gap + "(" + (if args == [] then blank else ArgsText(args)) + ")") + after
    case Bang(before, operand) => before + "!" + TextOf(operand)
    case Infix(left, sign, right) => TextOf(left) + Sign(sign) + TextOf(right)
  }

  function ArgsText(args: seq<Syntax>): string
    requires args != []
    decreases args, 0
  {
    if |args| == 1 then TextOf(args[0]) else TextOf(args[0]) + "," + ArgsText(args[1..])
  }

  function TreeOf(c: Syntax): Expr
    decreases c, 1
  {
    match c
    case Word(_, word, _) => word
    case Parens(_, inside, _) => TreeOf(inside)
    case Applied(_, name, _, args, _, _) => Call(name, TreesOf(args))
    case Bang(_, operand) => Not(TreeOf(operand))
    case Infix(left, OrSign, right) => Or(TreeOf(left), TreeOf(right))
    case Infix(left, AndSign, right) => And(TreeOf(left), TreeOf(right))
    case Infix(left, CmpSign(op), right) => Cmp(op, TreeOf(left), TreeOf(right))
  }

  function TreesOf(cs: seq<Syntax>): seq<Expr>
    decreases cs, 0
  {
    if cs == [] then [] else [TreeOf(cs[0])] + TreesOf(cs[1..])
  }

  predicate IsWord(e: Expr) { e.Str? || (e.Num? && IsNumeral(e.digits)) || (e.Path? && IsPath(e.path)) }

  /** What may stand where a construct binding at least as tightly as `level` is expected: or, and,
      comparison, not, atom. Or and and associate to the left, a comparison does not chain. */
  predicate Fits(c: Syntax, level: nat) {
    match c
    case Word(before, word, after) => Blanks(before) && Blanks(after) && IsWord(word)
    case Parens(before, inside, after) => Blanks(before) && Blanks(after) && Fits(inside, 0)
    case Applied(before, name, gap, args, blank, after) =>
      && Blanks(before) && Blanks(after) && Blanks(gap) && Blanks(blank) && IsPath(name) && forall a | a in args :: Fits(a, 0)
    case Bang(before, operand) => level <= 3 && Blanks(before) && Fits(operand, 3)
    case Infix(left, OrSign, right) => level <= 0 && Fits(left, 0) && Fits(right, 1)
    case Infix(left, AndSign, right) => level <= 1 && Fits(left, 1) && Fits(right, 2)
    case Infix(left, CmpSign(_), right) => level <= 2 && Fits(left, 3) && Fits(right, 3)
  }

  /** `c` is a way to write `e`, with this text. */
  predicate Writes(c: Syntax, level: nat, e: Expr, t: string) { Fits(c, level) && TreeOf(c) == e && TextOf(c) == t }

  // ---- what is read is in the language ---------------------------------------------------

  lemma FitsLooser(c: Syntax, level: nat, looser: nat)
    requires Fits(c, level) && looser <= level
    ensures Fits(c, looser)
  {
  }

  function Trailed(c: Syntax, more: string): Syntax {
    match c
    case Word(before, word, after) => Word(before, word, after + more)
    case Parens(before, inside, after) => Parens(before, inside, after + more)
    case Applied(before, name, gap, args, blank, after) => Applied(before, name, gap, args, blank, after + more)
    case Bang(before, operand) => Bang(before, Trailed(operand, more))
    case Infix(left, sign, right) => Infix(left, sign, Trailed(right, more))
  }

  /** More space at the end is part of the syntax. */
  lemma {:induction false} TrailedWrites(c: Syntax, level: nat, e: Expr, t: string, more: string)
    requires Writes(c, level, e, t) && Blanks(more)
    ensures Writes(Trailed(c, more), level, e, t + more)
    decreases c
  {
    match c
    case Word(before, word, after) => assert before + WordText(word) + (after + more) == before + WordText(word) + after + more;
    case Parens(before, inside, after) =>
      Associate(before + ("(" + TextOf(inside) + ")"), after, more);
    case Applied(before, name, gap, args, blank, after) =>
      Associate(before + (name + gap + "(" + (if args == [] then blank else ArgsText(args)) + ")"), after, more);
    case Bang(before, operand) =>
      TrailedWrites(operand, 3, TreeOf(operand), TextOf(operand), more);
      Associate(before + "!", TextOf(operand), more);
    case Infix(left, sign, right) =>
      var n := if sign.OrSign? then 1 else if sign.AndSign? then 2 else 3;
      TrailedWrites(right, n, TreeOf(right), TextOf(right), more);
      Associate(TextOf(left) + Sign(sign), TextOf(right), more);
  }

  function Led(c: Syntax, more: string): Syntax {
    match c
    case Word(before, word, after) => Word(more + before, word, after)
    case Parens(before, inside, after) => Parens(more + before, inside, after)
    case Applied(before, name, gap, args, blank, after) => Applied(more + before, name, gap, args, blank, after)
    case Bang(before, operand) => Bang(more + before, operand)
    case Infix(left, sign, right) => Infix(Led(left, more), sign, right)
  }

  /** And so is more space at the start. */
  lemma {:induction false} LedWrites(c: Syntax, level: nat, e: Expr, t: string, more: string)
    requires Writes(c, level, e, t) && Blanks(more)
    ensures Writes(Led(c, more), level, e, more + t)
    decreases c
  {
    match c
    case Word(before, word, after) => AssociateAll(more, before, WordText(word), after);
    case Parens(before, inside, after) => AssociateAll(more, before, "(" + TextOf(inside) + ")", after);
    case Applied(before, name, gap, args, blank, after) =>
      AssociateAll(more, before, name + gap + "(" + (if args == [] then blank else ArgsText(args)) + ")", after);
    case Bang(before, operand) => AssociateAll(more, before, "!", TextOf(operand));
    case Infix(left, sign, right) =>
      var n := if sign.OrSign? then 0 else if sign.AndSign? then 1 else 3;
      LedWrites(left, n, TreeOf(left), TextOf(left), more);
      AssociateAll(more, TextOf(left), Sign(sign), TextOf(right));
  }

  lemma AssociateAll(w: string, x: string, y: string, z: string)
    ensures (w + x) + y + z == w + (x + y + z)
  {
  }

  lemma Associate(x: string, y: string, z: string)
    ensures x + (y + z) == (x + y) + z
  {
  }

  lemma {:induction false} SkipsBlanks(s: string, i: nat)
    requires i <= |s|
    ensures Blanks(s[i..SkipWs(s, i)])
    decreases |s| - i
  {
    if i < |s| && IsSpaceByte(s[i]) {
      SkipsBlanks(s, i + 1);
      assert s[i..SkipWs(s, i)] == [s[i]] + s[i + 1..SkipWs(s, i)];
    }
  }

  lemma Cut(s: string, i: nat, k: nat, j: nat)
    requires i <= k <= j <= |s|
    ensures s[i..j] == s[i..k] + s[k..j]
  {
  }

  lemma TokenCut(s: string, i: nat, tok: string, k: nat)
    requires i <= |s| && 1 <= |tok| <= 2 && Peek(s, i, tok) && k == SkipWs(s, i)
    ensures k + |tok| == After(s, i, tok) && s[k..k + |tok|] == tok
  {
  }

  /** `c` is a way to write what `p` read from `i` on. */
  predicate Explains(c: Syntax, level: nat, p: Parse<Expr>, s: string, i: nat) {
    p.Done? && i <= p.end <= |s| && Writes(c, level, p.tree, s[i..p.end])
  }

  lemma TrailedExplains(c: Syntax, level: nat, e: Expr, s: string, h: nat, i: nat)
    requires h <= i <= |s| && Writes(c, level, e, s[h..i])
    ensures Writes(Trailed(c, s[i..SkipWs(s, i)]), level, e, s[h..SkipWs(s, i)])
  {
    SkipsBlanks(s, i);
    TrailedWrites(c, level, e, s[h..i], s[i..SkipWs(s, i)]);
    Cut(s, h, i, SkipWs(s, i));
  }

  /** Two ways to write, joined by a sign. */
  lemma Joined(l: Syntax, left: nat, a: Expr, sign: Connector, r: Syntax, right: nat, b: Expr, both: Expr, s: string, h: nat, k: nat, m: nat, j: nat)
    returns (c: Syntax)
    requires h <= k <= m <= j <= |s| && s[k..m] == Sign(sign)
    requires Writes(l, left, a, s[h..k]) && Writes(r, right, b, s[m..j])
    requires match sign
             case OrSign => left == 0 && right == 1 && both == Or(a, b)
             case AndSign => left == 1 && right == 2 && both == And(a, b)
             case CmpSign(op) => left == 3 && right == 3 && both == Cmp(op, a, b)
    ensures Writes(c, if sign.OrSign? then 0 else if sign.AndSign? then 1 else 2, both, s[h..j])
  {
    c := Infix(l, sign, r);
    Cut(s, h, k, j);
    Cut(s, k, m, j);
    Associate(s[h..k], s[k..m], s[m..j]);
  }

  lemma {:induction false} OrExplained(s: string, i: nat) returns (c: Syntax)
    requires i <= |s| && ParseOr(s, i).Done?
    ensures Explains(c, 0, ParseOr(s, i), s, i)
    decreases |s| - i, 9
  {
    c := AndExplained(s, i);
    FitsLooser(c, 1, 0);
    c := OrTailExplained(c, ParseAnd(s, i).tree, s, i, ParseAnd(s, i).end);
  }

  lemma {:induction false} OrTailExplained(l: Syntax, e: Expr, s: string, h: nat, i: nat) returns (c: Syntax)
    requires h <= i <= |s| && Writes(l, 0, e, s[h..i]) && OrTail(e, s, i).Done?
    ensures Explains(c, 0, OrTail(e, s, i), s, h)
    decreases |s| - i, 8
  {
    var k := SkipWs(s, i);
    c := Trailed(l, s[i..k]);
    TrailedExplains(l, 0, e, s, h, i);
    if Peek(s, i, "||") {
      var p := NextDisjunct(e, s, i, k);
      var r := AndExplained(s, k + 2);
      c := Joined(c, 0, e, OrSign, r, 1, p.tree, Or(e, p.tree), s, h, k, k + 2, p.end);
      c := OrTailExplained(c, Or(e, p.tree), s, h, p.end);
    }
  }

  lemma NextDisjunct(e: Expr, s: string, i: nat, k: nat) returns (p: Parse<Expr>)
    requires i <= |s| && OrTail(e, s, i).Done? && Peek(s, i, "||") && k == SkipWs(s, i)
    ensures i + 2 <= k + 2 <= |s| && s[k..k + 2] == "||"
    ensures p == ParseAnd(s, k + 2) && p.Done? && OrTail(e, s, i) == OrTail(Or(e, p.tree), s, p.end)
  {
    TokenCut(s, i, "||", k);
    p := ParseAnd(s, k + 2);
  }

  lemma {:induction false} AndExplained(s: string, i: nat) returns (c: Syntax)
    requires i <= |s| && ParseAnd(s, i).Done?
    ensures Explains(c, 1, ParseAnd(s, i), s, i)
    decreases |s| - i, 7
  {
    c := CmpExplained(s, i);
    FitsLooser(c, 2, 1);
    c := AndTailExplained(c, ParseCmp(s, i).tree, s, i, ParseCmp(s, i).end);
  }

  lemma {:induction false} AndTailExplained(l: Syntax, e: Expr, s: string, h: nat, i: nat) returns (c: Syntax)
    requires h <= i <= |s| && Writes(l, 1, e, s[h..i]) && AndTail(e, s, i).Done?
    ensures Explains(c, 1, AndTail(e, s, i), s, h)
    decreases |s| - i, 6
  {
    var k := SkipWs(s, i);
    c := Trailed(l, s[i..k]);
    TrailedExplains(l, 1, e, s, h, i);
    if Peek(s, i, "&&") {
      var p := NextConjunct(e, s, i, k);
      var r := CmpExplained(s, k + 2);
      c := Joined(c, 1, e, AndSign, r, 2, p.tree, And(e, p.tree), s, h, k, k + 2, p.end);
      c := AndTailExplained(c, And(e, p.tree), s, h, p.end);
    }
  }

  lemma NextConjunct(e: Expr, s: string, i: nat, k: nat) returns (p: Parse<Expr>)
    requires i <= |s| && AndTail(e, s, i).Done? && Peek(s, i, "&&") && k == SkipWs(s, i)
    ensures i + 2 <= k + 2 <= |s| && s[k..k + 2] == "&&"
    ensures p == ParseCmp(s, k + 2) && p.Done? && AndTail(e, s, i) == AndTail(And(e, p.tree), s, p.end)
  {
    TokenCut(s, i, "&&", k);
    p := ParseCmp(s, k + 2);
  }

  lemma {:induction false} CmpExplained(s: string, i: nat) returns (c: Syntax)
    requires i <= |s| && ParseCmp(s, i).Done?
    ensures Explains(c, 2, ParseCmp(s, i), s, i)
    decreases |s| - i, 5
  {
    c := UnaryExplained(s, i);
    c := CmpTailExplained(c, ParseUnary(s, i).tree, s, i, ParseUnary(s, i).end);
  }

  lemma {:induction false} CmpTailExplained(l: Syntax, e: Expr, s: string, h: nat, i: nat) returns (c: Syntax)
    requires h <= i <= |s| && Writes(l, 3, e, s[h..i]) && CmpTail(e, s, i).Done?
    ensures Explains(c, 2, CmpTail(e, s, i), s, h)
    decreases |s| - i, 5
  {
    var k := SkipWs(s, i);
    c := Trailed(l, s[i..k]);
    TrailedExplains(l, 3, e, s, h, i);
    if CmpAt(s, i).0 == "" {
      FitsLooser(c, 3, 2);
    } else {
      var (tok, op) := CmpAt(s, i);
      var p := RightOperand(e, s, i, k, tok, op);
      var r := UnaryExplained(s, k + |tok|);
      c := Joined(c, 3, e, CmpSign(op), r, 3, p.tree, Cmp(op, e, p.tree), s, h, k, k + |tok|, p.end);
    }
  }

  lemma RightOperand(e: Expr, s: string, i: nat, k: nat, tok: string, op: CmpOp) returns (p: Parse<Expr>)
    requires i <= |s| && CmpTail(e, s, i).Done? && CmpAt(s, i) == (tok, op) && tok != "" && k == SkipWs(s, i)
    ensures k + |tok| <= |s| && s[k..k + |tok|] == tok && tok == OpText(op)
    ensures p == ParseUnary(s, k + |tok|) && p.Done? && CmpTail(e, s, i) == Done(Cmp(op, e, p.tree), p.end)
  {
    TokenCut(s, i, tok, k);
    p := ParseUnary(s, k + |tok|);
  }

  lemma {:induction false} UnaryExplained(s: string, i: nat) returns (c: Syntax)
    requires i <= |s| && ParseUnary(s, i).Done?
    ensures Explains(c, 3, ParseUnary(s, i), s, i)
    decreases |s| - i, 4
  {
    if Peek(s, i, "!") && !Peek(s, i, "!=") {
      var k := SkipWs(s, i);
      var p := Negated(s, i, k);
      SkipsBlanks(s, i);
      var x := UnaryExplained(s, k + 1);
      c := Bang(s[i..k], x);
      BangWrites(x, p.tree, s, i, k, p.end);
    } else {
      c := PrimaryExplained(s, i);
      FitsLooser(c, 4, 3);
    }
  }

  lemma Negated(s: string, i: nat, k: nat) returns (p: Parse<Expr>)
    requires i <= |s| && ParseUnary(s, i).Done? && Peek(s, i, "!") && !Peek(s, i, "!=") && k == SkipWs(s, i)
    ensures i < k + 1 <= |s| && s[k..k + 1] == "!"
    ensures p == ParseUnary(s, k + 1) && p.Done? && ParseUnary(s, i) == Done(Not(p.tree), p.end)
  {
    TokenCut(s, i, "!", k);
    p := ParseUnary(s, k + 1);
  }

  lemma BangWrites(x: Syntax, e: Expr, s: string, i: nat, k: nat, end: nat)
    requires i <= k < end <= |s| && Blanks(s[i..k]) && s[k..k + 1] == "!" && Writes(x, 3, e, s[k + 1..end])
    ensures Writes(Bang(s[i..k], x), 3, Not(e), s[i..end])
  {
    Cut(s, i, k, end);
    assert s[k..end] == "!" + s[k + 1..end];
    Associate(s[i..k], "!", s[k + 1..end]);
  }

  lemma WordWrites(s: string, i: nat, t: nat, j: nat, e: Expr)
    requires i <= t <= j <= |s| && Blanks(s[i..t]) && IsWord(e) && WordText(e) == s[t..j]
    ensures Writes(Word(s[i..t], e, ""), 4, e, s[i..j])
  {
    Cut(s, i, t, j);
    assert s[i..t] + s[t..j] + "" == s[i..j];
  }

  lemma {:induction false} PrimaryExplained(s: string, i: nat) returns (c: Syntax)
    requires i <= |s| && ParsePrimary(s, i).Done?
    ensures Explains(c, 4, ParsePrimary(s, i), s, i)
    decreases |s| - i, 3
  {
    var t := SkipWs(s, i);
    SkipsBlanks(s, i);
    if Peek(s, i, "(") {
      c := GroupExplained(s, i);
    } else if s[t] == '\'' {
      var p := Quoted(s, t + 1);
      QuotedExplained(s, t + 1);
      assert s[t..p.end] == "'" + s[t + 1..p.end];
      Associate("'", Doubled(p.tree), "'");
      WordWrites(s, i, t, p.end, Str(p.tree));
      c := Word(s[i..t], Str(p.tree), "");
    } else if IsDigit(s[t]) {
      var j := Span(s, t, IsNumChar);
      WordWrites(s, i, t, j, Num(s[t..j]));
      c := Word(s[i..t], Num(s[t..j]), "");
    } else {
      var j := Span(s, t, IsPathChar);
      PathIsPath(s, t, j);
      c := PathExplained(s, i, t, j);
    }
  }

  lemma {:induction false} QuotedExplained(s: string, i: nat)
    requires i <= |s| && Quoted(s, i).Done?
    ensures s[i..Quoted(s, i).end] == Doubled(Quoted(s, i).tree) + "'"
    decreases |s| - i
  {
    var p := Quoted(s, i);
    if s[i] != '\'' {
      QuotedExplained(s, i + 1);
      assert s[i..p.end] == [s[i]] + s[i + 1..p.end];
    } else if i + 1 < |s| && s[i + 1] == '\'' {
      QuotedExplained(s, i + 2);
      assert s[i..p.end] == "''" + s[i + 2..p.end];
    }
  }

  lemma {:induction false} GroupExplained(s: string, i: nat) returns (c: Syntax)
    requires i <= |s| && Peek(s, i, "(") && Group(s, After(s, i, "(")).Done?
    ensures Explains(c, 4, Group(s, After(s, i, "(")), s, i)
    decreases |s| - i, 2
  {
    var k := SkipWs(s, i);
    var m := GroupEnds(s, k + 1);
    var inside := ArgExplained(s, k + 1);
    SkipsBlanks(s, i);
    TokenCut(s, i, "(", k);
    c := Parens(s[i..k], inside, "");
    ParensWrite(inside, ParseOr(s, k + 1).tree, s, i, k, m);
  }

  lemma GroupEnds(s: string, i: nat) returns (m: nat)
    requires i <= |s| && Group(s, i).Done?
    ensures ParseOr(s, i).Done? && m == SkipWs(s, ParseOr(s, i).end) && i <= m < |s| && s[m..m + 1] == ")"
    ensures Group(s, i) == Done(ParseOr(s, i).tree, m + 1)
  {
    m := SkipWs(s, ParseOr(s, i).end);
  }

  lemma ParensWrite(inside: Syntax, e: Expr, s: string, i: nat, k: nat, m: nat)
    requires i <= k < m < |s| && s[k..k + 1] == "(" && s[m..m + 1] == ")" && Blanks(s[i..k]) && Writes(inside, 0, e, s[k + 1..m])
    ensures Writes(Parens(s[i..k], inside, ""), 4, e, s[i..m + 1])
  {
    ParensText(s, i, k, m);
  }

  lemma ParensText(s: string, i: nat, k: nat, m: nat)
    requires i <= k < m < |s| && s[k..k + 1] == "(" && s[m..m + 1] == ")"
    ensures s[i..m + 1] == s[i..k] + ("(" + s[k + 1..m] + ")") + ""
  {
    Cut(s, k + 1, m, m + 1);
    Cut(s, k, k + 1, m + 1);
    Cut(s, i, k, m + 1);
  }

  lemma PathIsPath(s: string, t: nat, j: nat)
    requires t < j <= |s| && IsPathStart(s[t]) && forall k | t <= k < j :: IsPathChar(s[k])
    ensures IsPath(s[t..j])
  {
  }

  lemma {:induction false} PathExplained(s: string, i: nat, t: nat, j: nat) returns (c: Syntax)
    requires i <= t < j <= |s| && Blanks(s[i..t]) && IsPath(s[t..j]) && AfterPath(s[t..j], s, j).Done?
    ensures Explains(c, 4, AfterPath(s[t..j], s, j), s, i)
    decreases |s| - i, 2
  {
    if Peek(s, j, "(") {
      c := CallExplained(s, i, t, j);
    } else {
      WordWrites(s, i, t, j, Path(s[t..j]));
      TrailedExplains(Word(s[i..t], Path(s[t..j]), ""), 4, Path(s[t..j]), s, i, j);
      c := Trailed(Word(s[i..t], Path(s[t..j]), ""), s[j..SkipWs(s, j)]);
    }
  }

  lemma {:induction false} CallExplained(s: string, i: nat, t: nat, j: nat) returns (c: Syntax)
    requires i <= t < j <= |s| && Blanks(s[i..t]) && IsPath(s[t..j]) && Peek(s, j, "(")
    requires Arguments(s[t..j], s, After(s, j, "(")).Done?
    ensures Explains(c, 4, Arguments(s[t..j], s, After(s, j, "(")), s, i)
    decreases |s| - i, 1
  {
    var k := SkipWs(s, j);
    TokenCut(s, j, "(", k);
    SkipsBlanks(s, j);
    if Peek(s, k + 1, ")") {
      c := WithoutArguments(s, i, t, j, k);
    } else {
      c := WithArguments(s, i, t, j, k);
    }
  }

  lemma WithoutArguments(s: string, i: nat, t: nat, j: nat, k: nat) returns (c: Syntax)
    requires i <= t < j <= k < |s| && Blanks(s[i..t]) && IsPath(s[t..j]) && Blanks(s[j..k]) && s[k..k + 1] == "(" && Peek(s, k + 1, ")")
    ensures Writes(c, 4, Call(s[t..j], []), s[i..After(s, k + 1, ")")])
  {
    var m := SkipWs(s, k + 1);
    SkipsBlanks(s, k + 1);
    assert s[k + 1..m + 1] == s[k + 1..m] + ")";
    c := Applied(s[i..t], s[t..j], s[j..k], [], s[k + 1..m], "");
    AppliedWrites([], s[k + 1..m], s, i, t, j, k, m + 1);
  }

  lemma {:induction false} WithArguments(s: string, i: nat, t: nat, j: nat, k: nat) returns (c: Syntax)
    requires i <= t < j <= k < |s| && Blanks(s[i..t]) && IsPath(s[t..j]) && Blanks(s[j..k]) && s[k..k + 1] == "(" && ParseArgs(s, k + 1).Done?
    ensures var p := ParseArgs(s, k + 1); p.end <= |s| && Writes(c, 4, Call(s[t..j], p.tree), s[i..p.end])
    decreases |s| - i, 0
  {
    var args := ArgsExplained(s, k + 1);
    c := Applied(s[i..t], s[t..j], s[j..k], args, "", "");
    AppliedWrites(args, "", s, i, t, j, k, ParseArgs(s, k + 1).end);
  }

  lemma AppliedWrites(args: seq<Syntax>, blank: string, s: string, i: nat, t: nat, j: nat, k: nat, end: nat)
    requires i <= t <= j <= k < end <= |s| && IsPath(s[t..j]) && Blanks(s[i..t]) && Blanks(s[j..k]) && Blanks(blank) && forall a | a in args :: Fits(a, 0)
    requires s[k..k + 1] == "(" && s[k + 1..end] == (if args == [] then blank else ArgsText(args)) + ")"
    ensures Writes(Applied(s[i..t], s[t..j], s[j..k], args, blank, ""), 4, Call(s[t..j], TreesOf(args)), s[i..end])
  {
    CallText(s, i, t, j, k, end, if args == [] then blank else ArgsText(args));
  }

  lemma CallText(s: string, i: nat, t: nat, j: nat, k: nat, end: nat, inner: string)
    requires i <= t <= j <= k < end <= |s| && s[k..k + 1] == "(" && s[k + 1..end] == inner + ")"
    ensures s[i..end] == s[i..t] + (s[t..j] + s[j..k] + "(" + inner + ")") + ""
  {
    assert s[k..end] == "(" + (inner + ")");
    Cut(s, j, k, end);
    Cut(s, t, j, end);
    Cut(s, i, t, end);
    assert s[t..end] == s[t..j] + s[j..k] + "(" + inner + ")";
  }

  lemma {:induction false} ArgsExplained(s: string, i: nat) returns (cs: seq<Syntax>)
    requires i <= |s| && ParseArgs(s, i).Done?
    ensures cs != [] && (forall a | a in cs :: Fits(a, 0)) && TreesOf(cs) == ParseArgs(s, i).tree
    ensures s[i..ParseArgs(s, i).end] == ArgsText(cs) + ")"
    decreases |s| - i, 11
  {
    var m := ArgEnds(s, i);
    var c := ArgExplained(s, i);
    if s[m] == ',' {
      var rest := ArgsExplained(s, m + 1);
      cs := [c] + rest;
      NextText(s, i, m, ParseArgs(s, m + 1).end, c, rest);
    } else {
      cs := [c];
      LastText(s, i, m, c);
    }
  }

  lemma ArgEnds(s: string, i: nat) returns (m: nat)
    requires i <= |s| && ParseArgs(s, i).Done?
    ensures var p := ParseOr(s, i); p.Done? && m == SkipWs(s, p.end) && i < m < |s|
    ensures s[m] == ',' ==> ParseArgs(s, m + 1).Done? && ParseArgs(s, i) == Done([ParseOr(s, i).tree] + ParseArgs(s, m + 1).tree, ParseArgs(s, m + 1).end)
    ensures s[m] != ',' ==> s[m] == ')' && ParseArgs(s, i) == Done([ParseOr(s, i).tree], m + 1)
  {
    m := SkipWs(s, ParseOr(s, i).end);
  }

  lemma LastText(s: string, i: nat, m: nat, c: Syntax)
    requires i <= m < |s| && s[m] == ')' && TextOf(c) == s[i..m] && Fits(c, 0)
    ensures s[i..m + 1] == ArgsText([c]) + ")" && TreesOf([c]) == [TreeOf(c)] && forall a | a in [c] :: Fits(a, 0)
  {
  }

  lemma {:induction false} ArgExplained(s: string, i: nat) returns (c: Syntax)
    requires i <= |s| && ParseOr(s, i).Done?
    ensures Writes(c, 0, ParseOr(s, i).tree, s[i..SkipWs(s, ParseOr(s, i).end)])
    decreases |s| - i, 10
  {
    var first := OrExplained(s, i);
    var end := ParseOr(s, i).end;
    TrailedExplains(first, 0, ParseOr(s, i).tree, s, i, end);
    c := Trailed(first, s[end..SkipWs(s, end)]);
  }

  lemma FirstOfList(c: Syntax, cs: seq<Syntax>)
    ensures TreesOf([c] + cs) == [TreeOf(c)] + TreesOf(cs)
    ensures cs != [] ==> ArgsText([c] + cs) == TextOf(c) + "," + ArgsText(cs)
  {
    assert ([c] + cs)[1..] == cs;
  }

  lemma NextText(s: string, i: nat, m: nat, end: nat, c: Syntax, rest: seq<Syntax>)
    requires i <= m < end <= |s| && s[m] == ',' && TextOf(c) == s[i..m] && rest != [] && s[m + 1..end] == ArgsText(rest) + ")"
    requires Fits(c, 0) && forall a | a in rest :: Fits(a, 0)
    ensures s[i..end] == ArgsText([c] + rest) + ")" && TreesOf([c] + rest) == [TreeOf(c)] + TreesOf(rest)
    ensures forall a | a in [c] + rest :: Fits(a, 0)
  {
    FirstOfList(c, rest);
    CommaCut(s, i, m, end, TextOf(c), ArgsText(rest));
  }

  lemma CommaCut(s: string, i: nat, m: nat, end: nat, first: string, rest: string)
    requires i <= m < end <= |s| && s[m] == ',' && first == s[i..m] && s[m + 1..end] == rest + ")"
    ensures s[i..end] == first + "," + rest + ")"
  {
    Cut(s, m, m + 1, end);
    Cut(s, i, m, end);
    Associate(first, ",", rest + ")");
    Associate(first + ",", rest, ")");
  }
}
