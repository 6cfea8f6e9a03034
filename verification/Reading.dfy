/** The reader knows the whole language: every text of it is read, as the tree it stands for. With what
    is read being in the language, the reader accepts exactly its texts. */
module Readings {
  import opened Text
  import opened Options
  import opened IfExpr
  import opened Grammar
  import opened Syntaxes

  // ---- texts at positions ----------------------------------------------------------------

  /** `t` stands at position `i`. */
  predicate At(s: string, i: nat, t: string) {
    i + |t| <= |s| && forall k | 0 <= k < |t| :: t[k] == s[i + k]
  }

  lemma AtPair(s: string, i: nat, a: string, b: string)
    requires At(s, i, a + b)
    ensures At(s, i, a) && At(s, i + |a|, b)
  {
    forall k | 0 <= k < |a| ensures a[k] == s[i + k] { assert (a + b)[k] == a[k]; }
    forall k | 0 <= k < |b| ensures b[k] == s[i + |a| + k] { assert (a + b)[|a| + k] == b[k]; }
  }

  lemma AtTriple(s: string, i: nat, a: string, b: string, c: string)
    requires At(s, i, a + b + c)
    ensures At(s, i, a) && At(s, i + |a|, b) && At(s, i + |a| + |b|, c)
  {
    AtPair(s, i, a + b, c);
    AtPair(s, i, a, b);
  }

  lemma First(s: string, i: nat, t: string)
    requires At(s, i, t) && t != []
    ensures s[i] == t[0] && (|t| > 1 ==> s[i + 1] == t[1])
  {
    assert |t| > 1 ==> t[1] == s[i + 1];
  }

  /** Space that stands at `i` is skipped. */
  lemma {:induction false} SkipsOver(s: string, i: nat, blank: string)
    requires At(s, i, blank) && Blanks(blank)
    ensures SameStart(s, i, i + |blank|)
    decreases |blank|
  {
    if blank != [] {
      assert blank == [blank[0]] + blank[1..];
      AtPair(s, i, [blank[0]], blank[1..]);
      SkipsOver(s, i + 1, blank[1..]);
      First(s, i, blank);
    }
  }

  // ---- what may follow a construct -------------------------------------------------------

  /** Nothing that follows at `j` is taken for more of a construct of this level. */
  predicate Follows(s: string, j: nat, level: nat) {
    && j <= |s|
    && var n := SkipWs(s, j);
       || n == |s| || s[n] == ')' || s[n] == ','
       || (1 <= level && Peek(s, j, "||"))
       || (2 <= level && Peek(s, j, "&&"))
       || (3 <= level && CmpAt(s, j).0 != "")
  }

  lemma FollowsMeans(s: string, j: nat, level: nat)
    requires Follows(s, j, level)
    ensures level <= 3 ==> Follows(s, j, 3)
    ensures level <= 2 ==> CmpAt(s, j).0 == "" && Follows(s, j, 2)
    ensures level <= 1 ==> !Peek(s, j, "&&")
    ensures level == 0 ==> !Peek(s, j, "||") && Follows(s, j, 1)
  {
  }

  /** Nothing at `j` runs on into the word before it. */
  predicate Closed(s: string, j: nat) {
    j <= |s| && (j < |s| ==> !IsPathChar(s[j]) && s[j] != '\'') && !Peek(s, j, "(")
  }

  lemma FollowsCloses(s: string, j: nat, end: nat)
    requires Follows(s, end, 3) && SameStart(s, j, end)
    ensures Closed(s, j)
  {
    assert CmpAt(s, j) == CmpAt(s, end);
    assert j < |s| && !IsSpaceByte(s[j]) ==> SkipWs(s, j) == j;
  }

  /** `p` read `e` up to `end`, give or take whitespace. */
  predicate Got(p: Parse<Expr>, e: Expr, s: string, end: nat) {
    p.Done? && p.tree == e && p.end <= |s| && end <= |s| && SkipWs(s, p.end) == SkipWs(s, end)
  }

  // ---- how a construct begins ------------------------------------------------------------

  /** The space before the first sign of a construct. */
  function Lead(c: Syntax): nat {
    match c
    case Word(before, _, _) => |before|
    case Parens(before, _, _) => |before|
    case Applied(before, _, _, _, _, _) => |before|
    case Bang(before, _) => |before|
    case Infix(left, _, _) => Lead(left)
  }

  predicate Begins(t: string, n: nat) {
    n < |t| && Blanks(t[..n]) && !IsSpaceByte(t[n]) && t[n] != '=' && t[n] != ')'
  }

  lemma BeginsAfter(before: string, core: string, rest: string)
    requires Blanks(before) && core != [] && !IsSpaceByte(core[0]) && core[0] != '=' && core[0] != ')'
    ensures Begins(before + core + rest, |before|)
  {
    assert (before + core + rest)[..|before|] == before && (before + core + rest)[|before|] == core[0];
  }

  lemma BeginsMore(t: string, n: nat, more: string)
    requires Begins(t, n)
    ensures Begins(t + more, n)
  {
    assert (t + more)[..n] == t[..n];
  }

  lemma {:induction false} BeginsWell(c: Syntax, level: nat)
    requires Fits(c, level)
    ensures Begins(TextOf(c), Lead(c))
    decreases c
  {
    match c
    case Word(before, word, after) => BeginsAfter(before, WordText(word), after);
    case Parens(before, inside, after) => BeginsAfter(before, "(" + TextOf(inside) + ")", after);
    case Applied(before, name, gap, args, blank, after) =>
      var inner := if args == [] then blank else ArgsText(args);
      assert (name + gap + "(" + inner + ")")[0] == name[0];
      BeginsAfter(before, name + gap + "(" + inner + ")", after);
    case Bang(before, operand) => BeginsAfter(before, "!", TextOf(operand));
    case Infix(left, sign, right) =>
      BeginsWell(left, if sign.OrSign? then 0 else if sign.AndSign? then 1 else 3);
      BeginsMore(TextOf(left), Lead(left), Sign(sign));
      BeginsMore(TextOf(left) + Sign(sign), Lead(left), TextOf(right));
  }

  /** Where a construct stands, the reader sees neither an equals sign nor a closing parenthesis. */
  lemma BeginsAt(c: Syntax, level: nat, s: string, i: nat)
    requires Fits(c, level) && At(s, i, TextOf(c))
    ensures i < |s| && s[i] != '=' && SkipWs(s, i) < |s| && s[SkipWs(s, i)] != ')'
  {
    BeginsWell(c, level);
    BeginsThere(TextOf(c), Lead(c), s, i);
  }

  lemma BeginsThere(t: string, n: nat, s: string, i: nat)
    requires Begins(t, n) && At(s, i, t)
    ensures i < |s| && s[i] != '=' && SkipWs(s, i) < |s| && s[SkipWs(s, i)] != ')'
  {
    assert t == t[..n] + t[n..];
    AtPair(s, i, t[..n], t[n..]);
    SkipsOver(s, i, t[..n]);
    First(s, i + n, t[n..]);
    First(s, i, t);
    assert n > 0 ==> t[0] == t[..n][0];
  }

  // ---- the signs between two constructs --------------------------------------------------

  lemma SignHere(s: string, j: nat, sign: Connector)
    requires At(s, j, Sign(sign)) && j + |Sign(sign)| < |s| && s[j + |Sign(sign)|] != '='
    ensures SkipWs(s, j) == j && Peek(s, j, Sign(sign)) && After(s, j, Sign(sign)) == j + |Sign(sign)|
    ensures sign.OrSign? ==> Follows(s, j, 1)
    ensures sign.AndSign? ==> Follows(s, j, 2)
    ensures sign.CmpSign? ==> Follows(s, j, 3) && CmpAt(s, j) == (Sign(sign), sign.op)
  {
    First(s, j, Sign(sign));
  }

  lemma OrStep(l: Expr, r: Expr, s: string, j: nat, end: nat)
    requires j <= |s| && Peek(s, j, "||") && end <= |s|
    requires ParseAnd(s, After(s, j, "||")) == AndTail(r, s, end) && !Peek(s, end, "&&")
    ensures OrTail(l, s, j) == OrTail(Or(l, r), s, end)
  {
    assert AndTail(r, s, end) == Done(r, SkipWs(s, end));
    SkippedStart(s, end);
    TailsSkip(Or(l, r), s, SkipWs(s, end), end);
  }

  lemma AndStep(l: Expr, r: Expr, s: string, j: nat, end: nat)
    requires j <= |s| && Peek(s, j, "&&") && Got(ParseCmp(s, After(s, j, "&&")), r, s, end)
    ensures AndTail(l, s, j) == AndTail(And(l, r), s, end)
  {
    TailsSkip(And(l, r), s, ParseCmp(s, After(s, j, "&&")).end, end);
  }

  lemma OrOfAnd(e: Expr, s: string, i: nat, end: nat)
    requires i <= |s| && end <= |s| && ParseAnd(s, i) == AndTail(e, s, end) && !Peek(s, end, "&&")
    ensures ParseOr(s, i) == OrTail(e, s, end)
  {
    assert AndTail(e, s, end) == Done(e, SkipWs(s, end));
    SkippedStart(s, end);
    TailsSkip(e, s, SkipWs(s, end), end);
  }

  lemma AndOfCmp(e: Expr, s: string, i: nat, end: nat)
    requires i <= |s| && Got(ParseCmp(s, i), e, s, end)
    ensures ParseAnd(s, i) == AndTail(e, s, end)
  {
    TailsSkip(e, s, ParseCmp(s, i).end, end);
  }

  lemma CmpOfUnary(e: Expr, s: string, i: nat, end: nat)
    requires i <= |s| && Got(ParseUnary(s, i), e, s, end) && CmpAt(s, end).0 == ""
    ensures Got(ParseCmp(s, i), e, s, end)
  {
    TailsSkip(e, s, ParseUnary(s, i).end, end);
    SkippedStart(s, end);
  }

  lemma CmpStep(op: CmpOp, l: Expr, r: Expr, s: string, i: nat, j: nat, end: nat)
    requires i <= |s| && Got(ParseUnary(s, i), l, s, j)
    requires CmpAt(s, j) == (OpText(op), op) && Got(ParseUnary(s, After(s, j, OpText(op))), r, s, end)
    ensures Got(ParseCmp(s, i), Cmp(op, l, r), s, end)
  {
    TailsSkip(l, s, ParseUnary(s, i).end, j);
  }

  // ---- every construct is read -----------------------------------------------------------

  lemma {:induction false} ReadOr(c: Syntax, s: string, i: nat, end: nat)
    requires Fits(c, 0) && At(s, i, TextOf(c)) && end == i + |TextOf(c)| && Follows(s, end, 1)
    ensures ParseOr(s, i) == OrTail(TreeOf(c), s, end)
    decreases c, 5
  {
    FollowsMeans(s, end, 1);
    if c.Infix? && c.sign.OrSign? {
      AtTriple(s, i, TextOf(c.left), "||", TextOf(c.right));
      ReadDisjunction(c.left, c.right, s, i, i + |TextOf(c.left)|, end);
    } else {
      ReadAnd(c, s, i, end);
      OrOfAnd(TreeOf(c), s, i, end);
    }
  }

  lemma {:induction false} ReadDisjunction(l: Syntax, r: Syntax, s: string, i: nat, j: nat, end: nat)
    requires Fits(l, 0) && At(s, i, TextOf(l)) && j == i + |TextOf(l)| && At(s, j, "||")
    requires Fits(r, 1) && At(s, j + 2, TextOf(r)) && end == j + 2 + |TextOf(r)| && Follows(s, end, 1)
    ensures ParseOr(s, i) == OrTail(Or(TreeOf(l), TreeOf(r)), s, end)
    decreases Infix(l, OrSign, r), 4
  {
    BeginsAt(r, 1, s, j + 2);
    SignHere(s, j, OrSign);
    ReadOr(l, s, i, j);
    FollowsMeans(s, end, 1);
    ReadAnd(r, s, j + 2, end);
    OrStep(TreeOf(l), TreeOf(r), s, j, end);
  }

  lemma {:induction false} ReadAnd(c: Syntax, s: string, i: nat, end: nat)
    requires Fits(c, 1) && At(s, i, TextOf(c)) && end == i + |TextOf(c)| && Follows(s, end, 2)
    ensures ParseAnd(s, i) == AndTail(TreeOf(c), s, end)
    decreases c, 4
  {
    if c.Infix? && c.sign.AndSign? {
      AtTriple(s, i, TextOf(c.left), "&&", TextOf(c.right));
      ReadConjunction(c.left, c.right, s, i, i + |TextOf(c.left)|, end);
    } else {
      ReadCmp(c, s, i, end);
      AndOfCmp(TreeOf(c), s, i, end);
    }
  }

  lemma {:induction false} ReadConjunction(l: Syntax, r: Syntax, s: string, i: nat, j: nat, end: nat)
    requires Fits(l, 1) && At(s, i, TextOf(l)) && j == i + |TextOf(l)| && At(s, j, "&&")
    requires Fits(r, 2) && At(s, j + 2, TextOf(r)) && end == j + 2 + |TextOf(r)| && Follows(s, end, 2)
    ensures ParseAnd(s, i) == AndTail(And(TreeOf(l), TreeOf(r)), s, end)
    decreases Infix(l, AndSign, r), 3
  {
    BeginsAt(r, 2, s, j + 2);
    SignHere(s, j, AndSign);
    ReadAnd(l, s, i, j);
    ReadCmp(r, s, j + 2, end);
    AndStep(TreeOf(l), TreeOf(r), s, j, end);
  }

  lemma {:induction false} ReadCmp(c: Syntax, s: string, i: nat, end: nat)
    requires Fits(c, 2) && At(s, i, TextOf(c)) && end == i + |TextOf(c)| && Follows(s, end, 2)
    ensures Got(ParseCmp(s, i), TreeOf(c), s, end)
    decreases c, 3
  {
    FollowsMeans(s, end, 2);
    if c.Infix? {
      AtTriple(s, i, TextOf(c.left), OpText(c.sign.op), TextOf(c.right));
      var j := i + |TextOf(c.left)|;
      ReadComparison(c.left, c.sign.op, c.right, s, i, j, j + |OpText(c.sign.op)|, end);
    } else {
      ReadUnary(c, s, i, end);
      CmpOfUnary(TreeOf(c), s, i, end);
    }
  }

  lemma {:induction false} ReadComparison(l: Syntax, op: CmpOp, r: Syntax, s: string, i: nat, j: nat, k: nat, end: nat)
    requires Fits(l, 3) && At(s, i, TextOf(l)) && j == i + |TextOf(l)| && At(s, j, OpText(op)) && k == j + |OpText(op)|
    requires Fits(r, 3) && At(s, k, TextOf(r)) && end == k + |TextOf(r)| && Follows(s, end, 3)
    ensures Got(ParseCmp(s, i), Cmp(op, TreeOf(l), TreeOf(r)), s, end)
    decreases Infix(l, CmpSign(op), r), 2
  {
    ComparisonHere(r, s, j, op, k);
    ReadUnary(l, s, i, j);
    ReadUnary(r, s, k, end);
    CmpStep(op, TreeOf(l), TreeOf(r), s, i, j, end);
  }

  lemma ComparisonHere(r: Syntax, s: string, j: nat, op: CmpOp, k: nat)
    requires Fits(r, 3) && At(s, j, OpText(op)) && k == j + |OpText(op)| && At(s, k, TextOf(r))
    ensures Follows(s, j, 3) && CmpAt(s, j) == (OpText(op), op) && After(s, j, OpText(op)) == k
  {
    BeginsAt(r, 3, s, k);
    SignHere(s, j, CmpSign(op));
  }

  lemma {:induction false} ReadUnary(c: Syntax, s: string, i: nat, end: nat)
    requires Fits(c, 3) && At(s, i, TextOf(c)) && end == i + |TextOf(c)| && Follows(s, end, 3)
    ensures Got(ParseUnary(s, i), TreeOf(c), s, end)
    decreases c, 2
  {
    if c.Bang? {
      AtTriple(s, i, c.before, "!", TextOf(c.operand));
      var k := i + |c.before|;
      SkipsOver(s, i, c.before);
      First(s, k, "!");
      BeginsAt(c.operand, 3, s, k + 1);
      ReadUnary(c.operand, s, k + 1, end);
      NotStep(TreeOf(c.operand), s, k, end);
      UnarySkips(s, i, k);
    } else {
      ReadAtom(c, s, i, end);
      UnaryOfAtom(s, i);
    }
  }

  lemma NotStep(e: Expr, s: string, i: nat, end: nat)
    requires i + 1 < |s| && s[i] == '!' && s[i + 1] != '=' && Got(ParseUnary(s, i + 1), e, s, end)
    ensures Got(ParseUnary(s, i), Not(e), s, end)
  {
    assert SkipWs(s, i) == i;
  }

  lemma UnaryOfAtom(s: string, i: nat)
    requires i <= |s| && SkipWs(s, i) < |s| && s[SkipWs(s, i)] != '!'
    ensures ParseUnary(s, i) == ParsePrimary(s, i)
  {
  }

  // ---- atoms -----------------------------------------------------------------------------

  lemma {:induction false} ReadAtom(c: Syntax, s: string, i: nat, end: nat)
    requires Fits(c, 4) && At(s, i, TextOf(c)) && end == i + |TextOf(c)| && Follows(s, end, 3)
    ensures Got(ParsePrimary(s, i), TreeOf(c), s, end) && SkipWs(s, i) < |s| && s[SkipWs(s, i)] != '!'
    decreases c, 1
  {
    match c
    case Word(before, word, after) =>
      var k, m := Core(s, i, before, WordText(word), after, end);
      ReadWord(word, s, k, m);
    case Parens(before, inside, after) => ReadGroup(before, inside, after, s, i, end);
    case Applied(before, name, gap, args, blank, after) =>
      ReadApplied(before, name, gap, args, blank, if args == [] then blank else ArgsText(args), after, s, i, end);
  }

  lemma {:induction false} ReadGroup(before: string, inside: Syntax, after: string, s: string, i: nat, end: nat)
    requires Fits(inside, 0) && Blanks(before) && Blanks(after) && Follows(s, end, 3)
    requires var t := before + ("(" + TextOf(inside) + ")") + after; At(s, i, t) && end == i + |t|
    ensures Got(ParsePrimary(s, i), TreeOf(inside), s, end) && SkipWs(s, i) < |s| && s[SkipWs(s, i)] != '!'
    decreases inside, 7
  {
    var k, m := Core(s, i, before, "(" + TextOf(inside) + ")", after, end);
    ReadParens(inside, s, k, m);
  }

  lemma {:induction false} ReadApplied(
    before: string, name: string, gap: string, args: seq<Syntax>, blank: string, inner: string, after: string, s: string, i: nat, end: nat)
    requires (forall a | a in args :: Fits(a, 0)) && Blanks(before) && Blanks(gap) && Blanks(blank) && Blanks(after) && IsPath(name)
    requires Follows(s, end, 3) && inner == if args == [] then blank else ArgsText(args)
    requires var t := before + (name + gap + "(" + inner + ")") + after; At(s, i, t) && end == i + |t|
    ensures Got(ParsePrimary(s, i), Call(name, TreesOf(args)), s, end) && SkipWs(s, i) < |s| && s[SkipWs(s, i)] != '!'
    decreases args, 9
  {
    assert (name + gap + "(" + inner + ")")[0] == name[0];
    var k, m := Core(s, i, before, name + gap + "(" + inner + ")", after, end);
    CallParts(s, k, name, gap, inner, k + |name| + |gap|, m);
    ReadCall(name, gap, args, blank, inner, s, k, k + |name| + |gap|, m);
  }

  lemma {:induction false} ReadCall(name: string, gap: string, args: seq<Syntax>, blank: string, inner: string, s: string, i: nat, a: nat, end: nat)
    requires (forall c | c in args :: Fits(c, 0)) && Blanks(gap) && Blanks(blank) && IsPath(name)
    requires inner == (if args == [] then blank else ArgsText(args)) && a == i + |name| + |gap| && end == a + 2 + |inner| && end <= |s|
    requires At(s, i, name) && At(s, i + |name|, gap) && At(s, a, "(") && At(s, a + 1, inner) && s[end - 1] == ')'
    ensures ParsePrimary(s, i) == Done(Call(name, TreesOf(args)), end)
    decreases args, 8
  {
    ReadName(name, gap, s, i, a);
    ReadArguments(name, args, blank, inner, s, a + 1, end - 1);
  }

  /** The atom itself, between the space before and after it. */
  lemma Core(s: string, i: nat, before: string, core: string, after: string, end: nat) returns (k: nat, m: nat)
    requires At(s, i, before + core + after) && end == i + |before + core + after| && Blanks(before) && Blanks(after) && Follows(s, end, 3)
    requires core != [] && !IsSpaceByte(core[0]) && core[0] != '!'
    ensures k == i + |before| && m == k + |core| && At(s, k, core) && Closed(s, m) && SameStart(s, m, end)
    ensures SkipWs(s, i) == k && s[k] == core[0] && ParsePrimary(s, i) == ParsePrimary(s, k)
  {
    k, m := i + |before|, i + |before| + |core|;
    AtTriple(s, i, before, core, after);
    First(s, k, core);
    SkipsOver(s, i, before);
    SkipsOver(s, m, after);
    FollowsCloses(s, m, end);
    PrimarySkips(s, i, k);
  }

  lemma ReadWord(word: Expr, s: string, i: nat, end: nat)
    requires IsWord(word) && At(s, i, WordText(word)) && end == i + |WordText(word)| && Closed(s, end)
    ensures Got(ParsePrimary(s, i), word, s, end)
  {
    match word
    case Str(t) => ReadStr(t, s, i);
    case Num(d) => ReadNum(d, s, i);
    case Path(p) =>
      PathStep(p, s, i);
      SkippedStart(s, i + |p|);
    case _ =>
  }

  lemma {:induction false} SpanAt(s: string, i: nat, t: string, ok: char -> bool)
    requires At(s, i, t) && forall k | 0 <= k < |t| :: ok(t[k])
    requires i + |t| == |s| || !ok(s[i + |t|])
    ensures Span(s, i, ok) == i + |t|
  {
    var j := Span(s, i, ok);
    forall m | i <= m < i + |t| ensures ok(s[m]) { assert ok(t[m - i]) && t[m - i] == s[i + (m - i)]; }
  }

  lemma {:induction false} QuotedAt(s: string, i: nat, t: string)
    requires At(s, i, Doubled(t) + "'")
    requires var end := i + |Doubled(t)| + 1; end == |s| || s[end] != '\''
    ensures Quoted(s, i) == Done(t, i + |Doubled(t)| + 1)
    decreases t
  {
    if t == [] {
      assert Doubled(t) + "'" == "'";
      assert "'"[0] == s[i];
    } else {
      var c := if t[0] == '\'' then "''" else [t[0]];
      assert Doubled(t) + "'" == c + (Doubled(t[1..]) + "'");
      AtPair(s, i, c, Doubled(t[1..]) + "'");
      QuotedAt(s, i + |c|, t[1..]);
      assert c[0] == s[i];
      if t[0] == '\'' { assert c[1] == s[i + 1]; }
      assert t == [t[0]] + t[1..];
    }
  }

  lemma ReadStr(t: string, s: string, i: nat)
    requires At(s, i, "'" + Doubled(t) + "'")
    requires var end := i + |Doubled(t)| + 2; end == |s| || s[end] != '\''
    ensures ParsePrimary(s, i) == Done(Str(t), i + |Doubled(t)| + 2)
  {
    assert "'" + Doubled(t) + "'" == "'" + (Doubled(t) + "'");
    AtPair(s, i, "'", Doubled(t) + "'");
    First(s, i, "'");
    QuotedAt(s, i + 1, t);
    assert SkipWs(s, i) == i;
  }

  lemma ReadNum(d: string, s: string, i: nat)
    requires IsNumeral(d) && At(s, i, d) && Closed(s, i + |d|)
    ensures ParsePrimary(s, i) == Done(Num(d), i + |d|)
  {
    First(s, i, d);
    assert IsDigit(s[i]) && SkipWs(s, i) == i;
    assert forall k | 0 <= k < |d| :: d[k] in d;
    SpanAt(s, i, d, IsNumChar);
    assert s[i..i + |d|] == d;
  }

  lemma PathStep(p: string, s: string, i: nat)
    requires IsPath(p) && At(s, i, p) && (i + |p| < |s| ==> !IsPathChar(s[i + |p|]))
    ensures ParsePrimary(s, i) == AfterPath(p, s, i + |p|)
  {
    First(s, i, p);
    assert IsPathStart(s[i]) && SkipWs(s, i) == i;
    assert forall k | 0 <= k < |p| :: p[k] in p;
    SpanAt(s, i, p, IsPathChar);
    assert s[i..i + |p|] == p;
  }

  lemma CloserAhead(s: string, j: nat)
    requires j < |s| && (s[j] == ')' || s[j] == ',')
    ensures SkipWs(s, j) == j && Follows(s, j, 1) && !Peek(s, j, "||")
  {
  }

  lemma {:induction false} ReadParens(inside: Syntax, s: string, i: nat, end: nat)
    requires Fits(inside, 0) && At(s, i, "(" + TextOf(inside) + ")") && end == i + 2 + |TextOf(inside)|
    ensures ParsePrimary(s, i) == Done(TreeOf(inside), end)
    decreases inside, 6
  {
    AtTriple(s, i, "(", TextOf(inside), ")");
    First(s, i, "(");
    First(s, end - 1, ")");
    CloserAhead(s, end - 1);
    ReadOr(inside, s, i + 1, end - 1);
    GroupStep(TreeOf(inside), s, i, end - 1);
  }

  lemma GroupStep(e: Expr, s: string, i: nat, close: nat)
    requires i < close < |s| && s[i] == '(' && s[close] == ')' && ParseOr(s, i + 1) == OrTail(e, s, close)
    ensures ParsePrimary(s, i) == Done(e, close + 1)
  {
    CloserAhead(s, close);
    assert OrTail(e, s, close) == Done(e, close);
    assert Group(s, i + 1) == Done(e, close + 1);
    assert SkipWs(s, i) == i;
  }

  // ---- calls -----------------------------------------------------------------------------

  lemma CallParts(s: string, i: nat, name: string, gap: string, inner: string, a: nat, end: nat)
    requires At(s, i, name + gap + "(" + inner + ")") && end == i + |name + gap + "(" + inner + ")"| && a == i + |name| + |gap|
    ensures At(s, i, name) && At(s, i + |name|, gap) && At(s, a, "(") && At(s, a + 1, inner) && end == a + 2 + |inner| && s[end - 1] == ')'
  {
    AtPair(s, i, name + gap + "(" + inner, ")");
    AtPair(s, i, name + gap + "(", inner);
    AtTriple(s, i, name, gap, "(");
    First(s, end - 1, ")");
  }

  lemma ReadName(name: string, gap: string, s: string, i: nat, a: nat)
    requires IsPath(name) && Blanks(gap) && At(s, i, name) && At(s, i + |name|, gap) && a == i + |name| + |gap| && At(s, a, "(")
    ensures ParsePrimary(s, i) == Arguments(name, s, a + 1)
  {
    OpensAfter(gap, s, i + |name|, a);
    PathStep(name, s, i);
  }

  lemma OpensAfter(gap: string, s: string, j: nat, a: nat)
    requires Blanks(gap) && At(s, j, gap) && a == j + |gap| && At(s, a, "(")
    ensures j < |s| && !IsPathChar(s[j]) && Peek(s, j, "(") && After(s, j, "(") == a + 1
  {
    First(s, a, "(");
    if gap != [] {
      First(s, j, gap);
      assert gap[0] in gap;
    }
    SkipsOver(s, j, gap);
  }

  lemma {:induction false} ReadArguments(name: string, args: seq<Syntax>, blank: string, inner: string, s: string, i: nat, close: nat)
    requires (forall a | a in args :: Fits(a, 0)) && Blanks(blank) && inner == if args == [] then blank else ArgsText(args)
    requires At(s, i, inner) && close == i + |inner| && close < |s| && s[close] == ')'
    ensures Arguments(name, s, i) == Done(Call(name, TreesOf(args)), close + 1)
    decreases args, 7
  {
    if args == [] {
      SkipsOver(s, i, blank);
    } else {
      ReadArgs(args, s, i, close);
      FirstArgument(args, s, i);
    }
  }

  lemma FirstArgument(args: seq<Syntax>, s: string, i: nat)
    requires args != [] && Fits(args[0], 0) && At(s, i, ArgsText(args))
    ensures i <= |s| && !Peek(s, i, ")")
  {
    if |args| > 1 {
      AtTriple(s, i, TextOf(args[0]), ",", ArgsText(args[1..]));
    }
    BeginsAt(args[0], 0, s, i);
  }

  lemma {:induction false} ReadArgs(cs: seq<Syntax>, s: string, i: nat, close: nat)
    requires cs != [] && (forall c | c in cs :: Fits(c, 0)) && At(s, i, ArgsText(cs))
    requires close == i + |ArgsText(cs)| && close < |s| && s[close] == ')'
    ensures ParseArgs(s, i) == Done(TreesOf(cs), close + 1)
    decreases cs, 6
  {
    if |cs| == 1 {
      ReadLast(cs[0], s, i, close);
      assert TreesOf(cs) == [TreeOf(cs[0])];
    } else {
      var j := i + |TextOf(cs[0])|;
      AtTriple(s, i, TextOf(cs[0]), ",", ArgsText(cs[1..]));
      ReadArgs(cs[1..], s, j + 1, close);
      ReadNext(cs[0], TreesOf(cs[1..]), s, i, j, close + 1);
    }
  }

  lemma {:induction false} ReadLast(c: Syntax, s: string, i: nat, close: nat)
    requires Fits(c, 0) && At(s, i, TextOf(c)) && close == i + |TextOf(c)| && close < |s| && s[close] == ')'
    ensures ParseArgs(s, i) == Done([TreeOf(c)], close + 1)
    decreases c, 6
  {
    CloserAhead(s, close);
    ReadOr(c, s, i, close);
    LastArgument(TreeOf(c), s, i, close);
  }

  lemma {:induction false} ReadNext(c: Syntax, es: seq<Expr>, s: string, i: nat, j: nat, end: nat)
    requires Fits(c, 0) && At(s, i, TextOf(c)) && j == i + |TextOf(c)| && At(s, j, ",") && ParseArgs(s, j + 1) == Done(es, end)
    ensures ParseArgs(s, i) == Done([TreeOf(c)] + es, end)
    decreases c, 6
  {
    First(s, j, ",");
    CloserAhead(s, j);
    ReadOr(c, s, i, j);
    NextArgument(TreeOf(c), es, s, i, j, end);
  }

  lemma LastArgument(e: Expr, s: string, i: nat, j: nat)
    requires i <= j < |s| && s[j] == ')' && ParseOr(s, i) == OrTail(e, s, j)
    ensures ParseArgs(s, i) == Done([e], j + 1)
  {
    CloserAhead(s, j);
    assert OrTail(e, s, j) == Done(e, j);
  }

  lemma NextArgument(e: Expr, es: seq<Expr>, s: string, i: nat, j: nat, end: nat)
    requires i <= j < |s| && s[j] == ',' && ParseOr(s, i) == OrTail(e, s, j) && ParseArgs(s, j + 1) == Done(es, end)
    ensures ParseArgs(s, i) == Done([e] + es, end)
  {
    CloserAhead(s, j);
    assert OrTail(e, s, j) == Done(e, j);
  }

  // ---- the reader is exact ---------------------------------------------------------------

  /** The tree the whole of `src` is read as, if it is read to its end. */
  function Tree(src: string): Option<Expr> {
    match ParseOr(src, 0)
    case Fail => None
    case Done(e, end) => if SkipWs(src, end) == |src| then Some(e) else None
  }

  lemma Reads(c: Syntax)
    requires Fits(c, 0)
    ensures Tree(TextOf(c)) == Some(TreeOf(c))
  {
    var s := TextOf(c);
    ReadOr(c, s, 0, |s|);
    assert SkipWs(s, |s|) == |s|;
    assert OrTail(TreeOf(c), s, |s|) == Done(TreeOf(c), |s|);
  }

  /** The reader accepts exactly the texts of the language, and as the trees they stand for: what a
      text stands for is never in doubt. */
  lemma ReadsExactly(s: string, e: Expr)
    ensures Tree(s) == Some(e) <==> exists c :: Writes(c, 0, e, s)
  {
    if Tree(s) == Some(e) {
      var p := ParseOr(s, 0);
      var c := OrExplained(s, 0);
      TrailedExplains(c, 0, e, s, 0, p.end);
      assert s[0..|s|] == s;
    }
    if c :| Writes(c, 0, e, s) { Reads(c); }
  }
}
