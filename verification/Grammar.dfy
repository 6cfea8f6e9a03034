/** The grammar of the condition language: from bytes to a syntax tree. Each function reads the
    bytes `s` from position `i` and returns the tree and the position after it. */
module Grammar {
  import opened Text
  import opened IfExpr

  datatype Parse<T> = Fail | Done(tree: T, end: nat)

  /** A parse from `i` never ends past the end of the text, and takes at least `least` bytes. */
  predicate Ends<T>(p: Parse<T>, s: string, i: nat, least: nat) {
    p.Done? ==> i + least <= p.end <= |s|
  }

  /** `(byte as char).is_whitespace()`: the whitespace characters of Latin-1. */
  predicate IsSpaceByte(c: char) {
    c < 256 as char && IsWhitespace(c)
  }

  function SkipWs(s: string, i: nat): (j: nat)
    requires i <= |s|
    ensures i <= j <= |s|
    ensures j == |s| || !IsSpaceByte(s[j])
    decreases |s| - i
  {
    if i < |s| && IsSpaceByte(s[i]) then SkipWs(s, i + 1) else i
  }

  /** Whether the token `tok`, of one or two bytes, comes next. */
  predicate Peek(s: string, i: nat, tok: string)
    requires i <= |s| && 1 <= |tok| <= 2
  {
    var j := SkipWs(s, i);
    j + |tok| <= |s| && s[j] == tok[0] && (|tok| == 2 ==> s[j + 1] == tok[1])
  }

  /** The position after `tok` was eaten. */
  function After(s: string, i: nat, tok: string): (j: nat)
    requires i <= |s| && 1 <= |tok| <= 2 && Peek(s, i, tok)
    ensures i + |tok| <= j <= |s|
  {
    SkipWs(s, i) + |tok|
  }

  predicate IsPathChar(c: char) {
    IsAlpha(c) || IsDigit(c) || c == '_' || c == '-' || c == '.'
  }

  predicate IsPathStart(c: char) { IsAlpha(c) || c == '_' }

  predicate IsNumChar(c: char) { IsDigit(c) || c == '.' }

  /** Where a run of bytes of one class ends. */
  function Span(s: string, i: nat, ok: char -> bool): (j: nat)
    requires i <= |s|
    ensures i <= j <= |s|
    ensures forall k | i <= k < j :: ok(s[k])
    ensures j == |s| || !ok(s[j])
    decreases |s| - i
  {
    if i < |s| && ok(s[i]) then Span(s, i + 1, ok) else i
  }

  /** The rest of a string literal after its opening quote; a doubled quote is a quote. */
  function Quoted(s: string, i: nat): (p: Parse<string>)
    requires i <= |s|
    ensures Ends(p, s, i, 1)
    decreases |s| - i
  {
    if i == |s| then Fail
    else if s[i] == '\'' then
      if i + 1 < |s| && s[i + 1] == '\'' then
        match Quoted(s, i + 2)
        case Fail => Fail
        case Done(t, end) => Done(['\''] + t, end)
      else Done("", i + 1)
    else
      match Quoted(s, i + 1)
      case Fail => Fail
      case Done(t, end) => Done([s[i]] + t, end)
  }

  function ParseOr(s: string, i: nat): (p: Parse<Expr>)
    requires i <= |s|
    ensures Ends(p, s, i, 1)
    decreases |s| - i, 9
  {
    match ParseAnd(s, i)
    case Fail => Fail
    case Done(e, j) => OrTail(e, s, j)
  }

  function OrTail(e: Expr, s: string, i: nat): (p: Parse<Expr>)
    requires i <= |s|
    ensures Ends(p, s, i, 0)
    decreases |s| - i, 8
  {
    if !Peek(s, i, "||") then Done(e, SkipWs(s, i))
    else
      match ParseAnd(s, After(s, i, "||"))
      case Fail => Fail
      case Done(r, j) => OrTail(Or(e, r), s, j)
  }

  function ParseAnd(s: string, i: nat): (p: Parse<Expr>)
    requires i <= |s|
    ensures Ends(p, s, i, 1)
    decreases |s| - i, 7
  {
    match ParseCmp(s, i)
    case Fail => Fail
    case Done(e, j) => AndTail(e, s, j)
  }

  function AndTail(e: Expr, s: string, i: nat): (p: Parse<Expr>)
    requires i <= |s|
    ensures Ends(p, s, i, 0)
    decreases |s| - i, 6
  {
    if !Peek(s, i, "&&") then Done(e, SkipWs(s, i))
    else
      match ParseCmp(s, After(s, i, "&&"))
      case Fail => Fail
      case Done(r, j) => AndTail(And(e, r), s, j)
  }

  /** The comparison at `i`, in the order the parser tries them; none is the empty token. */
  function CmpAt(s: string, i: nat): (r: (string, CmpOp))
    requires i <= |s|
    ensures r.0 != "" ==> 1 <= |r.0| <= 2 && Peek(s, i, r.0)
  {
    if Peek(s, i, "==") then ("==", Eq)
    else if Peek(s, i, "!=") then ("!=", Ne)
    else if Peek(s, i, "<=") then ("<=", Le)
    else if Peek(s, i, ">=") then (">=", Ge)
    else if Peek(s, i, "<") then ("<", Lt)
    else if Peek(s, i, ">") then (">", Gt)
    else ("", Eq)
  }

  function ParseCmp(s: string, i: nat): (p: Parse<Expr>)
    requires i <= |s|
    ensures Ends(p, s, i, 1)
    decreases |s| - i, 5
  {
    match ParseUnary(s, i)
    case Fail => Fail
    case Done(l, j) => CmpTail(l, s, j)
  }

  function CmpTail(l: Expr, s: string, i: nat): (p: Parse<Expr>)
    requires i <= |s|
    ensures Ends(p, s, i, 0)
    decreases |s| - i, 12
  {
    var (tok, op) := CmpAt(s, i);
    if tok == "" then Done(l, SkipWs(s, i))
    else
      match ParseUnary(s, After(s, i, tok))
      case Fail => Fail
      case Done(r, j) => Done(Cmp(op, l, r), j)
  }

  function ParseUnary(s: string, i: nat): (p: Parse<Expr>)
    requires i <= |s|
    ensures Ends(p, s, i, 1)
    decreases |s| - i, 4
  {
    if Peek(s, i, "!") && !Peek(s, i, "!=") then
      match ParseUnary(s, After(s, i, "!"))
      case Fail => Fail
      case Done(e, j) => Done(Not(e), j)
    else ParsePrimary(s, i)
  }

  function ParsePrimary(s: string, i: nat): (p: Parse<Expr>)
    requires i <= |s|
    ensures Ends(p, s, i, 1)
    decreases |s| - i, 3
  {
    var t := SkipWs(s, i);
    if t == |s| then Fail
    else if Peek(s, i, "(") then Group(s, After(s, i, "("))
    else if s[t] == '\'' then
      match Quoted(s, t + 1)
      case Fail => Fail
      case Done(text, j) => Done(Str(text), j)
    else if IsDigit(s[t]) then
      var j := Span(s, t, IsNumChar);
      assert j > t;
      Done(Num(s[t..j]), j)
    else if IsPathStart(s[t]) then
      var j := Span(s, t, IsPathChar);
      assert j > t;
      AfterPath(s[t..j], s, j)
    else Fail
  }

  /** A parenthesized expression from after its opening parenthesis. */
  function Group(s: string, i: nat): (p: Parse<Expr>)
    requires i <= |s|
    ensures Ends(p, s, i, 1)
    decreases |s| - i, 10
  {
    match ParseOr(s, i)
    case Fail => Fail
    case Done(e, j) => if Peek(s, j, ")") then Done(e, After(s, j, ")")) else Fail
  }

  function AfterPath(path: string, s: string, i: nat): (p: Parse<Expr>)
    requires i <= |s|
    ensures Ends(p, s, i, 0)
    decreases |s| - i, 10
  {
    if !Peek(s, i, "(") then Done(Path(path), SkipWs(s, i))
    else Arguments(path, s, After(s, i, "("))
  }

  /** A call from after its opening parenthesis. */
  function Arguments(path: string, s: string, i: nat): (p: Parse<Expr>)
    requires i <= |s|
    ensures Ends(p, s, i, 1)
    decreases |s| - i, 12
  {
    if Peek(s, i, ")") then Done(Call(path, []), After(s, i, ")"))
    else
      match ParseArgs(s, i)
      case Fail => Fail
      case Done(args, j) => Done(Call(path, args), j)
  }

  function ParseArgs(s: string, i: nat): (p: Parse<seq<Expr>>)
    requires i <= |s|
    ensures Ends(p, s, i, 1)
    decreases |s| - i, 11
  {
    match ParseOr(s, i)
    case Fail => Fail
    case Done(e, j) =>
      if Peek(s, j, ",") then
        match ParseArgs(s, After(s, j, ","))
        case Fail => Fail
        case Done(es, k) => Done([e] + es, k)
      else if Peek(s, j, ")") then Done([e], After(s, j, ")"))
      else Fail
  }

  // ---- whitespace before a construct is never read ---------------------------------------

  predicate SameStart(s: string, i: nat, j: nat) {
    i <= |s| && j <= |s| && SkipWs(s, i) == SkipWs(s, j)
  }

  lemma SkippedStart(s: string, i: nat)
    requires i <= |s|
    ensures SameStart(s, SkipWs(s, i), i)
  {
  }

  lemma PrimarySkips(s: string, i: nat, j: nat)
    requires SameStart(s, i, j)
    ensures ParsePrimary(s, i) == ParsePrimary(s, j)
  {
  }

  lemma UnarySkips(s: string, i: nat, j: nat)
    requires SameStart(s, i, j)
    ensures ParseUnary(s, i) == ParseUnary(s, j)
  {
    PrimarySkips(s, i, j);
  }

  lemma CmpSkips(s: string, i: nat, j: nat)
    requires SameStart(s, i, j)
    ensures ParseCmp(s, i) == ParseCmp(s, j)
  {
    UnarySkips(s, i, j);
  }

  lemma AndSkips(s: string, i: nat, j: nat)
    requires SameStart(s, i, j)
    ensures ParseAnd(s, i) == ParseAnd(s, j)
  {
    CmpSkips(s, i, j);
  }

  lemma OrSkips(s: string, i: nat, j: nat)
    requires SameStart(s, i, j)
    ensures ParseOr(s, i) == ParseOr(s, j)
  {
    AndSkips(s, i, j);
  }

  lemma ArgsSkip(s: string, i: nat, j: nat)
    requires SameStart(s, i, j)
    ensures ParseArgs(s, i) == ParseArgs(s, j)
  {
    OrSkips(s, i, j);
  }

  lemma OrTailSkips(e: Expr, s: string, i: nat, j: nat)
    requires SameStart(s, i, j)
    ensures OrTail(e, s, i) == OrTail(e, s, j)
  {
  }

  lemma AndTailSkips(e: Expr, s: string, i: nat, j: nat)
    requires SameStart(s, i, j)
    ensures AndTail(e, s, i) == AndTail(e, s, j)
  {
  }

  lemma CmpTailSkips(e: Expr, s: string, i: nat, j: nat)
    requires SameStart(s, i, j)
    ensures CmpTail(e, s, i) == CmpTail(e, s, j)
  {
    assert CmpAt(s, i) == CmpAt(s, j);
  }

  lemma TailsSkip(e: Expr, s: string, i: nat, j: nat)
    requires SameStart(s, i, j)
    ensures OrTail(e, s, i) == OrTail(e, s, j)
    ensures AndTail(e, s, i) == AndTail(e, s, j)
    ensures CmpTail(e, s, i) == CmpTail(e, s, j)
  {
    OrTailSkips(e, s, i, j);
    AndTailSkips(e, s, i, j);
    CmpTailSkips(e, s, i, j);
  }
}
