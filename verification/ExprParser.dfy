/** The recursive-descent evaluator of `xtask/src/runners.rs`: it computes the value of a condition
    while it reads it, and never builds a tree. Every method is proved against the grammar: what it
    returns is the abstract meaning of the tree the grammar reads at the same place. */
module ExprParsing {
  import opened Truths
  import opened Text
  import opened IfExpr
  import opened Grammar

  datatype Answer = Ok(value: Val) | Err

  class ExprParser {
    const src: string
    const event: string
    var pos: nat

    ghost predicate Valid()
      reads this
    {
      pos <= |src|
    }

    constructor (src: string, event: string)
      ensures Valid() && pos == 0 && this.src == src && this.event == event
    {
      this.src, this.event, pos := src, event, 0;
    }

    /** The parser failed where the grammar fails, and otherwise holds the value of its tree and
        stands where the tree ends. */
    ghost predicate Reads(p: Parse<Expr>, r: Answer)
      reads this
    {
      match p
      case Fail => r == Err
      case Done(e, end) => r == Ok(Abs(e, event)) && pos == end
    }

    method Skip()
      requires Valid()
      modifies this`pos
      ensures Valid() && pos == SkipWs(src, old(pos))
    {
      while pos < |src| && IsSpaceByte(src[pos])
        invariant old(pos) <= pos <= |src|
        invariant SkipWs(src, pos) == SkipWs(src, old(pos))
      {
        pos := pos + 1;
      }
    }

    method Sees(tok: string) returns (b: bool)
      requires Valid() && 1 <= |tok| <= 2
      modifies this`pos
      ensures Valid() && pos == SkipWs(src, old(pos))
      ensures b == Peek(src, old(pos), tok)
    {
      Skip();
      b := tok <= src[pos..];
      assert b ==> forall k | 0 <= k < |tok| :: tok[k] == src[pos..][k];
    }

    method Eat(tok: string) returns (b: bool)
      requires Valid() && 1 <= |tok| <= 2
      modifies this`pos
      ensures Valid() && b == Peek(src, old(pos), tok)
      ensures pos == if b then After(src, old(pos), tok) else SkipWs(src, old(pos))
    {
      b := Sees(tok);
      if b { pos := pos + |tok|; }
    }

    method ParseExpr() returns (r: Answer)
      requires Valid()
      modifies this`pos
      ensures Valid() && Reads(ParseOr(src, old(pos)), r)
      decreases |src| - pos, 9
    {
      ghost var p := ParseOr(src, pos);
      ghost var start := pos;
      r := ParseConjunction();
      if r == Err { return; }
      ghost var e := ParseAnd(src, old(pos)).tree;
      while true
        invariant Valid() && r.Ok? && start < pos
        invariant r.value == Abs(e, event) && OrTail(e, src, pos) == p
        decreases |src| - pos
      {
        ghost var here := pos;
        var more := Eat("||");
        if !more { return; }
        ghost var q := ParseAnd(src, pos);
        var right := ParseConjunction();
        if right == Err { r := Err; return; }
        e := Or(e, q.tree);
        r := Ok(FromTruth(TruthOf(r.value).Or(TruthOf(right.value))));
      }
    }

    method ParseConjunction() returns (r: Answer)
      requires Valid()
      modifies this`pos
      ensures Valid() && Reads(ParseAnd(src, old(pos)), r)
      decreases |src| - pos, 7
    {
      ghost var p := ParseAnd(src, pos);
      ghost var start := pos;
      r := ParseComparison();
      if r == Err { return; }
      ghost var e := ParseCmp(src, old(pos)).tree;
      while true
        invariant Valid() && r.Ok? && start < pos
        invariant r.value == Abs(e, event) && AndTail(e, src, pos) == p
        decreases |src| - pos
      {
        var more := Eat("&&");
        if !more { return; }
        ghost var q := ParseCmp(src, pos);
        var right := ParseComparison();
        if right == Err { r := Err; return; }
        e := And(e, q.tree);
        r := Ok(FromTruth(TruthOf(r.value).And(TruthOf(right.value))));
      }
    }

    method ParseComparison() returns (r: Answer)
      requires Valid()
      modifies this`pos
      ensures Valid() && Reads(ParseCmp(src, old(pos)), r)
      decreases |src| - pos, 5
    {
      ghost var p := ParseUnary(src, pos);
      r := ParseOperand();
      if r == Err { return; }
      r := CompareWith(r.value, p.tree);
    }

    /** The comparison after its left operand. `==` and `!=` are decided; the ordering ones are
        read and yield unknown. */
    method CompareWith(left: Val, ghost l: Expr) returns (r: Answer)
      requires Valid() && left == Abs(l, event)
      modifies this`pos
      ensures Valid() && Reads(CmpTail(l, src, old(pos)), r)
      decreases |src| - pos, 8
    {
      ghost var j := pos;
      SkippedStart(src, j);
      var yes := Eat("==");
      if yes {
        r := RightOperand(Eq, left, l);
        return;
      }
      yes := Eat("!=");
      if yes {
        r := RightOperand(Ne, left, l);
        return;
      }
      r := OrderWith(left, l, j);
    }

    method OrderWith(left: Val, ghost l: Expr, ghost j: nat) returns (r: Answer)
      requires Valid() && j <= |src| && pos == SkipWs(src, j) && left == Abs(l, event)
      requires !Peek(src, j, "==") && !Peek(src, j, "!=")
      modifies this`pos
      ensures Valid() && Reads(CmpTail(l, src, j), r)
      decreases |src| - pos, 6
    {
      SkippedStart(src, j);
      var ops := [("<=", Le), (">=", Ge), ("<", Lt), (">", Gt)];
      for k := 0 to 4
        invariant pos == SkipWs(src, j)
        invariant forall m | 0 <= m < k :: !Peek(src, j, ops[m].0)
      {
        var yes := Eat(ops[k].0);
        if yes {
          assert CmpAt(src, j) == ops[k] by {
            assert k > 0 ==> !Peek(src, j, ops[0].0);
            assert k > 1 ==> !Peek(src, j, ops[1].0);
            assert k > 2 ==> !Peek(src, j, ops[2].0);
          }
          r := RightOperand(ops[k].1, left, l);
          return;
        }
      }
      assert CmpAt(src, j).0 == "" by {
        assert !Peek(src, j, ops[0].0) && !Peek(src, j, ops[1].0);
        assert !Peek(src, j, ops[2].0) && !Peek(src, j, ops[3].0);
      }
      r := Ok(left);
    }

    method RightOperand(op: CmpOp, left: Val, ghost l: Expr) returns (r: Answer)
      requires Valid() && left == Abs(l, event)
      modifies this`pos
      ensures Valid()
      ensures Reads(match ParseUnary(src, old(pos)) case Fail => Fail case Done(x, end) => Done(Cmp(op, l, x), end), r)
      decreases |src| - pos, 5
    {
      r := ParseOperand();
      if r.Ok? { r := Ok(CmpVal(op, left, r.value)); }
    }

    method ParseOperand() returns (r: Answer)
      requires Valid()
      modifies this`pos
      ensures Valid() && Reads(ParseUnary(src, old(pos)), r)
      decreases |src| - pos, 4
    {
      ghost var start := pos;
      SkippedStart(src, start);
      Skip();
      var bang := Sees("!");
      if bang {
        var differs := Sees("!=");
        if !differs {
          pos := pos + 1;
          r := ParseOperand();
          if r.Ok? { r := Ok(FromTruth(TruthOf(r.value).Not())); }
          return;
        }
      }
      PrimarySkips(src, SkipWs(src, start), start);
      r := ParseAtom();
    }

    method ParseAtom() returns (r: Answer)
      requires Valid()
      modifies this`pos
      ensures Valid() && Reads(ParsePrimary(src, old(pos)), r)
      decreases |src| - pos, 3
    {
      ghost var start := pos;
      Skip();
      if pos >= |src| { return Err; }
      SkippedStart(src, start);
      var open := Eat("(");
      if open {
        r := ParseGroup();
        return;
      }
      var c := src[pos];
      if c == '\'' {
        r := ParseString();
        return;
      }
      if IsDigit(c) {
        SkipNumber();
        return Ok(UnknownVal);
      }
      if IsAlpha(c) || c == '_' {
        r := ParsePathOrCall();
        return;
      }
      r := Err;
    }

    method ParseGroup() returns (r: Answer)
      requires Valid()
      modifies this`pos
      ensures Valid() && Reads(Group(src, old(pos)), r)
      decreases |src| - pos, 10
    {
      r := ParseExpr();
      if r == Err { return; }
      var close := Eat(")");
      if !close { r := Err; }
    }

    method SkipNumber()
      requires Valid()
      modifies this`pos
      ensures Valid() && pos == Span(src, old(pos), IsNumChar)
    {
      while pos < |src| && (IsDigit(src[pos]) || src[pos] == '.')
        invariant old(pos) <= pos <= |src|
        invariant Span(src, pos, IsNumChar) == Span(src, old(pos), IsNumChar)
      {
        pos := pos + 1;
      }
    }

    method ParseString() returns (r: Answer)
      requires Valid() && pos < |src| && src[pos] == '\''
      modifies this`pos
      ensures Valid()
      ensures match Quoted(src, old(pos) + 1)
              case Fail => r == Err
              case Done(text, end) => r == Ok(StrVal(text)) && pos == end
    {
      pos := pos + 1;
      ghost var p := Quoted(src, pos);
      var out := "";
      ContinuesFrom(p);
      while pos < |src|
        invariant old(pos) < pos <= |src|
        invariant Continues(out, Quoted(src, pos), p)
      {
        ghost var here := Quoted(src, pos);
        if src[pos] == '\'' {
          if pos + 1 < |src| && src[pos + 1] == '\'' {
            ContinuesAfter(out, '\'', here, Quoted(src, pos + 2), p);
            out := out + ['\''];
            pos := pos + 2;
            continue;
          }
          pos := pos + 1;
          assert out + "" == out;
          return Ok(StrVal(out));
        }
        ContinuesAfter(out, src[pos], here, Quoted(src, pos + 1), p);
        out := out + [src[pos]];
        pos := pos + 1;
      }
      r := Err;
    }

    method ParsePathOrCall() returns (r: Answer)
      requires Valid() && pos < |src| && IsPathStart(src[pos])
      modifies this`pos
      ensures Valid()
      ensures var end := Span(src, old(pos), IsPathChar);
              Reads(AfterPath(src[old(pos)..end], src, end), r)
      decreases |src| - pos, 2
    {
      var start := pos;
      while pos < |src| && (IsAlpha(src[pos]) || IsDigit(src[pos]) || src[pos] == '_'
                            || src[pos] == '-' || src[pos] == '.')
        invariant start <= pos <= |src|
        invariant Span(src, pos, IsPathChar) == Span(src, start, IsPathChar)
      {
        pos := pos + 1;
      }
      var path := src[start..pos];
      assert start < pos;
      var isCall := Sees("(");
      if isCall {
        pos := pos + 1;
        r := ParseCall(path);
        return;
      }
      r := Ok(PathVal(path, event));
    }

    /** A call from after its opening parenthesis. */
    method ParseCall(path: string) returns (r: Answer)
      requires Valid()
      modifies this`pos
      ensures Valid() && Reads(Arguments(path, src, old(pos)), r)
      decreases |src| - pos, 12
    {
      ghost var start := pos;
      var empty := Eat(")");
      if empty { return Ok(CallVal(path, [])); }
      SkippedStart(src, start);
      ArgsSkip(src, SkipWs(src, start), start);
      r := ParseArguments(path);
    }

    /** The argument loop of a call. */
    method ParseArguments(path: string) returns (r: Answer)
      requires Valid()
      modifies this`pos
      ensures Valid()
      ensures match ParseArgs(src, old(pos))
              case Fail => r == Err
              case Done(es, end) => r == Ok(CallVal(path, AbsAll(es, event))) && pos == end
      decreases |src| - pos, 11
    {
      ghost var p := ParseArgs(src, pos);
      var args: seq<Val> := [];
      ghost var es: seq<Expr> := [];
      ContinuesFrom(p);
      while true
        invariant Valid() && old(pos) <= pos
        invariant args == AbsAll(es, event)
        invariant Continues(es, ParseArgs(src, pos), p)
        decreases |src| - pos
      {
        ghost var here := pos;
        ghost var q := ParseOr(src, pos);
        var arg := ParseExpr();
        if arg == Err { return Err; }
        ghost var j := pos;
        SkippedStart(src, j);
        AbsAllAppend(es, q.tree);
        args := args + [arg.value];
        var comma := Eat(",");
        if comma {
          ContinuesAfter(es, q.tree, ParseArgs(src, here), ParseArgs(src, pos), p);
          es := es + [q.tree];
          continue;
        }
        es := es + [q.tree];
        var close := Eat(")");
        if close { return Ok(CallVal(path, args)); }
        return Err;
      }
    }

    lemma AbsAllAppend(es: seq<Expr>, e: Expr)
      ensures AbsAll(es + [e], event) == AbsAll(es, event) + [Abs(e, event)]
    {
      if es != [] {
        AbsAllAppend(es[1..], e);
        assert (es + [e])[1..] == es[1..] + [e];
      }
    }

  }

  /** `p` is what `tail` reads, after the pieces `read` already. */
  predicate Continues<T(==)>(read: seq<T>, tail: Parse<seq<T>>, p: Parse<seq<T>>) {
    match tail
    case Fail => p == Fail
    case Done(more, end) => p == Done(read + more, end)
  }

  lemma ContinuesFrom<T>(p: Parse<seq<T>>)
    ensures Continues([], p, p)
  {
    if p.Done? { assert [] + p.tree == p.tree; }
  }

  lemma ContinuesAfter<T>(read: seq<T>, x: T, before: Parse<seq<T>>, tail: Parse<seq<T>>, p: Parse<seq<T>>)
    requires Continues(read, before, p)
    requires Continues([x], tail, before)
    ensures Continues(read + [x], tail, p)
  {
    if tail.Done? { assert read + ([x] + tail.tree) == read + [x] + tail.tree; }
  }
}
