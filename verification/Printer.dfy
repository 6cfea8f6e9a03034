/** A printer for the condition language. What it prints is a way to write the tree, so the reader
    reads it back as the tree it was: the precedence of the operators, their association to the left,
    the doubling of quotes and the places where parentheses are needed. */
module Printer {
  import opened Text
  import opened IfExpr
  import opened Grammar
  import opened Syntaxes

  /** How tightly the outermost construct binds: or, and, comparison, not, atom. */
  function Level(e: Expr): nat {
    match e
    case Or(_, _) => 0
    case And(_, _) => 1
    case Cmp(_, _, _) => 2
    case Not(_) => 3
    case _ => 4
  }

  predicate WellFormed(e: Expr) {
    match e
    case Str(_) => true
    case Num(d) => IsNumeral(d)
    case Path(p) => IsPath(p)
    case Call(name, args) => IsPath(name) && forall a | a in args :: WellFormed(a)
    case Not(x) => WellFormed(x)
    case Cmp(_, l, r) => WellFormed(l) && WellFormed(r)
    case And(l, r) => WellFormed(l) && WellFormed(r)
    case Or(l, r) => WellFormed(l) && WellFormed(r)
  }

  function Spaced(tok: string): string { " " + tok + " " }

  /** The text of `e` where a construct of at least `level` is expected. */
  function Print(e: Expr, level: nat): string
    decreases e, 2
  {
    if Level(e) < level then "(" + Body(e) + ")" else Body(e)
  }

  function Body(e: Expr): string
    decreases e, 1
  {
    match e
    case Str(t) => "'" + Doubled(t) + "'"
    case Num(d) => d
    case Path(p) => p
    case Call(name, args) => name + "(" + PrintAll(args) + ")"
    case Not(x) => "!" + Print(x, 3)
    case Cmp(op, l, r) => Print(l, 3) + Spaced(OpText(op)) + Print(r, 3)
    case And(l, r) => Print(l, 1) + Spaced("&&") + Print(r, 2)
    case Or(l, r) => Print(l, 0) + Spaced("||") + Print(r, 1)
  }

  function PrintAll(es: seq<Expr>): string
    decreases es, 0
  {
    if es == [] then ""
    else if |es| == 1 then Print(es[0], 0)
    else Print(es[0], 0) + ", " + PrintAll(es[1..])
  }

  // ---- what is printed is in the language ------------------------------------------------

  /** The concrete syntax that is printed for a tree. */
  function Printed(e: Expr, level: nat): Syntax
    decreases e, 2
  {
    if Level(e) < level then Parens("", Plain(e), "") else Plain(e)
  }

  function Plain(e: Expr): Syntax
    decreases e, 1
  {
    match e
    case Str(_) => Word("", e, "")
    case Num(_) => Word("", e, "")
    case Path(_) => Word("", e, "")
    case Call(name, args) => Applied("", name, "", PrintedAll(args), "", "")
    case Not(x) => Bang("", Printed(x, 3))
    case Cmp(op, l, r) => Infix(Trailed(Printed(l, 3), " "), CmpSign(op), Led(Printed(r, 3), " "))
    case And(l, r) => Infix(Trailed(Printed(l, 1), " "), AndSign, Led(Printed(r, 2), " "))
    case Or(l, r) => Infix(Trailed(Printed(l, 0), " "), OrSign, Led(Printed(r, 1), " "))
  }

  function PrintedAll(es: seq<Expr>): (cs: seq<Syntax>)
    ensures |cs| == |es|
    decreases es, 0
  {
    if es == [] then [] else [Printed(es[0], 0)] + SpacedAll(es[1..])
  }

  function SpacedAll(es: seq<Expr>): (cs: seq<Syntax>)
    ensures |cs| == |es|
    decreases es, 0
  {
    if es == [] then [] else [Led(Printed(es[0], 0), " ")] + SpacedAll(es[1..])
  }

  /** The printed text is a way to write the tree. */
  lemma {:induction false} PrintedWrites(e: Expr, level: nat)
    requires WellFormed(e) && level <= 4
    ensures Writes(Printed(e, level), level, e, Print(e, level))
    decreases e, 2
  {
    PlainWrites(e);
    if Level(e) < level {
      Bare("(" + Body(e) + ")");
      FitsLooser(Plain(e), Level(e), 0);
    } else {
      FitsLooser(Plain(e), Level(e), level);
    }
  }

  lemma {:induction false} PlainWrites(e: Expr)
    requires WellFormed(e)
    ensures Writes(Plain(e), Level(e), e, Body(e))
    decreases e, 1
  {
    match e
    case Str(t) => Bare(WordText(e));
    case Num(d) => Bare(d);
    case Path(p) => Bare(p);
    case Call(name, args) => CallWrites(name, args);
    case Not(x) =>
      PrintedWrites(x, 3);
      Bare(Print(x, 3));
    case Cmp(op, l, r) => InfixWrites(e, l, 3, CmpSign(op), r, 3);
    case And(l, r) => InfixWrites(e, l, 1, AndSign, r, 2);
    case Or(l, r) => InfixWrites(e, l, 0, OrSign, r, 1);
  }

  lemma {:induction false} InfixWrites(e: Expr, l: Expr, left: nat, sign: Connector, r: Expr, right: nat)
    requires (e.Cmp? || e.And? || e.Or?) && e.left == l && e.right == r && WellFormed(l) && WellFormed(r) && left <= 4 && right <= 4
    ensures Writes(Trailed(Printed(l, left), " "), left, l, Print(l, left) + " ")
    ensures Writes(Led(Printed(r, right), " "), right, r, " " + Print(r, right))
    ensures (Print(l, left) + " ") + Sign(sign) + (" " + Print(r, right)) == Print(l, left) + Spaced(Sign(sign)) + Print(r, right)
    decreases e, 0
  {
    PrintedWrites(l, left);
    PrintedWrites(r, right);
    TrailedWrites(Printed(l, left), left, l, Print(l, left), " ");
    LedWrites(Printed(r, right), right, r, Print(r, right), " ");
    SetInSpaces(Print(l, left), Sign(sign), Print(r, right));
  }

  lemma SetInSpaces(a: string, tok: string, b: string)
    ensures (a + " ") + tok + (" " + b) == a + Spaced(tok) + b
  {
  }

  lemma {:induction false} CallWrites(name: string, args: seq<Expr>)
    requires IsPath(name) && forall a | a in args :: WellFormed(a)
    ensures Writes(Plain(Call(name, args)), 4, Call(name, args), name + "(" + PrintAll(args) + ")")
    decreases Call(name, args), 0
  {
    AllWrite(args);
    BareCall(name, PrintAll(args));
  }

  lemma BareCall(name: string, inner: string)
    ensures "" + (name + "" + "(" + inner + ")") + "" == name + "(" + inner + ")"
  {
    assert name + "" == name;
  }

  lemma {:induction false} AllWrite(es: seq<Expr>)
    requires forall a | a in es :: WellFormed(a)
    ensures (forall c | c in PrintedAll(es) :: Fits(c, 0)) && TreesOf(PrintedAll(es)) == es
    ensures PrintAll(es) == if es == [] then "" else ArgsText(PrintedAll(es))
    decreases es, 3
  {
    if es != [] {
      PrintedWrites(es[0], 0);
      SpacedWrite(es[1..]);
      ListWrites(Printed(es[0], 0), SpacedAll(es[1..]), Print(es[0], 0), es[0], es[1..], PrintAll(es[1..]));
      PrintedList(es, Print(es[0], 0), PrintAll(es[1..]));
    }
  }

  lemma {:induction false} SpacedWrite(es: seq<Expr>)
    requires forall a | a in es :: WellFormed(a)
    ensures (forall c | c in SpacedAll(es) :: Fits(c, 0)) && TreesOf(SpacedAll(es)) == es
    ensures es != [] ==> ArgsText(SpacedAll(es)) == " " + PrintAll(es)
    decreases es, 3
  {
    if es != [] {
      PrintedWrites(es[0], 0);
      LedWrites(Printed(es[0], 0), 0, es[0], Print(es[0], 0), " ");
      SpacedWrite(es[1..]);
      ListWrites(Led(Printed(es[0], 0), " "), SpacedAll(es[1..]), " " + Print(es[0], 0), es[0], es[1..], PrintAll(es[1..]));
      PrintedList(es, Print(es[0], 0), PrintAll(es[1..]));
    }
  }

  lemma PrintedList(es: seq<Expr>, first: string, rest: string)
    requires es != [] && first == Print(es[0], 0) && rest == PrintAll(es[1..])
    ensures es == [es[0]] + es[1..] && PrintAll(es) == first + if |es| == 1 then "" else ", " + rest
    ensures (" " + first) + (if |es| == 1 then "" else ", " + rest) == " " + PrintAll(es)
  {
    Associate(first, ", ", rest);
    Associate(" ", first, if |es| == 1 then "" else ", " + rest);
    Bare(first);
  }

  lemma Bare(t: string)
    ensures t + "" == t && "" + t + "" == t && "" + "!" + t == "!" + t
  {
  }

  lemma ListWrites(c: Syntax, cs: seq<Syntax>, t: string, e: Expr, es: seq<Expr>, rest: string)
    requires Writes(c, 0, e, t) && (forall d | d in cs :: Fits(d, 0)) && TreesOf(cs) == es && (cs != [] ==> ArgsText(cs) == " " + rest)
    ensures (forall d | d in [c] + cs :: Fits(d, 0)) && TreesOf([c] + cs) == [e] + es
    ensures ArgsText([c] + cs) == t + if cs == [] then "" else ", " + rest
  {
    FirstOfList(c, cs);
    assert t + "," + (" " + rest) == t + (", " + rest);
    if cs == [] { assert [c] + cs == [c]; }
  }

  /** A printed tree starts with a byte of its own: no space, no `=`; and with `!` only for not. */
  lemma {:induction false} StartsWell(e: Expr, level: nat)
    requires WellFormed(e)
    ensures Print(e, level) != [] && !IsSpaceByte(Print(e, level)[0]) && Print(e, level)[0] !in "=),$"
    ensures Print(e, level)[0] < 128 as char
    ensures Level(e) == 4 && level <= 4 ==> Print(e, level)[0] != '!'
    decreases e, 2
  {
    if Level(e) >= level {
      match e
      case Cmp(_, l, _) => StartsWell(l, 3);
      case And(l, _) => StartsWell(l, 1);
      case Or(l, _) => StartsWell(l, 0);
      case _ =>
    }
  }
}
