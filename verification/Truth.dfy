/** Strong Kleene truth, the algebra both gates rest on (`xtask/src/truth.rs`). */
module Truths {
  datatype Truth = True | False | Unknown {
    function Not(): Truth {
      match this
      case True => False
      case False => True
      case Unknown => Unknown
    }

    function And(other: Truth): Truth {
      if this == False || other == False then False
      else if this == True && other == True then True
      else Unknown
    }

    function Or(other: Truth): Truth {
      if this == True || other == True then True
      else if this == False && other == False then False
      else Unknown
    }

    static function Of(known: bool): Truth {
      if known then True else False
    }
  }

  /** `b` is a completion of `t`: what `t` may turn out to be. */
  predicate Covers(t: Truth, b: bool) {
    t == Unknown || t == Truth.Of(b)
  }

  /** A connective applied to truths is the best abstraction of the boolean connective: it is
      decided exactly when every completion of its operands gives that same answer. */
  lemma ConnectivesAreBest(a: Truth, b: Truth, v: bool)
    ensures a.And(b) == Truth.Of(v) <==> forall x, y | Covers(a, x) && Covers(b, y) :: (x && y) == v
    ensures a.Or(b) == Truth.Of(v) <==> forall x, y | Covers(a, x) && Covers(b, y) :: (x || y) == v
    ensures a.Not() == Truth.Of(v) <==> forall x | Covers(a, x) :: !x == v
  {
    var p, q := a != False, b != False;
    assert Covers(a, p) && Covers(b, q);
    var p', q' := a == True, b == True;
    assert Covers(a, p') && Covers(b, q');
  }
}
