/** Removing the parenthesis wrappers around an expression (the package's Expr helper). */
module Parens {
  import opened Ast

  /** The node reached once every enclosing PExpr has been unwrapped. */
  function Innermost(e: Expr): (r: Expr)
    ensures !r.PExpr?
    ensures r == e || r < e
  {
    if e.PExpr? then Innermost(e.expr) else e
  }

  /** The number of PExpr layers around the innermost node. */
  function ParenDepth(e: Expr): nat
  {
    if e.PExpr? then 1 + ParenDepth(e.expr) else 0
  }

  /** e wrapped in k parentheses. */
  function Wrap(k: nat, e: Expr): Expr
  {
    if k == 0 then e else PExpr(Wrap(k - 1, e))
  }

  /** Expr: the loop that replaces e by its wrapped node until e is no longer a PExpr. */
  method StripParens(v: Expr) returns (e: Expr)
    ensures !e.PExpr?
    ensures e == Innermost(v)
  {
    e := v;
    while e.PExpr?
      invariant Innermost(e) == Innermost(v)
      decreases e
    {
      e := e.expr;
    }
  }

  /** Stripping undoes any number of wrappings. */
  lemma {:induction false} InnermostOfWrap(k: nat, e: Expr)
    ensures Innermost(Wrap(k, e)) == Innermost(e)
  {
    if k > 0 {
      InnermostOfWrap(k - 1, e);
    }
  }

  /** Wrapping a non-parenthesised node k times and stripping gives the node back. */
  lemma {:induction false} WrapThenStrip(k: nat, e: Expr)
    requires !e.PExpr?
    ensures Innermost(Wrap(k, e)) == e
  {
    InnermostOfWrap(k, e);
  }

  /** Every expression is its innermost node under exactly ParenDepth parentheses. */
  lemma {:induction false} StripThenWrap(e: Expr)
    ensures Wrap(ParenDepth(e), Innermost(e)) == e
  {
    if e.PExpr? {
      StripThenWrap(e.expr);
    }
  }

  /** Stripping is idempotent. */
  lemma InnermostIdempotent(e: Expr)
    ensures Innermost(Innermost(e)) == Innermost(e)
  {
  }
}
