/** Constant folding and quick evaluation of single nodes, over the per-node evaluator. */
module Folding {
  import opened Base
  import opened Ast

  /**
   * The per-node methods defined outside this file, under one context and environment:
   * IsStatic, and Eval, which yields a value or fails.
   */
  datatype Evaluator = Evaluator(isStatic: Expr -> bool, eval: Expr -> Reply<Datum>)

  /** Expression.IsStatic; a literal Value is always static. */
  predicate IsStatic(ev: Evaluator, e: Expr)
  {
    e.Value? || ev.isStatic(e)
  }

  /** Expression.Eval; a literal Value evaluates to the value it holds. */
  function Eval(ev: Evaluator, e: Expr): (r: Result<Datum>)
    ensures e.Value? ==> r == Ok(e.val)
  {
    if e.Value? then Ok(e.val) else Lift(ev.eval(e))
  }

  /** staticExpr: a static node is replaced by the literal holding its value (nil included); any other node is kept. */
  function StaticExpr(ev: Evaluator, e: Expr): (r: Result<Expr>)
    ensures !IsStatic(ev, e) ==> r == Ok(e)
    ensures IsStatic(ev, e) ==> (r.Ok? <==> Eval(ev, e).Ok?)
    ensures IsStatic(ev, e) && r.Ok? ==> r.value.Value? && Eval(ev, r.value) == Eval(ev, e)
    ensures r.Err? ==> r == Err(Eval(ev, e).error)
  {
    if IsStatic(ev, e) then
      match Eval(ev, e)
      case Err(err) => Err(err)
      case Ok(v) => if v == Null then Ok(Value(Null)) else Ok(Value(v))
    else Ok(e)
  }

  /** Folding is idempotent: a folded node folds to itself. */
  lemma StaticExprIdempotent(ev: Evaluator, e: Expr)
    requires StaticExpr(ev, e).Ok?
    ensures StaticExpr(ev, StaticExpr(ev, e).value) == StaticExpr(ev, e)
  {
  }

  /** A static node whose value is nil folds to the nil literal. */
  lemma StaticExprOfNil(ev: Evaluator, e: Expr)
    requires IsStatic(ev, e) && Eval(ev, e) == Ok(Null)
    ensures StaticExpr(ev, e) == Ok(Value(Null))
  {
  }

  /** The Go `Eval` helper's panic becomes this precondition: a static +/- node evaluates without error. */
  predicate FastEvalDefined(ev: Evaluator, v: Operand)
  {
    (v.OfExpr? && v.e.UnaryOperation? && (v.e.op == Plus || v.e.op == Minus) && IsStatic(ev, v.e)) ==>
      Eval(ev, v.e).Ok?
  }

  /** FastEval: the value of a literal, a bare integer itself, a static +/- unary node evaluated, nil otherwise. */
  function FastEval(ev: Evaluator, v: Operand): (r: Datum)
    requires FastEvalDefined(ev, v)
    ensures v.OfExpr? && v.e.Value? ==> r == v.e.val
    ensures v.OfDatum? && (v.d.Int64? || v.d.Uint64?) ==> r == v.d
    ensures v.OfExpr? && v.e.UnaryOperation? && !(v.e.op == Plus || v.e.op == Minus) ==> r == Null
    ensures v.OfExpr? && v.e.UnaryOperation? && !IsStatic(ev, v.e) ==> r == Null
    ensures r != Null && !(v.OfExpr? && v.e.Value?) && !(v.OfDatum? && (v.d.Int64? || v.d.Uint64?)) ==>
      v.OfExpr? && v.e.UnaryOperation? && IsStatic(ev, v.e) && Eval(ev, v.e) == Ok(r)
  {
    match v
    case OfExpr(Value(d)) => d
    case OfDatum(Int64(_)) => v.d
    case OfDatum(Uint64(_)) => v.d
    case OfExpr(UnaryOperation(op, _)) =>
      if op != Plus && op != Minus then Null
      else if !IsStatic(ev, v.e) then Null
      else Eval(ev, v.e).value
    case _ => Null
  }

  /** Where FastEval evaluates a node, it yields the literal that folding the node produces. */
  lemma FastEvalAgreesWithFolding(ev: Evaluator, e: Expr)
    requires e.Value? || (e.UnaryOperation? && (e.op == Plus || e.op == Minus) && IsStatic(ev, e))
    requires FastEvalDefined(ev, OfExpr(e))
    ensures StaticExpr(ev, e) == Ok(Value(FastEval(ev, OfExpr(e))))
  {
  }

  /** EvalBoolExpr: the evaluation error, false for nil, otherwise the value's truth as types.ToBool judges it. */
  function EvalBoolExpr(ev: Evaluator, toBool: Datum -> Reply<int>, e: Expr): (r: Result<bool>)
    ensures Eval(ev, e).Err? ==> r == Err(Eval(ev, e).error)
    ensures Eval(ev, e) == Ok(Null) ==> r == Ok(false)
    ensures Eval(ev, e).Ok? && Eval(ev, e).value != Null && toBool(Eval(ev, e).value).Failed? ==>
      r == Err(Foreign(toBool(Eval(ev, e).value).code))
    ensures Eval(ev, e).Ok? && Eval(ev, e).value != Null && toBool(Eval(ev, e).value).Done? ==>
      r == Ok(toBool(Eval(ev, e).value).value != 0)
    ensures r == Ok(true) <==>
      Eval(ev, e).Ok? && Eval(ev, e).value != Null && toBool(Eval(ev, e).value).Done? && toBool(Eval(ev, e).value).value != 0
  {
    match Eval(ev, e)
    case Err(err) => Err(err)
    case Ok(v) =>
      if v == Null then Ok(false)
      else match Lift(toBool(v))
        case Err(err) => Err(err)
        case Ok(x) => Ok(x != 0)
  }

  /** Folding a static node does not change what it evaluates to as a condition. */
  lemma EvalBoolExprOfFolded(ev: Evaluator, toBool: Datum -> Reply<int>, e: Expr)
    requires StaticExpr(ev, e).Ok?
    ensures EvalBoolExpr(ev, toBool, StaticExpr(ev, e).value) == EvalBoolExpr(ev, toBool, e)
  {
  }

  /** The nil literal is false as a condition, whatever the boolean conversion does. */
  lemma NilIsFalse(ev: Evaluator, toBool: Datum -> Reply<int>)
    ensures EvalBoolExpr(ev, toBool, Value(Null)) == Ok(false)
  {
  }
}
