/** How many columns an operand yields, and the checks comparisons and IN lists make with it. */
module Arity {
  import opened Base
  import opened Ast

  /** SubQuery.ColumnCount: the catalog's column count for a subquery handle, or its failure. */
  type Resolver = int -> Reply<int>

  /** columnCount: a Row yields its width (an error below two), a subquery what the catalog says, anything else 1. */
  function ColumnCount(resolve: Resolver, e: Expr): (r: Result<int>)
    ensures e.Row? && |e.values| >= 2 ==> r == Ok(|e.values|)
    ensures e.Row? && |e.values| <= 1 ==> r == Err(RowTooFewColumns)
    ensures e.SubQuery? ==> r == Lift(resolve(e.query))
    ensures !e.Row? && !e.SubQuery? ==> r == Ok(1)
  {
    match e
    case Row(vs) => if |vs| <= 1 then Err(RowTooFewColumns) else Ok(|vs|)
    case SubQuery(q) => Lift(resolve(q))
    case _ => Ok(1)
  }

  /** Only a Row or a subquery can fail or yield other than one column; a Row never yields fewer than two. */
  lemma ColumnCountShape(resolve: Resolver, e: Expr)
    ensures ColumnCount(resolve, e) != Ok(1) ==> e.Row? || e.SubQuery?
    ensures e.Row? && ColumnCount(resolve, e).Ok? ==> ColumnCount(resolve, e).value >= 2
    ensures e.Row? ==> ColumnCount(resolve, e) != Ok(1)
  {
  }

  /** CheckOneColumn: Pass exactly when the operand yields one column; otherwise the count's error or a mismatch against 1. */
  function CheckOneColumn(resolve: Resolver, e: Expr): (r: Outcome)
    ensures r == Pass <==> ColumnCount(resolve, e) == Ok(1)
    ensures ColumnCount(resolve, e).Err? ==> r == Fail(ColumnCount(resolve, e).error)
    ensures ColumnCount(resolve, e).Ok? && ColumnCount(resolve, e).value != 1 ==> r == Fail(ColumnCountMismatch(1))
  {
    match ColumnCount(resolve, e)
    case Err(err) => Fail(err)
    case Ok(n) => if n != 1 then Fail(ColumnCountMismatch(1)) else Pass
  }

  /** The single-column check by shape: no Row passes, a subquery passes when the catalog reports one column, all else passes. */
  lemma CheckOneColumnByShape(resolve: Resolver, e: Expr)
    ensures CheckOneColumn(resolve, e) == Pass <==> !e.Row? && (e.SubQuery? ==> resolve(e.query) == Done(1))
  {
  }

  /** The outcome CheckAllOneColumns promises: the first failing operand's error, or Pass. */
  function AllOneColumns(resolve: Resolver, args: seq<Expr>): Outcome
  {
    if args == [] then Pass
    else if CheckOneColumn(resolve, args[0]).Fail? then CheckOneColumn(resolve, args[0])
    else AllOneColumns(resolve, args[1..])
  }

  /** AllOneColumns passes iff every operand passes; a failure is the error of the first failing operand. */
  lemma {:induction false} AllOneColumnsFirstFailure(resolve: Resolver, args: seq<Expr>)
    ensures AllOneColumns(resolve, args) == Pass <==>
      forall i :: 0 <= i < |args| ==> CheckOneColumn(resolve, args[i]) == Pass
    ensures AllOneColumns(resolve, args).Fail? ==>
      exists k :: 0 <= k < |args| && AllOneColumns(resolve, args) == CheckOneColumn(resolve, args[k]) &&
        forall j :: 0 <= j < k ==> CheckOneColumn(resolve, args[j]) == Pass
  {
    if args != [] && CheckOneColumn(resolve, args[0]) == Pass {
      var rest := args[1..];
      AllOneColumnsFirstFailure(resolve, rest);
      if AllOneColumns(resolve, rest).Fail? {
        var k :| 0 <= k < |rest| && AllOneColumns(resolve, rest) == CheckOneColumn(resolve, rest[k]) &&
          forall j :: 0 <= j < k ==> CheckOneColumn(resolve, rest[j]) == Pass;
        assert args[k + 1] == rest[k];
        assert forall j :: 0 < j < k + 1 ==> args[j] == rest[j - 1];
      }
    }
  }

  /** Operands after the first failing one are never consulted. */
  lemma {:induction false} AllOneColumnsStopsAtFailure(resolve: Resolver, args: seq<Expr>, later: seq<Expr>)
    requires AllOneColumns(resolve, args).Fail?
    ensures AllOneColumns(resolve, args + later) == AllOneColumns(resolve, args)
  {
    assert args != [];
    assert (args + later)[0] == args[0];
    if CheckOneColumn(resolve, args[0]) == Pass {
      assert (args + later)[1..] == args[1..] + later;
      AllOneColumnsStopsAtFailure(resolve, args[1..], later);
    }
  }

  /** CheckAllOneColumns: checks each operand in turn and returns at the first failure. */
  method CheckAllOneColumns(resolve: Resolver, args: seq<Expr>) returns (r: Outcome)
    ensures r == AllOneColumns(resolve, args)
  {
    var i := 0;
    while i < |args|
      invariant 0 <= i <= |args|
      invariant AllOneColumns(resolve, args) == AllOneColumns(resolve, args[i..])
    {
      var err := CheckOneColumn(resolve, args[i]);
      if err.Fail? {
        return err;
      }
      assert args[i..][1..] == args[i + 1..];
      i := i + 1;
    }
    return Pass;
  }

  /** The outcome of comparing each operand's column count with the reference count l. */
  function MatchColumnCount(resolve: Resolver, l: int, args: seq<Expr>): Outcome
  {
    if args == [] then Pass
    else match ColumnCount(resolve, args[0])
      case Err(err) => Fail(err)
      case Ok(n) => if n != l then Fail(ColumnCountMismatch(l)) else MatchColumnCount(resolve, l, args[1..])
  }

  /** The outcome hasSameColumnCount promises: the reference's error first, then the first operand that errs or differs. */
  function SameColumnCount(resolve: Resolver, e: Expr, args: seq<Expr>): Outcome
  {
    match ColumnCount(resolve, e)
    case Err(err) => Fail(err)
    case Ok(l) => MatchColumnCount(resolve, l, args)
  }

  /**
   * Comparing against l passes iff every operand yields exactly l columns; a failure comes from the
   * first operand that does not, and is that operand's error or a mismatch naming l.
   */
  lemma {:induction false} MatchColumnCountFirstFailure(resolve: Resolver, l: int, args: seq<Expr>)
    ensures MatchColumnCount(resolve, l, args) == Pass <==>
      forall i :: 0 <= i < |args| ==> ColumnCount(resolve, args[i]) == Ok(l)
    ensures MatchColumnCount(resolve, l, args).Fail? ==>
      exists k :: 0 <= k < |args| && ColumnCount(resolve, args[k]) != Ok(l) &&
        (forall j :: 0 <= j < k ==> ColumnCount(resolve, args[j]) == Ok(l)) &&
        MatchColumnCount(resolve, l, args) ==
          (if ColumnCount(resolve, args[k]).Err? then Fail(ColumnCount(resolve, args[k]).error)
           else Fail(ColumnCountMismatch(l)))
  {
    if args != [] && ColumnCount(resolve, args[0]) == Ok(l) {
      var rest := args[1..];
      MatchColumnCountFirstFailure(resolve, l, rest);
      if MatchColumnCount(resolve, l, rest).Fail? {
        var k :| 0 <= k < |rest| && ColumnCount(resolve, rest[k]) != Ok(l) &&
          (forall j :: 0 <= j < k ==> ColumnCount(resolve, rest[j]) == Ok(l)) &&
          MatchColumnCount(resolve, l, rest) ==
            (if ColumnCount(resolve, rest[k]).Err? then Fail(ColumnCount(resolve, rest[k]).error)
             else Fail(ColumnCountMismatch(l)));
        assert args[k + 1] == rest[k];
        assert forall j :: 0 < j < k + 1 ==> args[j] == rest[j - 1];
      }
    }
  }

  /** A mismatch error always names the reference operand's column count. */
  lemma SameColumnCountMismatchNamesReference(resolve: Resolver, e: Expr, args: seq<Expr>, x: int)
    requires SameColumnCount(resolve, e, args) == Fail(ColumnCountMismatch(x))
    ensures ColumnCount(resolve, e) == Ok(x)
  {
    if ColumnCount(resolve, e).Ok? {
      MatchColumnCountFirstFailure(resolve, ColumnCount(resolve, e).value, args);
    }
  }

  /** Operands after the first one that errs or differs are never consulted. */
  lemma {:induction false} SameColumnCountStopsAtFailure(resolve: Resolver, e: Expr, args: seq<Expr>, later: seq<Expr>)
    requires SameColumnCount(resolve, e, args).Fail?
    ensures SameColumnCount(resolve, e, args + later) == SameColumnCount(resolve, e, args)
  {
    if ColumnCount(resolve, e).Ok? {
      MatchStopsAtFailure(resolve, ColumnCount(resolve, e).value, args, later);
    }
  }

  /** Comparing against a fixed count stops at the first operand that errs or differs. */
  lemma {:induction false} MatchStopsAtFailure(resolve: Resolver, l: int, args: seq<Expr>, later: seq<Expr>)
    requires MatchColumnCount(resolve, l, args).Fail?
    ensures MatchColumnCount(resolve, l, args + later) == MatchColumnCount(resolve, l, args)
  {
    assert args != [];
    assert (args + later)[0] == args[0];
    if ColumnCount(resolve, args[0]) == Ok(l) {
      assert (args + later)[1..] == args[1..] + later;
      MatchStopsAtFailure(resolve, l, args[1..], later);
    }
  }

  /** hasSameColumnCount: the reference's count first, then each operand's, returning at the first error or mismatch. */
  method HasSameColumnCount(resolve: Resolver, e: Expr, args: seq<Expr>) returns (r: Outcome)
    ensures r == SameColumnCount(resolve, e, args)
    ensures ColumnCount(resolve, e).Err? ==> r == Fail(ColumnCount(resolve, e).error)
  {
    var ref := ColumnCount(resolve, e);
    if ref.Err? {
      return Fail(ref.error);
    }
    var l := ref.value;
    var i := 0;
    while i < |args|
      invariant 0 <= i <= |args|
      invariant MatchColumnCount(resolve, l, args) == MatchColumnCount(resolve, l, args[i..])
    {
      var n := ColumnCount(resolve, args[i]);
      if n.Err? {
        return Fail(n.error);
      }
      if n.value != l {
        return Fail(ColumnCountMismatch(l));
      }
      assert args[i..][1..] == args[i + 1..];
      i := i + 1;
    }
    return Pass;
  }
}
