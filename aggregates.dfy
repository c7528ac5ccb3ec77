/** Collecting the aggregate-function calls mentioned by an expression. */
module Aggregates {
  import opened Base
  import opened Ast

  /** builtin.Funcs as the walk reads it: lowercased function name to its IsAggregate flag. */
  type Registry = map<string, bool>

  /** A Call whose lowercased name is registered as an aggregate function. */
  predicate IsAggregateCall(reg: Registry, e: Expr)
  {
    e.Call? && ToLower(e.f) in reg && reg[ToLower(e.f)]
  }

  /** The aggregate calls an optional child slot contributes; a nil slot contributes nothing. */
  function MentionedOpt(reg: Registry, o: Option<Expr>): (r: seq<Expr>)
    ensures forall x :: x in r ==> IsAggregateCall(reg, x)
    decreases o
  {
    match o
    case None => []
    case Some(x) => Mentioned(reg, x)
  }

  /** The aggregate calls a list of children contributes, left to right. */
  function MentionedList(reg: Registry, es: seq<Expr>): (r: seq<Expr>)
    ensures forall x :: x in r ==> IsAggregateCall(reg, x)
    decreases es
  {
    if es == [] then [] else MentionedList(reg, es[..|es| - 1]) + Mentioned(reg, es[|es| - 1])
  }

  /** The list mentionedAggregateFuncs appends for e, in the order it appends them. */
  function Mentioned(reg: Registry, e: Expr): (r: seq<Expr>)
    ensures forall x :: x in r ==> IsAggregateCall(reg, x)
    decreases e
  {
    match e
    case Value(_) => []
    case Variable(_) => []
    case Default(_) => []
    case Ident(_) => []
    case SubQuery(_) => []
    case Position(_) => []
    case ExistsSubQuery(_) => []
    case BinaryOperation(_, l, r) => Mentioned(reg, l) + Mentioned(reg, r)
    case Call(f, args) =>
      if ToLower(f) !in reg then []
      else if reg[ToLower(f)] then [e]
      else MentionedList(reg, args)
    case IsNull(x) => Mentioned(reg, x)
    case PExpr(x) => Mentioned(reg, x)
    case PatternIn(x, list) => Mentioned(reg, x) + MentionedList(reg, list)
    case PatternLike(x, p) => Mentioned(reg, x) + Mentioned(reg, p)
    case UnaryOperation(_, v) => Mentioned(reg, v)
    case ParamMarker(b) => MentionedOpt(reg, b)
    case FunctionCast(x) => MentionedOpt(reg, x)
    case FunctionConvert(x) => MentionedOpt(reg, x)
    case FunctionSubstring(s, p, n) => MentionedOpt(reg, s) + MentionedOpt(reg, p) + MentionedOpt(reg, n)
    case FunctionCase(v, ws, el) => MentionedOpt(reg, v) + MentionedList(reg, ws) + MentionedOpt(reg, el)
    case WhenClause(c, r) => Mentioned(reg, c) + Mentioned(reg, r)
    case IsTruth(x) => Mentioned(reg, x)
    case Between(x, lo, hi) => Mentioned(reg, x) + Mentioned(reg, lo) + Mentioned(reg, hi)
    case Row(vs) => MentionedList(reg, vs)
    case CompareSubQuery(_, l, _) => Mentioned(reg, l)
    case Unlisted(_) => []
  }

  /** Every sub-expression slot of a node, in the order the walk visits them; nil slots are absent. */
  function Children(e: Expr): (cs: seq<Expr>)
    ensures forall i :: 0 <= i < |cs| ==> cs[i] < e
  {
    match e
    case BinaryOperation(_, l, r) => [l, r]
    case Call(_, args) => args
    case IsNull(x) => [x]
    case PExpr(x) => [x]
    case PatternIn(x, list) => [x] + list
    case PatternLike(x, p) => [x, p]
    case UnaryOperation(_, v) => [v]
    case ParamMarker(b) => Slot(b)
    case FunctionCast(x) => Slot(x)
    case FunctionConvert(x) => Slot(x)
    case FunctionSubstring(s, p, n) => Slot(s) + Slot(p) + Slot(n)
    case FunctionCase(v, ws, el) => Slot(v) + ws + Slot(el)
    case WhenClause(c, r) => [c, r]
    case IsTruth(x) => [x]
    case Between(x, lo, hi) => [x, lo, hi]
    case Row(vs) => vs
    case CompareSubQuery(_, l, _) => [l]
    case _ => []
  }

  /** An optional slot as a list of zero or one child. */
  function Slot(o: Option<Expr>): (cs: seq<Expr>)
    ensures forall i :: 0 <= i < |cs| ==> cs[i] < o
  {
    if o.Some? then [o.value] else []
  }

  /** The walk goes on into e's children: e is not a Call, or it is a registered non-aggregate one. */
  predicate Descends(reg: Registry, e: Expr)
  {
    !e.Call? || (ToLower(e.f) in reg && !reg[ToLower(e.f)])
  }

  /** The operator nodes, whose children are fixed slots that are never nil. */
  predicate IsOperatorNode(e: Expr)
  {
    e.BinaryOperation? || e.IsNull? || e.PExpr? || e.UnaryOperation? || e.IsTruth? || e.CompareSubQuery?
  }

  /** The predicate and list nodes: pattern matching, ranges, rows and CASE branches. */
  predicate IsPredicateNode(e: Expr)
  {
    e.PatternIn? || e.PatternLike? || e.WhenClause? || e.Between? || e.Row?
  }

  /** The structured built-ins, whose child slots may be nil. */
  predicate IsFunctionForm(e: Expr)
  {
    e.ParamMarker? || e.FunctionCast? || e.FunctionConvert? || e.FunctionSubstring? || e.FunctionCase?
  }

  /**
   * x is an aggregate call the walk reaches from e: e itself when e is an aggregate call,
   * otherwise one reached from a child of a node the walk descends into.
   */
  ghost predicate Reached(reg: Registry, x: Expr, e: Expr)
    decreases e
  {
    if IsAggregateCall(reg, e) then x == e
    else Descends(reg, e) && exists i :: 0 <= i < |Children(e)| && Reached(reg, x, Children(e)[i])
  }

  /** e contains a Call node somewhere, aggregate or not. */
  ghost predicate ContainsCall(e: Expr)
    decreases e
  {
    e.Call? || exists i :: 0 <= i < |Children(e)| && ContainsCall(Children(e)[i])
  }

  /** Appending lists of children appends their contributions. */
  lemma {:induction false} MentionedListAppend(reg: Registry, a: seq<Expr>, b: seq<Expr>)
    ensures MentionedList(reg, a + b) == MentionedList(reg, a) + MentionedList(reg, b)
    decreases |b|
  {
    if b != [] {
      var b' := b[..|b| - 1];
      assert (a + b)[..|a + b| - 1] == a + b';
      assert (a + b)[|a + b| - 1] == b[|b| - 1];
      MentionedListAppend(reg, a, b');
    } else {
      assert a + b == a;
    }
  }

  /** A nil slot contributes nothing, a present one what its expression contributes. */
  lemma MentionedSlot(reg: Registry, o: Option<Expr>)
    ensures MentionedList(reg, Slot(o)) == MentionedOpt(reg, o)
  {
  }

  /** Contributions of one, two and three listed children. */
  lemma MentionedListSmall(reg: Registry, x: Expr, y: Expr, z: Expr)
    ensures MentionedList(reg, [x]) == Mentioned(reg, x)
    ensures MentionedList(reg, [x, y]) == Mentioned(reg, x) + Mentioned(reg, y)
    ensures MentionedList(reg, [x, y, z]) == Mentioned(reg, x) + Mentioned(reg, y) + Mentioned(reg, z)
  {
    assert [x][..0] == [];
    assert [x, y][..1] == [x];
    assert [x, y, z][..2] == [x, y];
  }

  /** The operator nodes, restated over Children. */
  lemma MentionedOperatorByChildren(reg: Registry, e: Expr)
    requires IsOperatorNode(e)
    ensures Mentioned(reg, e) == MentionedList(reg, Children(e))
  {
    match e
    case BinaryOperation(_, l, r) => MentionedListSmall(reg, l, r, r);
    case IsNull(x) => MentionedListSmall(reg, x, x, x);
    case PExpr(x) => MentionedListSmall(reg, x, x, x);
    case UnaryOperation(_, x) => MentionedListSmall(reg, x, x, x);
    case IsTruth(x) => MentionedListSmall(reg, x, x, x);
    case CompareSubQuery(_, x, _) => MentionedListSmall(reg, x, x, x);
  }

  /** The predicate and list nodes, restated over Children. */
  lemma MentionedPredicateByChildren(reg: Registry, e: Expr)
    requires IsPredicateNode(e)
    ensures Mentioned(reg, e) == MentionedList(reg, Children(e))
  {
    match e
    case PatternIn(x, list) =>
      MentionedListSmall(reg, x, x, x);
      MentionedListAppend(reg, [x], list);
    case PatternLike(x, p) => MentionedListSmall(reg, x, p, p);
    case WhenClause(c, r) => MentionedListSmall(reg, c, r, r);
    case Between(x, lo, hi) => MentionedListSmall(reg, x, lo, hi);
    case Row(_) =>
  }

  /** The structured built-ins, restated over Children. */
  lemma MentionedFunctionFormByChildren(reg: Registry, e: Expr)
    requires IsFunctionForm(e)
    ensures Mentioned(reg, e) == MentionedList(reg, Children(e))
  {
    match e
    case ParamMarker(b) => MentionedSlot(reg, b);
    case FunctionCast(x) => MentionedSlot(reg, x);
    case FunctionConvert(x) => MentionedSlot(reg, x);
    case FunctionSubstring(s, p, n) =>
      MentionedSlot(reg, s);
      MentionedSlot(reg, p);
      MentionedSlot(reg, n);
      MentionedListAppend(reg, Slot(s), Slot(p));
      MentionedListAppend(reg, Slot(s) + Slot(p), Slot(n));
    case FunctionCase(v, ws, el) =>
      MentionedSlot(reg, v);
      MentionedSlot(reg, el);
      MentionedListAppend(reg, Slot(v), ws);
      MentionedListAppend(reg, Slot(v) + ws, Slot(el));
  }

  /**
   * The walk, restated over Children: an aggregate call yields itself alone, a node the walk
   * descends into yields its children's contributions left to right, and an unknown call nothing.
   */
  lemma MentionedByChildren(reg: Registry, e: Expr)
    ensures Mentioned(reg, e) ==
      if IsAggregateCall(reg, e) then [e]
      else if Descends(reg, e) then MentionedList(reg, Children(e))
      else []
  {
    if IsOperatorNode(e) {
      MentionedOperatorByChildren(reg, e);
    } else if IsPredicateNode(e) {
      MentionedPredicateByChildren(reg, e);
    } else if IsFunctionForm(e) {
      MentionedFunctionFormByChildren(reg, e);
    }
  }

  /** Membership in a list's contribution is membership in some child's contribution. */
  lemma {:induction false} MentionedListMember(reg: Registry, es: seq<Expr>, x: Expr)
    ensures x in MentionedList(reg, es) <==> exists i :: 0 <= i < |es| && x in Mentioned(reg, es[i])
    decreases |es|
  {
    if es != [] {
      var init := es[..|es| - 1];
      MentionedListMember(reg, init, x);
      if exists i :: 0 <= i < |init| && x in Mentioned(reg, init[i]) {
        var i :| 0 <= i < |init| && x in Mentioned(reg, init[i]);
        assert es[i] == init[i];
      }
      if exists i :: 0 <= i < |es| && x in Mentioned(reg, es[i]) {
        var i :| 0 <= i < |es| && x in Mentioned(reg, es[i]);
        if i < |init| { assert init[i] == es[i]; }
      }
    }
  }

  /** The collected list holds exactly the aggregate calls the walk reaches. */
  lemma {:induction false} MentionedIffReached(reg: Registry, e: Expr, x: Expr)
    ensures x in Mentioned(reg, e) <==> Reached(reg, x, e)
    decreases e
  {
    MentionedByChildren(reg, e);
    if !IsAggregateCall(reg, e) && Descends(reg, e) {
      var cs := Children(e);
      MentionedListMember(reg, cs, x);
      forall i | 0 <= i < |cs|
        ensures x in Mentioned(reg, cs[i]) <==> Reached(reg, x, cs[i])
      {
        MentionedIffReached(reg, cs[i], x);
      }
    }
  }

  /** Everything the walk reaches is an aggregate call, and it lies in e. */
  lemma {:induction false} ReachedIsAggregateCall(reg: Registry, e: Expr, x: Expr)
    requires Reached(reg, x, e)
    ensures IsAggregateCall(reg, x) && (x == e || x < e)
    decreases e
  {
    if !IsAggregateCall(reg, e) {
      var i :| 0 <= i < |Children(e)| && Reached(reg, x, Children(e)[i]);
      ReachedIsAggregateCall(reg, Children(e)[i], x);
    }
  }

  /** Whatever the walk reaches is a Call node inside e. */
  lemma {:induction false} ReachedContainsCall(reg: Registry, e: Expr, x: Expr)
    requires Reached(reg, x, e)
    ensures ContainsCall(e)
    decreases e
  {
    if !IsAggregateCall(reg, e) {
      var i :| 0 <= i < |Children(e)| && Reached(reg, x, Children(e)[i]);
      ReachedContainsCall(reg, Children(e)[i], x);
    }
  }

  /** Each collected node is a registered aggregate call occurring in e. */
  lemma MentionedAreAggregateCalls(reg: Registry, e: Expr)
    ensures forall x :: x in Mentioned(reg, e) ==> IsAggregateCall(reg, x) && (x == e || x < e)
  {
    forall x | x in Mentioned(reg, e)
      ensures IsAggregateCall(reg, x) && (x == e || x < e)
    {
      MentionedIffReached(reg, e, x);
      ReachedIsAggregateCall(reg, e, x);
    }
  }

  /** An expression without Call nodes mentions no aggregate. */
  lemma NoCallNoAggregate(reg: Registry, e: Expr)
    requires !ContainsCall(e)
    ensures Mentioned(reg, e) == []
  {
    if Mentioned(reg, e) != [] {
      var x := Mentioned(reg, e)[0];
      MentionedIffReached(reg, e, x);
      ReachedContainsCall(reg, e, x);
    }
  }

  /** The slice every call of the walk appends to, shared through a pointer. */
  class AggregateList {
    var items: seq<Expr>

    constructor ()
      ensures items == []
    {
      items := [];
    }
  }

  /** mentionedAggregateFuncs: appends to m the aggregate calls of e, in walk order. */
  method MentionedInto(reg: Registry, e: Expr, m: AggregateList)
    modifies m
    ensures m.items == old(m.items) + Mentioned(reg, e)
    decreases e, 1
  {
    if e.Call? {
      MentionedCallInto(reg, e, m);
    } else if IsOperatorNode(e) {
      MentionedOperatorInto(reg, e, m);
    } else if IsPredicateNode(e) {
      MentionedPredicateInto(reg, e, m);
    } else if IsFunctionForm(e) {
      MentionedFunctionFormInto(reg, e, m);
    }
    // leaves contribute nothing; an unlisted node type is only logged
  }

  /** The walk's cases for operator nodes: visit each operand in order. */
  method MentionedOperatorInto(reg: Registry, e: Expr, m: AggregateList)
    requires IsOperatorNode(e)
    modifies m
    ensures m.items == old(m.items) + Mentioned(reg, e)
    decreases e, 0
  {
    match e {
      case BinaryOperation(_, l, r) =>
        MentionedInto(reg, l, m);
        MentionedInto(reg, r, m);
      case IsNull(x) => MentionedInto(reg, x, m);
      case PExpr(x) => MentionedInto(reg, x, m);
      case UnaryOperation(_, v) => MentionedInto(reg, v, m);
      case IsTruth(x) => MentionedInto(reg, x, m);
      case CompareSubQuery(_, l, _) => MentionedInto(reg, l, m);
    }
  }

  /** The walk's cases for predicate and list nodes. */
  method MentionedPredicateInto(reg: Registry, e: Expr, m: AggregateList)
    requires IsPredicateNode(e)
    modifies m
    ensures m.items == old(m.items) + Mentioned(reg, e)
    decreases e, 0
  {
    match e {
      case PatternIn(x, list) =>
        MentionedInto(reg, x, m);
        MentionedEachInto(reg, list, m);
      case PatternLike(x, p) =>
        MentionedInto(reg, x, m);
        MentionedInto(reg, p, m);
      case WhenClause(c, r) =>
        MentionedInto(reg, c, m);
        MentionedInto(reg, r, m);
      case Between(x, lo, hi) =>
        MentionedInto(reg, x, m);
        MentionedInto(reg, lo, m);
        MentionedInto(reg, hi, m);
        assert Mentioned(reg, e) == Mentioned(reg, x) + Mentioned(reg, lo) + Mentioned(reg, hi);
      case Row(vs) => MentionedEachInto(reg, vs, m);
    }
  }

  /** The Call case of the walk: look the lowercased name up in the registry. */
  method MentionedCallInto(reg: Registry, e: Expr, m: AggregateList)
    requires e.Call?
    modifies m
    ensures m.items == old(m.items) + Mentioned(reg, e)
    decreases e, 0
  {
    var name := ToLower(e.f);
    if name !in reg {
      // logged as an unknown function; nothing is appended
      return;
    }
    if reg[name] {
      m.items := m.items + [e];
      return;
    }
    MentionedEachInto(reg, e.args, m);
  }

  /** The walk's cases for the structured built-ins: a nil slot is skipped. */
  method MentionedFunctionFormInto(reg: Registry, e: Expr, m: AggregateList)
    requires IsFunctionForm(e)
    modifies m
    ensures m.items == old(m.items) + Mentioned(reg, e)
    decreases e, 0
  {
    match e {
      case ParamMarker(b) => MentionedSlotInto(reg, b, m);
      case FunctionCast(x) => MentionedSlotInto(reg, x, m);
      case FunctionConvert(x) => MentionedSlotInto(reg, x, m);
      case FunctionSubstring(str, pos, len) =>
        MentionedSlotInto(reg, str, m);
        MentionedSlotInto(reg, pos, m);
        MentionedSlotInto(reg, len, m);
      case FunctionCase(v, ws, el) =>
        MentionedSlotInto(reg, v, m);
        MentionedEachInto(reg, ws, m);
        MentionedSlotInto(reg, el, m);
    }
  }

  /** The `if x.Expr != nil` guards of the walk: a nil slot is skipped. */
  method MentionedSlotInto(reg: Registry, o: Option<Expr>, m: AggregateList)
    modifies m
    ensures m.items == old(m.items) + MentionedOpt(reg, o)
    decreases o, 0
  {
    if o.Some? {
      MentionedInto(reg, o.value, m);
    }
  }

  /** The `for _, e := range list` loops of the walk. */
  method MentionedEachInto(reg: Registry, es: seq<Expr>, m: AggregateList)
    modifies m
    ensures m.items == old(m.items) + MentionedList(reg, es)
    decreases es, 0
  {
    for i := 0 to |es|
      invariant m.items == old(m.items) + MentionedList(reg, es[..i])
    {
      assert es[..i + 1][..i] == es[..i];
      MentionedInto(reg, es[i], m);
    }
    assert es[..|es|] == es;
  }

  /** MentionedAggregateFuncs: the aggregate calls of e, collected into a fresh list. */
  method MentionedAggregateFuncs(reg: Registry, e: Expr) returns (m: seq<Expr>)
    ensures m == Mentioned(reg, e)
    ensures forall x :: x in m <==> Reached(reg, x, e)
  {
    var acc := new AggregateList();
    MentionedInto(reg, e, acc);
    m := acc.items;
    forall x ensures x in m <==> Reached(reg, x, e) {
      MentionedIffReached(reg, e, x);
    }
  }

  /** ContainAggregateFunc: whether the walk reaches any aggregate call. */
  method ContainAggregateFunc(reg: Registry, e: Expr) returns (b: bool)
    ensures b <==> Mentioned(reg, e) != []
    ensures b <==> exists x :: Reached(reg, x, e)
    ensures !ContainsCall(e) ==> !b
  {
    var m := MentionedAggregateFuncs(reg, e);
    b := |m| > 0;
    if !ContainsCall(e) {
      NoCallNoAggregate(reg, e);
    }
    if b {
      assert Reached(reg, m[0], e);
    }
  }

  /** An aggregate call is collected alone, whatever its arguments hold: count(max(c1)) yields the outer call. */
  lemma NestedAggregateCollectedOnce(reg: Registry, f: string, args: seq<Expr>)
    requires ToLower(f) in reg && reg[ToLower(f)]
    ensures Mentioned(reg, Call(f, args)) == [Call(f, args)]
  {
  }

  /** The concrete case COUNT(max(c1)) against a registry listing count and max as aggregates. */
  lemma CountOfMaxExample()
    ensures var reg := map["count" := true, "max" := true];
      Mentioned(reg, Call("COUNT", [Call("max", [Ident("c1")])])) == [Call("COUNT", [Call("max", [Ident("c1")])])]
  {
    var lowered := ToLower("COUNT");
    assert lowered == "count" by {
      assert |lowered| == 5;
      assert forall i :: 0 <= i < 5 ==> lowered[i] == "count"[i];
    }
  }

  /** A call whose name is not registered contributes nothing, not even from its arguments. */
  lemma UnknownCallContributesNothing(reg: Registry, f: string, args: seq<Expr>)
    requires ToLower(f) !in reg
    ensures Mentioned(reg, Call(f, args)) == []
    ensures forall x :: !Reached(reg, x, Call(f, args))
  {
  }
}
