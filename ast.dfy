/** The value model and the closed family of expression nodes the helpers switch on. */
module Ast {
  import opened Base

  /** Go's time.Time: seconds since the Unix epoch and nanoseconds within the second. */
  datatype Instant = Instant(unixSeconds: int, nanos: int)

  /** time.Unix(sec, 0). */
  function UnixTime(sec: int): (t: Instant)
    ensures t.unixSeconds == sec && t.nanos == 0
  {
    Instant(sec, 0)
  }

  /** mysql.Time: an instant tagged with a column type code and a fractional-seconds precision. */
  datatype MyTime = MyTime(time: Instant, tp: int, fsp: int)

  /** A runtime value held in an `interface{}`; Null is Go's nil. */
  datatype Datum =
    | Null
    | Int64(i: int)
    | Uint64(u: int)
    | Float64(f: real)
    | Str(s: string)
    | Time(t: MyTime)
    | OtherDatum(kind: int)

  /** Operator codes; only unary plus and minus matter to the helpers. */
  datatype Op = Plus | Minus | OtherOp(code: int)

  /**
   * Expression nodes, one constructor per concrete type the helpers' type switches name.
   * Optional (possibly nil) child slots are Option<Expr>; Unlisted stands for any other
   * implementation of Expression, which the switches reach only through their default branch.
   */
  datatype Expr =
    | Value(val: Datum)
    | Variable(name: string)
    | Default(name: string)
    | Ident(name: string)
    | SubQuery(query: int)
    | Position(index: int)
    | ExistsSubQuery(query: int)
    | BinaryOperation(op: Op, l: Expr, r: Expr)
    | Call(f: string, args: seq<Expr>)
    | IsNull(expr: Expr)
    | PExpr(expr: Expr)
    | PatternIn(expr: Expr, list: seq<Expr>)
    | PatternLike(expr: Expr, pattern: Expr)
    | UnaryOperation(op: Op, v: Expr)
    | ParamMarker(bound: Option<Expr>)
    | FunctionCast(operand: Option<Expr>)
    | FunctionConvert(operand: Option<Expr>)
    | FunctionSubstring(strExpr: Option<Expr>, pos: Option<Expr>, len: Option<Expr>)
    | FunctionCase(value: Option<Expr>, whenClauses: seq<Expr>, elseClause: Option<Expr>)
    | WhenClause(cond: Expr, result: Expr)
    | IsTruth(expr: Expr)
    | Between(expr: Expr, left: Expr, right: Expr)
    | Row(values: seq<Expr>)
    | CompareSubQuery(op: Op, l: Expr, query: int)
    | Unlisted(kind: int)

  /** An `interface{}` argument: an expression node, or a bare Go value such as a string or an int64. */
  datatype Operand = OfExpr(e: Expr) | OfDatum(d: Datum)

  /** The keyword naming the current time as a column default. */
  const CurrentTimestamp: string := "CURRENT_TIMESTAMP"

  /** The all-zero datetime literal. */
  const ZeroTimestamp: string := "0000-00-00 00:00:00"

  /** The ASCII capitals, the only characters lowercasing changes. */
  predicate IsUpper(c: char)
  {
    'A' <= c <= 'Z'
  }

  /** ASCII case folding of one character: a capital becomes its small letter, anything else is kept. */
  function LowerChar(c: char): (r: char)
    ensures !IsUpper(r)
    ensures IsUpper(c) ==> r as int == c as int + 32
    ensures !IsUpper(c) ==> r == c
  {
    if IsUpper(c) then (c as int + 32) as char else c
  }

  /** strings.ToLower, restricted to ASCII letters: every character folded in its place. */
  function ToLower(s: string): (r: string)
    ensures |r| == |s|
    ensures forall i :: 0 <= i < |s| ==> r[i] == LowerChar(s[i])
  {
    seq(|s|, i requires 0 <= i < |s| => LowerChar(s[i]))
  }

  /** A lowercased name holds no capital, so lowercasing it again changes nothing. */
  lemma ToLowerIdempotent(s: string)
    ensures forall i :: 0 <= i < |s| ==> !IsUpper(ToLower(s)[i])
    ensures ToLower(ToLower(s)) == ToLower(s)
  {
  }

  /**
   * Ident.Equal: identifiers compare by their lowercased names, so two names are the same
   * identifier exactly when they have the same length and agree letter by letter up to case.
   */
  predicate SameIdent(a: string, b: string)
    ensures SameIdent(a, b) <==> |a| == |b| && forall i :: 0 <= i < |a| ==> LowerChar(a[i]) == LowerChar(b[i])
  {
    ToLower(a) == ToLower(b)
  }

  /** SameIdent is an equivalence that ignores letter case on either side. */
  lemma SameIdentIgnoresCase(a: string, b: string, c: string)
    ensures SameIdent(a, a)
    ensures SameIdent(a, b) ==> SameIdent(b, a)
    ensures SameIdent(a, b) && SameIdent(b, c) ==> SameIdent(a, c)
    ensures SameIdent(a, b) <==> SameIdent(ToLower(a), b)
  {
    ToLowerIdempotent(a);
  }

  /** IsQualified: a name is qualified when it contains a dot. */
  function IsQualified(name: string): (r: bool)
    ensures r <==> exists i :: 0 <= i < |name| && name[i] == '.'
  {
    '.' in name
  }

  /** Joining a qualifier and a name with a dot always yields a qualified name. */
  lemma QualifiedJoin(scope: string, name: string)
    ensures IsQualified(scope + "." + name)
  {
  }

  /** A concatenation is qualified exactly when one of its parts is. */
  lemma QualifiedConcat(a: string, b: string)
    ensures IsQualified(a + b) <==> IsQualified(a) || IsQualified(b)
  {
  }
}
