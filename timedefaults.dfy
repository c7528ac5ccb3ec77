/** Resolving the default value of a DATETIME or TIMESTAMP column. */
module TimeDefaults {
  import opened Base
  import opened Ast
  import opened Folding

  /** The session's system variables as the context exposes them; None is a nil context. */
  type Session = Option<map<string, string>>

  /** What mysql.ParseTime and mysql.ParseTimeFromNum return: a time, and a failure code when parsing failed. */
  datatype Parsed = Parsed(value: MyTime, failure: Option<int>)

  /**
   * The collaborators the normaliser calls: the wall clock (time.Now), strconv.ParseInt in base 10,
   * mysql.ParseTime, mysql.ParseTimeFromNum and types.Convert to a BIGINT.
   */
  datatype TimeLib = TimeLib(
    now: Instant,
    parseInt: string -> Reply<int>,
    parseTime: (string, int, int) -> Parsed,
    parseTimeFromNum: (int, int, int) -> Parsed,
    toInt64: Datum -> Reply<int>)

  /** The session variable that pins the current time. */
  const TimestampVar: string := "timestamp"

  /** The session holds a non-empty timestamp override. */
  predicate HasOverride(ctx: Session)
  {
    ctx.Some? && TimestampVar in ctx.value && ctx.value[TimestampVar] != ""
  }

  /**
   * getSystemTimestamp: the clock, unless the session pins the time with a positive integer,
   * in which case that many seconds after the epoch; an override that is not an integer is an error.
   */
  function SystemTimestamp(lib: TimeLib, ctx: Session): (r: Result<Instant>)
    ensures !HasOverride(ctx) ==> r == Ok(lib.now)
    ensures r.Err? <==> HasOverride(ctx) && lib.parseInt(ctx.value[TimestampVar]).Failed?
    ensures r.Err? ==> r.error == Foreign(lib.parseInt(ctx.value[TimestampVar]).code)
    ensures r.Ok? && r.value != lib.now ==>
      HasOverride(ctx) && lib.parseInt(ctx.value[TimestampVar]).Done? &&
      lib.parseInt(ctx.value[TimestampVar]).value > 0 &&
      r.value == UnixTime(lib.parseInt(ctx.value[TimestampVar]).value)
  {
    if ctx.None? then Ok(lib.now)
    else if TimestampVar in ctx.value && ctx.value[TimestampVar] != "" then
      match lib.parseInt(ctx.value[TimestampVar])
      case Failed(code) => Err(Foreign(code))
      case Done(t) => if t <= 0 then Ok(lib.now) else Ok(UnixTime(t))
    else Ok(lib.now)
  }

  /** A positive integer override pins the time; a zero or negative one leaves the clock in charge. */
  lemma OverrideByValue(lib: TimeLib, ctx: Session, t: int)
    requires HasOverride(ctx) && lib.parseInt(ctx.value[TimestampVar]) == Done(t)
    ensures t > 0 ==> SystemTimestamp(lib, ctx) == Ok(UnixTime(t))
    ensures t <= 0 ==> SystemTimestamp(lib, ctx) == Ok(lib.now)
  {
  }

  /** IsCurrentTimeExpr: e is the identifier CURRENT_TIMESTAMP, compared as identifiers are, without regard to case. */
  predicate IsCurrentTimeExpr(e: Expr)
    ensures IsCurrentTimeExpr(e) <==> e.Ident? && ToLower(e.name) == "current_timestamp"
  {
    assert ToLower(CurrentTimestamp) == "current_timestamp";
    e.Ident? && SameIdent(e.name, CurrentTimestamp)
  }

  /**
   * The identifier is recognised whatever its letter case: a name and its lowercased form are
   * recognised alike, and no literal is ever taken for the identifier.
   */
  lemma CurrentTimeExprIgnoresCase(name: string)
    ensures IsCurrentTimeExpr(Ident(name)) <==> IsCurrentTimeExpr(Ident(ToLower(name)))
    ensures IsCurrentTimeExpr(Ident(name)) ==> |name| == |CurrentTimestamp|
    ensures !IsCurrentTimeExpr(Value(Str(name)))
    ensures IsCurrentTimeExpr(Ident("current_timestamp")) && IsCurrentTimeExpr(Ident(CurrentTimestamp))
  {
    ToLowerIdempotent(name);
  }

  /** The Go `Eval` helper's panic becomes this precondition: a unary default evaluates without error. */
  predicate TimeValueDefined(lib: TimeLib, ev: Evaluator, ctx: Session, v: Operand)
  {
    (SystemTimestamp(lib, ctx).Ok? && v.OfExpr? && v.e.UnaryOperation?) ==> Eval(ev, v.e).Ok?
  }

  /** The shapes getTimeValue does not recognise: anything but a bare string, a literal, an identifier or a unary node. */
  predicate Unmatched(v: Operand)
  {
    match v
    case OfDatum(d) => !d.Str?
    case OfExpr(e) => !(e.Value? || e.Ident? || e.UnaryOperation?)
  }

  /** A parse result as a value or its failure. */
  function ParsedValue(p: Parsed): (r: Result<Datum>)
    ensures p.failure.None? ==> r == Ok(Time(p.value))
    ensures p.failure.Some? ==> r == Err(Foreign(p.failure.value))
  {
    if p.failure.Some? then Err(Foreign(p.failure.value)) else Ok(Time(p.value))
  }

  /**
   * getTimeValue (and GetTimeValue, which forwards to it): the default value of a time column
   * of type tp and precision fsp, given as a string, a literal, an identifier or a signed number.
   */
  function GetTimeValue(lib: TimeLib, ev: Evaluator, ctx: Session, v: Operand, tp: int, fsp: int): (r: Result<Datum>)
    requires TimeValueDefined(lib, ev, ctx, v)
    ensures SystemTimestamp(lib, ctx).Err? ==> r == Err(SystemTimestamp(lib, ctx).error)
    ensures r.Ok? ==> r.value.Time? || r.value == Null || r.value == Str(CurrentTimestamp)
    ensures r == Ok(Str(CurrentTimestamp)) <==>
      SystemTimestamp(lib, ctx).Ok? && v.OfExpr? && IsCurrentTimeExpr(v.e)
    ensures r == Err(InvalidDefaultValue) <==>
      SystemTimestamp(lib, ctx).Ok? && v.OfExpr? &&
      ((v.e.Ident? && !IsCurrentTimeExpr(v.e)) || (v.e.Value? && !(v.e.val.Str? || v.e.val.Int64? || v.e.val.Null?)))
    ensures r == Ok(Null) <==> SystemTimestamp(lib, ctx).Ok? && (v == OfExpr(Value(Null)) || Unmatched(v))
  {
    match SystemTimestamp(lib, ctx)
    case Err(err) => Err(err)
    case Ok(defaultTime) =>
      match v
      case OfDatum(Str(x)) =>
        if x == CurrentTimestamp then Ok(Time(MyTime(defaultTime, tp, fsp)))
        else if x == ZeroTimestamp then Ok(Time(lib.parseTimeFromNum(0, tp, fsp).value))
        else ParsedValue(lib.parseTime(x, tp, fsp))
      case OfExpr(Value(d)) =>
        (match d
         case Str(s) => ParsedValue(lib.parseTime(s, tp, fsp))
         case Int64(n) => ParsedValue(lib.parseTimeFromNum(n, tp, fsp))
         case Null => Ok(Null)
         case _ => Err(InvalidDefaultValue))
      case OfExpr(Ident(name)) =>
        if SameIdent(name, CurrentTimestamp) then Ok(Str(CurrentTimestamp)) else Err(InvalidDefaultValue)
      case OfExpr(UnaryOperation(_, _)) =>
        (match lib.toInt64(Eval(ev, v.e).value)
         case Failed(code) => Err(Foreign(code))
         case Done(n) => ParsedValue(lib.parseTimeFromNum(n, tp, fsp)))
      case _ => Ok(Null)
  }

  /** The keyword resolves to the session's current instant, typed with the requested type and precision. */
  lemma CurrentTimestampDefault(lib: TimeLib, ev: Evaluator, ctx: Session, tp: int, fsp: int)
    requires SystemTimestamp(lib, ctx).Ok?
    ensures GetTimeValue(lib, ev, ctx, OfDatum(Str(CurrentTimestamp)), tp, fsp) ==
      Ok(Time(MyTime(SystemTimestamp(lib, ctx).value, tp, fsp)))
  {
  }

  /** With the session pinned at 1700000000 seconds, the keyword resolves to that instant, not to the clock. */
  lemma PinnedCurrentTimestamp(lib: TimeLib, ev: Evaluator, tp: int, fsp: int)
    requires lib.parseInt("1700000000") == Done(1700000000)
    ensures GetTimeValue(lib, ev, Some(map[TimestampVar := "1700000000"]), OfDatum(Str(CurrentTimestamp)), tp, fsp) ==
      Ok(Time(MyTime(UnixTime(1700000000), tp, fsp)))
  {
  }

  /** The zero literal yields what ParseTimeFromNum(0) returns, its failure ignored, once the session time resolves. */
  lemma ZeroTimestampDefault(lib: TimeLib, ev: Evaluator, ctx: Session, tp: int, fsp: int)
    requires SystemTimestamp(lib, ctx).Ok?
    ensures GetTimeValue(lib, ev, ctx, OfDatum(Str(ZeroTimestamp)), tp, fsp) ==
      Ok(Time(lib.parseTimeFromNum(0, tp, fsp).value))
  {
  }

  /** Even the zero literal fails when the session's timestamp override is not an integer. */
  lemma ZeroTimestampNeedsValidSession(lib: TimeLib, ev: Evaluator, tp: int, fsp: int)
    requires lib.parseInt("abc").Failed?
    ensures GetTimeValue(lib, ev, Some(map[TimestampVar := "abc"]), OfDatum(Str(ZeroTimestamp)), tp, fsp).Err?
  {
  }

  /** A plain string other than the two keywords goes to the time parser, whose failure propagates. */
  lemma PlainStringDefault(lib: TimeLib, ev: Evaluator, ctx: Session, x: string, tp: int, fsp: int)
    requires SystemTimestamp(lib, ctx).Ok?
    requires x != CurrentTimestamp && x != ZeroTimestamp
    ensures GetTimeValue(lib, ev, ctx, OfDatum(Str(x)), tp, fsp) == ParsedValue(lib.parseTime(x, tp, fsp))
  {
  }

  /** An int64 literal is read as a numeric time, whose failure propagates. */
  lemma IntLiteralDefault(lib: TimeLib, ev: Evaluator, ctx: Session, n: int, tp: int, fsp: int)
    requires SystemTimestamp(lib, ctx).Ok?
    ensures GetTimeValue(lib, ev, ctx, OfExpr(Value(Int64(n))), tp, fsp) == ParsedValue(lib.parseTimeFromNum(n, tp, fsp))
  {
  }

  /** A literal string goes to the time parser, even when it spells the keyword. */
  lemma LiteralStringIsParsed(lib: TimeLib, ev: Evaluator, ctx: Session, s: string, tp: int, fsp: int)
    requires SystemTimestamp(lib, ctx).Ok?
    ensures GetTimeValue(lib, ev, ctx, OfExpr(Value(Str(s))), tp, fsp) == ParsedValue(lib.parseTime(s, tp, fsp))
  {
  }

  /** A signed-number default is converted to an integer and read as a numeric time; either failure propagates. */
  lemma UnaryDefault(lib: TimeLib, ev: Evaluator, ctx: Session, e: Expr, tp: int, fsp: int)
    requires SystemTimestamp(lib, ctx).Ok? && e.UnaryOperation? && Eval(ev, e).Ok?
    ensures lib.toInt64(Eval(ev, e).value).Failed? ==>
      GetTimeValue(lib, ev, ctx, OfExpr(e), tp, fsp) == Err(Foreign(lib.toInt64(Eval(ev, e).value).code))
    ensures lib.toInt64(Eval(ev, e).value).Done? ==>
      GetTimeValue(lib, ev, ctx, OfExpr(e), tp, fsp) ==
        ParsedValue(lib.parseTimeFromNum(lib.toInt64(Eval(ev, e).value).value, tp, fsp))
  {
  }

  /** An identifier default is accepted exactly when it is CURRENT_TIMESTAMP, and then stays the keyword. */
  lemma IdentDefault(lib: TimeLib, ev: Evaluator, ctx: Session, name: string, tp: int, fsp: int)
    requires SystemTimestamp(lib, ctx).Ok?
    ensures GetTimeValue(lib, ev, ctx, OfExpr(Ident(name)), tp, fsp).Ok? <==> IsCurrentTimeExpr(Ident(name))
  {
  }
}
