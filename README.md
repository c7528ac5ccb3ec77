# Expression helpers of a SQL query processor, modelled in Dafny

This project models the helper layer of the expression package of TiDB (`expression/helper.go`):
the functions that planners and the DDL layer call on parsed SQL expressions. They are:

- **parenthesis stripping** (`Expr`);
- **aggregate-call collection** (`MentionedAggregateFuncs`, `ContainAggregateFunc`). It walks every
  node kind, looks function names up, lowercased, in the built-in function registry, collects
  aggregate calls without entering their arguments, and only logs unknown names;
- **column-arity checks** (`columnCount`, `CheckOneColumn`, `CheckAllOneColumns`,
  `hasSameColumnCount`). They are used by row comparisons and `IN` lists;
- **single-node constant folding and quick evaluation** (`staticExpr`, `FastEval`, `EvalBoolExpr`);
- **normalisation of DATETIME/TIMESTAMP column defaults** (`getSystemTimestamp`, `GetTimeValue`,
  `IsCurrentTimeExpr`). This includes the session's `timestamp` override;
- the name predicate `IsQualified`.

Modules, one per component:

| file | module | contents |
|---|---|---|
| base.dfy | Base | `Option`, `Result`, `Outcome` (a bare Go `error`), the error kinds, `Reply` for collaborators' answers |
| ast.dfy | Ast | runtime values (`Datum`, Go's `interface{}` values, nil included), the closed `Expr` family, `Operand` (an `interface{}` argument), names and keywords |
| parens.dfy | Parens | `Expr` as the loop `StripParens`, specified by `Innermost` |
| aggregates.dfy | Aggregates | the walk as a specification function `Mentioned` and as the accumulator methods appending to a shared list; the Go type switch becomes `MentionedInto` dispatching to one method per node family; the cases are grouped by family rather than kept in the switch's order, which changes nothing because they are disjoint |
| arity.dfy | Arity | `columnCount` and the three checks; the two loops are methods proved against specification functions |
| folding.dfy | Folding | `staticExpr`, `FastEval`, `EvalBoolExpr` over an evaluator passed in as a parameter |
| timedefaults.dfy | TimeDefaults | `getSystemTimestamp`, `getTimeValue`, `IsCurrentTimeExpr` over a bundle of time collaborators |

Code outside this file is passed in as parameters:

- **Per-node methods.** Each node's `IsStatic` and `Eval` form an `Evaluator`. A literal `Value` is static and
  evaluates to what it holds; that is built in.
- **Function registry.** `builtin.Funcs` becomes a `map<string, bool>` from a lowercased name to its
  `IsAggregate` flag.
- **Subquery column counts.** `SubQuery.ColumnCount` is a `Resolver`.
- **Time collaborators.** These are bundled as a `TimeLib`:
  - the wall clock;
  - `strconv.ParseInt`;
  - `mysql.ParseTime` and `mysql.ParseTimeFromNum`;
  - `types.Convert` to BIGINT.
- **Boolean conversion.** `types.ToBool` is a function parameter.
- **Session variables.** The session's system variables are an optional map; `None` is a nil context.

A collaborator's failure is a `Reply.Failed` code. It reaches the caller as `Foreign(code)`. This
keeps it apart from the helpers' own error kinds:
- `RowTooFewColumns`;
- `ColumnCountMismatch(n)`, for "Operand should contain n column(s)";
- `InvalidDefaultValue`, for `errDefaultValue`.

Where the code and a plain description of its purpose part ways, the model follows the code:

- **Unknown function names.** An unknown name in the aggregate walk is only logged. The call adds
  nothing, and its arguments are not visited. It is not an error.
- **Aggregates nested in aggregates.** These are not detected: `count(max(c1))` yields only the
  outer call.
- **The zero-timestamp literal.** `getTimeValue` reads the session timestamp before it looks at its
  input. So even `"0000-00-00 00:00:00"` fails when the session's override is not an integer
  (`TimeDefaults.ZeroTimestampNeedsValidSession`).
- **Identifiers and unsupported values.** An identifier other than `CURRENT_TIMESTAMP` is
  `errDefaultValue`, not NULL. So is a literal holding a value that is not a string, an int64 or nil.
- **Short rows.** A `Row` with fewer than two elements can be constructed. It becomes an error only
  when its column count is asked for.

## Model

| member | source | states |
|---|---|---|
| Parens.StripParens | expression/helper.go:69-78 | the loop ends on a node that is not a PExpr, namely the innermost node under all parentheses |
| Parens.Innermost | expression/helper.go:69-78 | stripping yields a non-PExpr node that is the input or one of its sub-nodes |
| Parens.InnermostOfWrap | expression/helper.go:71-77 | stripping undoes any number k ≥ 0 of added parentheses |
| Parens.WrapThenStrip | expression/helper.go:71-77 | a non-parenthesised node wrapped k times strips back to itself |
| Parens.StripThenWrap | expression/helper.go:71-77 | every expression is its stripped node re-wrapped ParenDepth times: nothing but parentheses is removed |
| Parens.InnermostIdempotent | expression/helper.go:69-78 | stripping twice equals stripping once |
| Ast.IsQualified | expression/helper.go:109-112 | a name is qualified iff some character of it is a dot |
| Ast.QualifiedJoin | expression/helper.go:109-112 | scope + "." + name is always qualified |
| Ast.QualifiedConcat | expression/helper.go:109-112 | a concatenation is qualified iff one of its parts is |
| Ast.LowerChar | expression/helper.go:140 | a folded character is never a capital; a capital becomes its small letter (code + 32); every other character is kept |
| Ast.ToLowerIdempotent | expression/helper.go:140 | a lowercased name holds no capital, so lowercasing it again changes nothing |
| Ast.SameIdent | expression/helper.go:266 | two names are the same identifier iff they have the same length and agree at every position up to letter case |
| Ast.SameIdentIgnoresCase | expression/helper.go:342 | identifier equality is reflexive, symmetric and transitive, and lowercasing either name does not change it |
| Aggregates.Mentioned | expression/helper.go:130-221 | every node the walk collects is a call whose lowercased name is registered as an aggregate |
| Aggregates.MentionedInto | expression/helper.go:131-221 | the walk appends to the shared list exactly the aggregate calls of the node, in walk order, and changes nothing else |
| Aggregates.MentionedCallInto | expression/helper.go:139-156 | a Call with an unregistered lowercased name appends nothing; an aggregate appends the call itself; any other call walks its arguments in order |
| Aggregates.MentionedOperatorInto | expression/helper.go:136-217 | binary operands left then right; IsNull, PExpr, unary, IsTruth and the left side of a subquery comparison walk their one operand |
| Aggregates.MentionedPredicateInto | expression/helper.go:161-215 | PatternIn walks Expr then List, PatternLike Expr then Pattern, WhenClause, Between and Row walk their slots in order |
| Aggregates.MentionedFunctionFormInto | expression/helper.go:171-202 | ParamMarker, cast, convert, substring and CASE walk their present slots in declaration order: Value, WhenClauses, Else for CASE |
| Aggregates.MentionedSlotInto | expression/helper.go:172-174 | a nil optional slot appends nothing; a present one appends what its expression contributes |
| Aggregates.MentionedEachInto | expression/helper.go:154-156 | a list of children appends their contributions left to right |
| Aggregates.MentionedAggregateFuncs | expression/helper.go:124-129 | the returned list is the walk's list for e, and holds exactly the aggregate calls the walk reaches |
| Aggregates.ContainAggregateFunc | expression/helper.go:223-227 | true iff the collected list is non-empty, iff some aggregate call is reached; false when e has no Call node |
| Aggregates.MentionedByChildren | expression/helper.go:131-221 | an aggregate call yields itself alone; a node the walk enters yields its children's contributions in slot order; an unknown call yields nothing |
| Aggregates.MentionedIffReached | expression/helper.go:131-221 | x is collected iff x is an aggregate call reached without entering an aggregate's or an unknown function's arguments |
| Aggregates.MentionedAreAggregateCalls | expression/helper.go:146-151 | every collected node is a registered aggregate call occurring in e |
| Aggregates.NoCallNoAggregate | expression/helper.go:131-221 | an expression with no Call node yields an empty list |
| Aggregates.NestedAggregateCollectedOnce | expression/helper.go:146-151 | an aggregate call yields exactly [itself], whatever its arguments contain |
| Aggregates.CountOfMaxExample | expression/helper.go:146-151 | COUNT(max(c1)) yields one entry, the outer call, with the name looked up case-insensitively |
| Aggregates.UnknownCallContributesNothing | expression/helper.go:140-144 | a call whose lowercased name is not registered contributes nothing, its arguments included |
| Arity.ColumnCount | expression/helper.go:412-425 | a Row of n ≥ 2 values gives n, a Row of n ≤ 1 the row error, a SubQuery the resolver's answer, every other node 1 |
| Arity.ColumnCountShape | expression/helper.go:412-425 | only Rows and subqueries fail or give other than 1; a successful Row count is at least 2 |
| Arity.CheckOneColumn | expression/helper.go:388-399 | passes iff the count is exactly 1; a count error is returned as is; another count gives the one-column error |
| Arity.CheckOneColumnByShape | expression/helper.go:388-399 | no Row passes; a subquery passes iff the resolver answers 1; every other node passes |
| Arity.CheckAllOneColumns | expression/helper.go:402-410 | the loop returns the outcome AllOneColumns specifies |
| Arity.AllOneColumnsFirstFailure | expression/helper.go:402-410 | passes iff every operand passes; a failure is the error of the first failing operand |
| Arity.AllOneColumnsStopsAtFailure | expression/helper.go:403-407 | operands after the first failing one do not affect the outcome |
| Arity.HasSameColumnCount | expression/helper.go:427-445 | the loop returns the outcome SameColumnCount specifies; a reference error comes first |
| Arity.MatchColumnCountFirstFailure | expression/helper.go:433-444 | passes iff every operand counts exactly l; otherwise the first one that does not gives its own error or the mismatch error naming l |
| Arity.SameColumnCountMismatchNamesReference | expression/helper.go:439-440 | a mismatch error carries the reference operand's column count |
| Arity.SameColumnCountStopsAtFailure | expression/helper.go:433-442 | operands after the first erring or differing one do not affect the outcome |
| Arity.MatchStopsAtFailure | expression/helper.go:433-442 | comparing against a fixed count stops at the first erring or differing operand |
| Folding.StaticExpr | expression/helper.go:242-257 | a non-static node is returned unchanged; a static one succeeds iff it evaluates; the result is then a literal with the same value, nil included; an error is the evaluation's |
| Folding.StaticExprIdempotent | expression/helper.go:242-257 | folding a folded node changes nothing |
| Folding.StaticExprOfNil | expression/helper.go:249-250 | a static node evaluating to nil folds to Value{nil} |
| Folding.FastEval | expression/helper.go:89-107 | a Value gives its Val; a bare int64/uint64 gives itself; a unary node whose op is not +/- or that is not static gives nil; any non-nil result of another input is a static +/- unary node's value |
| Folding.FastEvalAgreesWithFolding | expression/helper.go:89-107 | where FastEval evaluates a node, folding that node yields exactly the literal of FastEval's result |
| Folding.EvalBoolExpr | expression/helper.go:369-384 | an evaluation error propagates; nil is false without error; for any other value a ToBool failure propagates and otherwise the result is ToBool(v) != 0; the result is true iff the value is non-nil and ToBool gives a non-zero |
| Folding.EvalBoolExprOfFolded | expression/helper.go:369-384 | a node and its folded literal evaluate to the same condition |
| Folding.NilIsFalse | expression/helper.go:374-375 | Value{nil} is false as a condition, whatever ToBool does |
| TimeDefaults.SystemTimestamp | expression/helper.go:269-294 | the clock without a non-empty override; an error iff the override does not parse as an integer; any instant other than the clock comes from a positive override t, as Unix(t) |
| TimeDefaults.OverrideByValue | expression/helper.go:280-289 | an override t > 0 gives Unix(t); t ≤ 0 falls back to the clock |
| TimeDefaults.IsCurrentTimeExpr | expression/helper.go:259-267 | a node is the current-time expression iff it is an identifier whose lowercased name is current_timestamp |
| TimeDefaults.CurrentTimeExprIgnoresCase | expression/helper.go:259-267 | for every name, the identifier is recognised iff its lowercased form is; a recognised name has the keyword's length; no string literal is recognised |
| TimeDefaults.GetTimeValue | expression/helper.go:297-366 | a session error propagates for every input; a result is a time, nil or the keyword; the keyword comes back iff the input is the CURRENT_TIMESTAMP identifier; errDefaultValue iff another identifier or a literal that is not a string, int64 or nil; nil iff a nil literal or an unmatched shape; the remaining shapes are fixed by the lemmas below |
| TimeDefaults.CurrentTimestampDefault | expression/helper.go:314-315 | "CURRENT_TIMESTAMP" gives the session instant with the requested type and precision |
| TimeDefaults.PinnedCurrentTimestamp | expression/helper.go:276-289 | with the override "1700000000" the keyword resolves to Unix(1700000000), not the clock |
| TimeDefaults.ZeroTimestampDefault | expression/helper.go:316-317 | the zero literal gives ParseTimeFromNum(0)'s time, its error ignored |
| TimeDefaults.ZeroTimestampNeedsValidSession | expression/helper.go:307-310 | a non-integer override makes even the zero literal fail |
| TimeDefaults.PlainStringDefault | expression/helper.go:318-322 | a plain string other than the keyword and the zero literal goes to ParseTime, whose failure propagates |
| TimeDefaults.IntLiteralDefault | expression/helper.go:331-335 | a literal holding an int64 goes to ParseTimeFromNum, whose failure propagates |
| TimeDefaults.LiteralStringIsParsed | expression/helper.go:324-330 | a string literal goes to ParseTime, even one spelling the keyword |
| TimeDefaults.UnaryDefault | expression/helper.go:347-360 | a unary default is converted to BIGINT and read by ParseTimeFromNum; a failure of either propagates |
| TimeDefaults.IdentDefault | expression/helper.go:341-346 | an identifier default succeeds iff it is CURRENT_TIMESTAMP |

## Left out

- `MentionedColumns`: its result order follows Go's map iteration order, which is unspecified. It also depends on a visitor defined elsewhere.
- `cloneExpressionList`: it only calls each node's `Clone`, which is defined elsewhere.
- Evaluation contexts: one `Evaluator` stands for every context the helpers evaluate under. `staticExpr` evaluates with a nil context and environment; `FastEval` and the unary case of `getTimeValue` use a nil context and an empty map; `EvalBoolExpr` uses its caller's context and map. `Folding.EvalBoolExprOfFolded` therefore holds in Go only where a static node evaluates alike in every context.
- Per-node behaviour: each node's `Eval` and `IsStatic` are defined in other files, and are parameters here. The `Equal` of `Ident` is taken to compare lowercased names, as its case-insensitive name type suggests; ident.go is not part of this model.
- The `Eval` helper panics on an evaluation error. The model makes success a precondition instead (`Folding.FastEvalDefined`, `TimeDefaults.TimeValueDefined`).
- Logging of unknown functions and node types: it is a side effect only, and the model treats it as contributing nothing.
- Error messages and `errors.Trace` wrapping: only the error kinds are distinguished.
- Integer widths: int64 and uint64 values are unbounded integers. Range checks are left to `strconv.ParseInt` and `types.Convert`, which are parameters.
- `strings.ToLower` is modelled for ASCII letters only. Other Unicode case mappings are not modelled.
- Node variants the switches do not name are represented by `Unlisted`. The switch also lists `Value` and `*Value` separately; the model has one `Value` node. `getTimeValue` and `FastEval` match only the non-pointer `Value`: in Go a `*Value` default falls into `getTimeValue`'s nil case and `FastEval` returns nil for it, whereas the model's `Value` gives its value to both. The model does not separate the two.
- `FunctionCase.WhenClauses` holds only WhenClause nodes in Go. The model's list admits any node, and the walk treats each entry alike.
