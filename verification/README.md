# Validation rules and service context — a Dafny model

This project models the core of a small TypeScript validation-rule library.
A rule tests a condition on an in-memory target and records a pass/fail flag
(`isValid`). Rules compose into trees: `Range` is a composite of a not-null
check, a `Min` and a `Max` over the same target. A `ServiceContext` gathers the
messages of one service call and answers `hasErrors()` / `isGood()`.

Layout:

- `wrappers.dfy` — `Result`, which stands for a thrown error.
- `values.dfy` — `Value`, a tagged model of the JavaScript targets
  (`Null | Undefined | Num | Bool | Str`), and JavaScript's loose `== null`.
- `rules.dfy` — `RulePolicy`'s state and constructor (`Meta`, `NewMeta`,
  `NewPolicy`), one `Rule` variant per rule class, the leaf `render()`s, the
  composite evaluation, `Render` and `Execute`. `Verdict` is a declarative
  reference verdict and `SameConfig` says "the same rule, re-evaluated".
  `Render` is proved against both.
- `rule_lemmas.dfy` — render is idempotent and ignores earlier verdicts; a
  composite is the AND of its children; the base policy fails; defaults.
- `range.dfy` — the `Range` constructor and its inclusive-range semantics.
- `service_context.dfy` — the context as a value. `AddMessage` returns the
  new context, and `HasErrors` / `IsGood` return the answer together with the
  context as the query leaves it (the query rewrites `ErrorMessages`).

A rule object's mutation is modelled functionally. `Render(r)` returns a
`RuleResult` whose `rule` field is `r` as it stands after evaluation: the same
configuration, with the validity flags updated.

Stated assumptions, for sources that are not part of this model:

- `Min(target, m)` is valid iff the target is a present number `>= m`.
  `Max(target, m)` is valid iff it is a present number `<= m`.
- A composite renders its children in list order. Its flag becomes the AND of
  the children's flags, and its result pairs it with its own target. An error
  thrown by a child propagates.
- `SimpleRule`, the base class of `IsNotNullOrUndefined`, `Min` and `Max`,
  passes `(name, message, isDisplayable)` to `RulePolicy`'s constructor
  unchanged and adds no state of its own. So a leaf starts with
  `RulePolicy`'s defaults: valid, EvaluateAllRules, severity Exception,
  priority 0.
- `CompositeRule`'s constructor applies `RulePolicy`'s defaults in the same
  way, and starts with an empty child list.
- `Min`/`Max` take `(name, message, target, bound, isDisplayable = false)`.
- A JavaScript number is modelled as a finite real; bounds are reals too.

## Model

| member | source | states |
|---|---|---|
| Rules.NewMeta | src/rules/RulePolicy.ts:6-24 | a new rule starts with `isValid` true and EvaluateAllRules, and stores name, message, displayability, severity and priority as given; the defaults are false, Exception and 0 |
| Rules.NewPolicy | src/rules/RulePolicy.ts:17-24 | the bare policy constructor gives a base rule with `isValid` true and EvaluateAllRules, carrying exactly the given metadata |
| Rules.NewNotNull | src/rules/IsNotNullOrUndefined.ts:4-9 | the not-null rule stores its target unchanged, starts valid and is not displayable by default; severity Exception and priority 0 hold under the stated SimpleRule assumption |
| Rules.NewMin | dist/rules/Range.js:55 | (assumed) Min stores its target and minimum and starts with `isValid` true |
| Rules.NewMax | dist/rules/Range.js:56 | (assumed) Max stores its target and maximum and starts with `isValid` true |
| Rules.RenderNotNull | src/rules/IsNotNullOrUndefined.ts:11-17 | the flag is set false iff the target is null or undefined; the result carries the target unchanged; no other field of the rule changes |
| Rules.RenderMin | dist/rules/Range.js:55 | (assumed) valid iff the target is present and at least the minimum; nothing else changes |
| Rules.RenderMax | dist/rules/Range.js:56 | (assumed) valid iff the target is present and at most the maximum; nothing else changes |
| Rules.Render | src/rules/RulePolicy.ts:31-36 | render fails, with the unimplemented-rule error, exactly when the tree reaches a rule without its own render; otherwise it returns the rule's target, keeps its configuration, and sets the flag to the reference verdict |
| Rules.RenderAll | dist/rules/Range.js:53-57 | (assumed composite evaluation) children are rendered in order; the outcome fails iff some child is unimplemented, and otherwise each rendered child keeps its configuration and carries its own verdict |
| Rules.Execute | src/rules/RulePolicy.ts:26-29 | execute returns exactly what render returns, and fails only for an unimplemented rule |
| RuleLemmas.RenderIgnoresValidity | src/rules/IsNotNullOrUndefined.ts:12-14 | the flag is reset before it is decided, so two rules differing only in their flags render identically |
| RuleLemmas.RenderIdempotent | src/rules/IsNotNullOrUndefined.ts:11-17 | rendering a rendered rule again gives the same result |
| RuleLemmas.CompositeIsAndOfChildren | dist/rules/Range.js:53-57 | (assumed) a rendered Range keeps its child count, and is valid iff every rendered child is valid |
| RuleLemmas.BaseRenderFails | src/rules/RulePolicy.ts:26-36 | executing a bare policy always fails with the unimplemented-rule error |
| RuleLemmas.PolicyDefaults | src/rules/RulePolicy.ts:7-18 | the short constructor yields isValid true, not displayable, priority 0, severity Exception, EvaluateAllRules |
| RuleLemmas.NotNullJudgesPresence | src/rules/IsNotNullOrUndefined.ts:11-17 | executing the not-null rule succeeds, returns its target, and is valid iff the target is neither null nor undefined |
| RuleLemmas.FalsyTargetsArePresent | src/rules/IsNotNullOrUndefined.ts:13 | 0, false and the empty string pass the not-null rule |
| RangeRules.NewRange | dist/rules/Range.js:46-58 | Range stores target, start and end as given and is not displayable by default; its first child is the not-null check on the same target; it has exactly that one child iff the target is null or undefined, and otherwise the children are exactly not-null, Min(start), Max(end), in that order; start > end is accepted |
| RangeRules.RangeVerdict | dist/rules/Range.js:15-24 | a Range always renders and is valid iff the target is a number with start <= target <= end |
| RangeRules.RangeAcceptsBounds | dist/rules/Range.js:18 | when start <= end, both start and end themselves are valid targets |
| RangeRules.RangeRejectsOutside | dist/rules/Range.js:22-23 | for any bounds, a number below start or above end is rejected |
| RangeRules.RangeDocExamplesValid | dist/rules/Range.js:20-21 | over 1..3, targets 1 and 2 are valid |
| RangeRules.RangeDocExamplesInvalid | dist/rules/Range.js:22-23 | over 1..3, targets 0 and 4 are not valid |
| RangeRules.RangeAcceptsFraction | dist/rules/Range.js:16-18 | a fractional target, 2.5, lies within 1..3 and is valid |
| RangeRules.MissingTargetFailsOnNotNullAlone | dist/rules/Range.js:53-57 | a null or undefined target makes the Range invalid, and its only rendered child is the failing not-null check |
| RangeRules.InvertedRangeRejectsEverything | dist/rules/Range.js:46-58 | a Range built with start > end still renders, but no target is valid |
| Service.NewContext | dist/service/ServiceContext.ts:15-18 | a new context has no messages and no error messages |
| Service.AddMessage | dist/service/ServiceContext.ts:23-25 | the message is appended at the end; earlier messages keep their positions; the error list is untouched |
| Service.ErrorsOf | dist/service/ServiceContext.ts:32 | the filtered list holds exactly the Error messages of the log and is no longer than it |
| Service.ErrorsOfNonEmpty | dist/service/ServiceContext.ts:32-35 | the filtered list is non-empty iff some message is an Error |
| Service.ErrorsOfAppend | dist/service/ServiceContext.ts:32 | filtering distributes over concatenation, so order is kept and nothing is dropped or merged |
| Service.ErrorsOfSingleton | dist/service/ServiceContext.ts:32 | one message survives the filter iff it is an Error |
| Service.HasErrors | dist/service/ServiceContext.ts:30-38 | true iff some message is an Error; the log is unchanged; on a non-empty log the error list becomes the log filtered to Error, and on an empty one it is left alone |
| Service.IsGood | dist/service/ServiceContext.ts:43-51 | true iff no message is an Error, with the same effect on the context as hasErrors |
| Service.IsGoodIsNotHasErrors | dist/service/ServiceContext.ts:30-51 | isGood is the negation of hasErrors for every context and leaves it in the same state |
| Service.NewContextCoherent | dist/service/ServiceContext.ts:15-16 | a fresh context's error list is the filter of a prefix of its log |
| Service.AddMessageKeepsCoherent | dist/service/ServiceContext.ts:23-25 | after an append, the error list is still the filter of a prefix of the log (possibly stale) |
| Service.QueriesKeepCoherent | dist/service/ServiceContext.ts:30-51 | after a query, the error list is still the filter of a prefix of the log |
| Service.AddAllAppends | dist/service/ServiceContext.ts:23-25 | adding messages one by one appends all of them, in order, with no deduplication |
| Service.QueriesAfterAdding | dist/service/ServiceContext.ts:23-51 | after any additions to a fresh context, hasErrors holds iff some added message is an Error, and isGood is its negation |
| Service.QueryRefreshesErrors | dist/service/ServiceContext.ts:23-38 | a query after appending m stores the earlier Error messages followed by m when m is an Error |

## Left out

- The `console.log` trace in `execute()` is left out. It is a logging side effect and does not affect the result.
- The `__extends` prototype helper in `Range.js` is left out. It is transpiler boilerplate for class inheritance, and the rule variants of `Rule` replace it.
- TypeScript constructor overloads are left out. The implementation signature is modelled once, with Dafny default parameters.
- The `StopOnFirstFailure` render type is left out. The enumeration value exists, but `CompositeRule` is not part of this model, so only the AND-of-all-children evaluation is modelled.
- Severity and priority are stored and never read, because no shown code branches on them.
- RulePolicy's `source` and `result` fields are left out, because the shown code never assigns them.
- RenderMin: type coercion when comparing non-numeric present values (`true >= 1`, `"3" <= 5`) is not modelled, because Min's source is not part of this model. A present non-number fails Min. Bounds are numbers only.
- RenderMax: the same coercion limit as RenderMin.
- NaN and the infinities are left out. `Num` holds a finite real, so NaN (which JavaScript's `>=` and `<=` reject) and ±Infinity cannot be written as targets or bounds. IEEE rounding is not modelled either.
- Object identity is left out. A `RuleResult` holds the rule value after rendering, not a reference to a mutable object. A composite's children are values inside it.
- The `this.Messages &&` guard in `hasErrors()`/`isGood()` is left out, because in the model `messages` is always a sequence, never null.
- The `ServiceMessage` builder (`WithDisplayToUser`, `WithMessageType`, `WithSource`) and `toString` are left out, because their source is not part of this model. A message is a plain record.
- The Angular demo component that reads the context and logs is left out, because it is UI glue. Filtering `ErrorMessages` by `DisplayToUser` is that caller's business.
