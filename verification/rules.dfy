/** The rule contract (RulePolicy), the leaf rules and composite evaluation.

    Every rule kind is one variant of `Rule`; what the library expresses by
    overriding `render()` in a subclass is a case of `Render` here.  A rule
    object's mutable validity flag lives in its `Meta`; `Render` returns the
    rule as it stands after evaluation inside the `RuleResult` it builds. */
module Rules {
  import opened Wrappers
  import opened Values

  datatype Severity = Exception | Warning | Info

  datatype RenderType = EvaluateAllRules | StopOnFirstFailure

  /** The state every rule carries (the fields of RulePolicy). */
  datatype Meta = Meta(
    name: string,
    message: string,
    isValid: bool,
    isDisplayable: bool,
    priority: int,
    renderType: RenderType,
    severity: Severity)

  datatype Rule =
    | BasePolicy(meta: Meta)
    | NotNullRule(meta: Meta, target: Value)
    | MinRule(meta: Meta, target: Value, minimum: real)
    | MaxRule(meta: Meta, target: Value, maximum: real)
    | RangeRule(meta: Meta, target: Value, start: real, end: real, rules: seq<Rule>)

  /** What `render()` hands back: the rule that produced it and the target it judged. */
  datatype RuleResult = RuleResult(rule: Rule, target: Value)

  /** The error thrown by a rule that does not implement `render()`. */
  datatype RenderError = UnimplementedRule(message: string)

  const UnimplementedMessage: string :=
    "Each concreate rule must implement this function and return a valid Result."

  predicate IsValid(r: Rule)
  {
    r.meta.isValid
  }

  /** `r` with its validity flag set to `valid` and nothing else touched. */
  function WithValidity(r: Rule, valid: bool): Rule
  {
    r.(meta := r.meta.(isValid := valid))
  }

  /** The metadata every constructor starts from: not yet judged invalid, evaluating all children. */
  predicate FreshMeta(m: Meta)
  {
    m.isValid && m.renderType == EvaluateAllRules
  }

  /** The RulePolicy constructor, with its optional parameters and their defaults. */
  function NewMeta(name: string, message: string, isDisplayable: bool := false,
                   severity: Severity := Exception, priority: int := 0): (m: Meta)
    ensures FreshMeta(m)
    ensures m.name == name && m.message == message
    ensures m.isDisplayable == isDisplayable
    ensures m.severity == severity && m.priority == priority
  {
    Meta(name, message, true, isDisplayable, priority, EvaluateAllRules, severity)
  }

  /** A bare RulePolicy, which has no `render()` of its own. */
  function NewPolicy(name: string, message: string, isDisplayable: bool := false,
                     severity: Severity := Exception, priority: int := 0): (r: Rule)
    ensures r.BasePolicy? && FreshMeta(r.meta)
    ensures r.meta.name == name && r.meta.message == message
    ensures r.meta.isDisplayable == isDisplayable
    ensures r.meta.severity == severity && r.meta.priority == priority
  {
    BasePolicy(NewMeta(name, message, isDisplayable, severity, priority))
  }

  /** The IsNotNullOrUndefined constructor. */
  function NewNotNull(name: string, message: string, target: Value,
                      isDisplayable: bool := false): (r: Rule)
    ensures r.NotNullRule? && r.target == target && FreshMeta(r.meta)
    ensures r.meta.name == name && r.meta.message == message
    ensures r.meta.isDisplayable == isDisplayable
    ensures r.meta.severity == Exception && r.meta.priority == 0
  {
    NotNullRule(NewMeta(name, message, isDisplayable), target)
  }

  /** The Min constructor (its source is not part of this model; signature as Range uses it). */
  function NewMin(name: string, message: string, target: Value, minimum: real,
                  isDisplayable: bool := false): (r: Rule)
    ensures r.MinRule? && r.target == target && r.minimum == minimum && FreshMeta(r.meta)
    ensures r.meta.name == name && r.meta.message == message
    ensures r.meta.isDisplayable == isDisplayable
  {
    MinRule(NewMeta(name, message, isDisplayable), target, minimum)
  }

  /** The Max constructor (its source is not part of this model; signature as Range uses it). */
  function NewMax(name: string, message: string, target: Value, maximum: real,
                  isDisplayable: bool := false): (r: Rule)
    ensures r.MaxRule? && r.target == target && r.maximum == maximum && FreshMeta(r.meta)
    ensures r.meta.name == name && r.meta.message == message
    ensures r.meta.isDisplayable == isDisplayable
  {
    MaxRule(NewMeta(name, message, isDisplayable), target, maximum)
  }

  /** True when evaluating `r` reaches a rule with no `render()` of its own. */
  predicate Unimplemented(r: Rule)
  {
    match r
    case BasePolicy(_) => true
    case RangeRule(_, _, _, _, children) =>
      exists i :: 0 <= i < |children| && Unimplemented(children[i])
    case _ => false
  }

  /** Reference verdict, independent of how `Render` walks the tree: a leaf
      holds when its predicate holds of its target, a composite when every
      child holds. */
  predicate Verdict(r: Rule)
  {
    match r
    case BasePolicy(_) => false
    case NotNullRule(_, t) => !IsNullish(t)
    case MinRule(_, t, lo) => AtLeast(t, lo)
    case MaxRule(_, t, hi) => AtMost(t, hi)
    case RangeRule(_, _, _, _, children) =>
      forall i :: 0 <= i < |children| ==> Verdict(children[i])
  }

  /** `b` is `a` after (re-)evaluation: same kind, same configuration, same
      children, only validity flags may differ. */
  predicate SameConfig(a: Rule, b: Rule)
  {
    match a
    case RangeRule(m, t, s, e, cs) =>
      && b.RangeRule?
      && b.meta.(isValid := m.isValid) == m
      && b.target == t && b.start == s && b.end == e
      && |b.rules| == |cs|
      && forall i :: 0 <= i < |cs| ==> SameConfig(cs[i], b.rules[i])
    case _ =>
      a == WithValidity(b, a.meta.isValid)
  }

  predicate AllValid(rs: seq<Rule>)
  {
    forall i :: 0 <= i < |rs| ==> IsValid(rs[i])
  }

  /** IsNotNullOrUndefined's `render()`: reset the flag, clear it for a null or
      undefined target, and pair the rule with its target. */
  function RenderNotNull(r: Rule): (res: RuleResult)
    requires r.NotNullRule?
    ensures IsValid(res.rule) <==> !(r.target.Null? || r.target.Undefined?)
    ensures res.target == r.target
    ensures res.rule.NotNullRule? && res.rule.target == r.target
    ensures res.rule.meta.(isValid := r.meta.isValid) == r.meta
  {
    RuleResult(WithValidity(r, !IsNullish(r.target)), r.target)
  }

  /** Min's `render()`, as assumed: valid iff the target is present and at least the minimum. */
  function RenderMin(r: Rule): (res: RuleResult)
    requires r.MinRule?
    ensures IsValid(res.rule) <==> !IsNullish(r.target) && r.target.Num? && r.target.n >= r.minimum
    ensures res.target == r.target
    ensures res.rule.MinRule? && res.rule.target == r.target && res.rule.minimum == r.minimum
    ensures res.rule.meta.(isValid := r.meta.isValid) == r.meta
  {
    RuleResult(WithValidity(r, AtLeast(r.target, r.minimum)), r.target)
  }

  /** Max's `render()`, as assumed: valid iff the target is present and at most the maximum. */
  function RenderMax(r: Rule): (res: RuleResult)
    requires r.MaxRule?
    ensures IsValid(res.rule) <==> !IsNullish(r.target) && r.target.Num? && r.target.n <= r.maximum
    ensures res.target == r.target
    ensures res.rule.MaxRule? && res.rule.target == r.target && res.rule.maximum == r.maximum
    ensures res.rule.meta.(isValid := r.meta.isValid) == r.meta
  {
    RuleResult(WithValidity(r, AtMost(r.target, r.maximum)), r.target)
  }

  /** `render()` for every kind of rule.  The base policy fails; a leaf applies
      its predicate; a composite renders its children in order (the first
      failure propagates) and is valid when all of them are. */
  function Render(r: Rule): (o: Result<RuleResult, RenderError>)
    ensures o.Failure? <==> Unimplemented(r)
    ensures o.Failure? ==> o.error == UnimplementedRule(UnimplementedMessage)
    ensures o.Success? ==> !r.BasePolicy? && o.value.target == r.target
    ensures o.Success? ==> SameConfig(r, o.value.rule)
    ensures o.Success? ==> (IsValid(o.value.rule) <==> Verdict(r))
    decreases r, 1
  {
    match r
    case BasePolicy(_) => Failure(UnimplementedRule(UnimplementedMessage))
    case NotNullRule(_, _) => Success(RenderNotNull(r))
    case MinRule(_, _, _) => Success(RenderMin(r))
    case MaxRule(_, _, _) => Success(RenderMax(r))
    case RangeRule(m, t, s, e, children) =>
      match RenderAll(children)
      case Failure(err) => Failure(err)
      case Success(rendered) =>
        Success(RuleResult(RangeRule(m.(isValid := AllValid(rendered)), t, s, e, rendered), t))
  }

  /** Renders a composite's children in list order, stopping at the first error. */
  function RenderAll(rules: seq<Rule>): (o: Result<seq<Rule>, RenderError>)
    ensures o.Failure? <==> exists i :: 0 <= i < |rules| && Unimplemented(rules[i])
    ensures o.Failure? ==> o.error == UnimplementedRule(UnimplementedMessage)
    ensures o.Success? ==> |o.value| == |rules|
    ensures o.Success? ==> forall i :: 0 <= i < |rules| ==>
      SameConfig(rules[i], o.value[i]) && (IsValid(o.value[i]) <==> Verdict(rules[i]))
    decreases rules, 0
  {
    if |rules| == 0 then Success([])
    else
      match Render(rules[0])
      case Failure(err) => Failure(err)
      case Success(head) =>
        match RenderAll(rules[1..])
        case Failure(err) => Failure(err)
        case Success(tail) => Success([head.rule] + tail)
  }

  /** `execute()`: delegates to `render()` and hands its outcome back untouched. */
  function Execute(r: Rule): (o: Result<RuleResult, RenderError>)
    ensures o == Render(r)
    ensures o.Failure? <==> Unimplemented(r)
  {
    Render(r)
  }
}
