/** Properties of rule evaluation that relate several calls. */
module RuleLemmas {
  import opened Wrappers
  import opened Values
  import opened Rules

  /** Rendering reads a rule's configuration and never its previous verdict:
      two rules that differ only in validity flags render identically. */
  lemma {:induction false} RenderIgnoresValidity(a: Rule, b: Rule)
    requires SameConfig(a, b)
    ensures Render(a) == Render(b)
    decreases a, 1
  {
    match a
    case RangeRule(m, t, s, e, cs) =>
      RenderAllIgnoresValidity(cs, b.rules);
    case _ =>
  }

  lemma {:induction false} RenderAllIgnoresValidity(xs: seq<Rule>, ys: seq<Rule>)
    requires |xs| == |ys|
    requires forall i :: 0 <= i < |xs| ==> SameConfig(xs[i], ys[i])
    ensures RenderAll(xs) == RenderAll(ys)
    decreases xs, 0
  {
    if |xs| > 0 {
      RenderIgnoresValidity(xs[0], ys[0]);
      RenderAllIgnoresValidity(xs[1..], ys[1..]);
    }
  }

  /** Rendering the rule a render produced gives back the very same result:
      the flag is reset before it is decided, so repeated renders agree. */
  lemma RenderIdempotent(r: Rule)
    requires Render(r).Success?
    ensures Render(Render(r).value.rule) == Render(r)
  {
    RenderIgnoresValidity(r, Render(r).value.rule);
  }

  /** A rendered composite is valid exactly when every rendered child is. */
  lemma CompositeIsAndOfChildren(r: Rule)
    requires r.RangeRule? && Render(r).Success?
    ensures var after := Render(r).value.rule;
      after.RangeRule? && |after.rules| == |r.rules| &&
      (IsValid(after) <==> forall i :: 0 <= i < |after.rules| ==> IsValid(after.rules[i]))
  {
  }

  /** The bare RulePolicy has no `render()`: evaluating it always fails with the unimplemented-rule error. */
  lemma BaseRenderFails(name: string, message: string, isDisplayable: bool, severity: Severity, priority: int)
    ensures Execute(NewPolicy(name, message, isDisplayable, severity, priority))
         == Failure(UnimplementedRule(UnimplementedMessage))
  {
  }

  /** Leaving out the optional parameters of the implementation signature gives RulePolicy's defaults. */
  lemma PolicyDefaults(name: string, message: string)
    ensures var m := NewPolicy(name, message).meta;
      m.isValid && !m.isDisplayable && m.priority == 0 &&
      m.severity == Exception && m.renderType == EvaluateAllRules
  {
  }

  /** IsNotNullOrUndefined fails exactly for null and undefined; 0, false and
      the empty string are present values and pass. */
  lemma NotNullJudgesPresence(name: string, message: string, target: Value)
    ensures var o := Execute(NewNotNull(name, message, target));
      o.Success? && o.value.target == target &&
      (IsValid(o.value.rule) <==> target != Null && target != Undefined)
  {
  }

  lemma FalsyTargetsArePresent(name: string, message: string)
    ensures IsValid(Render(NewNotNull(name, message, Num(0.0))).value.rule)
    ensures IsValid(Render(NewNotNull(name, message, Bool(false))).value.rule)
    ensures IsValid(Render(NewNotNull(name, message, Str(""))).value.rule)
  {
  }
}
