/** The Range rule: a composite of not-null, Min and Max over one target. */
module RangeRules {
  import opened Wrappers
  import opened Values
  import opened Rules

  const NotNullName: string := "TargetIsNotNull"
  const NotNullMessage: string := "The target is null or undefined."
  const MinName: string := "MinValue"
  const MinMessage: string := "The value must be equal to or greater than the start range value."
  const MaxName: string := "MaxValue"
  const MaxMessage: string := "The value must be equal to or less than the end range value."

  /** The Range constructor.  The not-null check always comes first; Min and
      Max are only created for a target that is present, so a missing target
      is judged by the not-null check alone.  Nothing is validated here, not
      even `start <= end`. */
  function NewRange(name: string, message: string, target: Value, start: real, end: real,
                    isDisplayable: bool := false): (r: Rule)
    ensures r.RangeRule? && FreshMeta(r.meta)
    ensures r.target == target && r.start == start && r.end == end
    ensures r.meta.name == name && r.meta.message == message
    ensures r.meta.isDisplayable == isDisplayable
    ensures |r.rules| >= 1 && r.rules[0] == NewNotNull(NotNullName, NotNullMessage, target)
    ensures |r.rules| == 1 <==> (target == Null || target == Undefined)
    ensures target != Null && target != Undefined ==>
      r.rules == [NewNotNull(NotNullName, NotNullMessage, target),
                  NewMin(MinName, MinMessage, target, start),
                  NewMax(MaxName, MaxMessage, target, end)]
  {
    var notNull := [NewNotNull(NotNullName, NotNullMessage, target)];
    var children :=
      if !IsNullish(target) then
        notNull + [NewMin(MinName, MinMessage, target, start), NewMax(MaxName, MaxMessage, target, end)]
      else
        notNull;
    RangeRule(NewMeta(name, message, isDisplayable), target, start, end, children)
  }

  /** A Range always renders (it has no unimplemented parts), and it is valid
      exactly when the target is a number inside `[start, end]`, both ends included. */
  lemma RangeVerdict(name: string, message: string, target: Value, start: real, end: real, isDisplayable: bool)
    ensures var o := Render(NewRange(name, message, target, start, end, isDisplayable));
      o.Success? && o.value.target == target &&
      (IsValid(o.value.rule) <==> target.Num? && start <= target.n <= end)
  {
    var r := NewRange(name, message, target, start, end, isDisplayable);
    assert !Unimplemented(r.rules[0]);
    if |r.rules| == 3 {
      assert !Unimplemented(r.rules[1]) && !Unimplemented(r.rules[2]);
      if target.Num? && start <= target.n <= end {
        assert Verdict(r.rules[1]) && Verdict(r.rules[2]);
      } else if target.Num? && target.n < start {
        assert !Verdict(r.rules[1]);
      } else if target.Num? {
        assert !Verdict(r.rules[2]);
      } else {
        assert !Verdict(r.rules[1]);
      }
    } else {
      assert !Verdict(r.rules[0]);
    }
  }

  /** Both bounds belong to a well-formed range. */
  lemma RangeAcceptsBounds(name: string, message: string, start: real, end: real)
    requires start <= end
    ensures IsValid(Render(NewRange(name, message, Num(start), start, end)).value.rule)
    ensures IsValid(Render(NewRange(name, message, Num(end), start, end)).value.rule)
  {
    RangeVerdict(name, message, Num(start), start, end, false);
    RangeVerdict(name, message, Num(end), start, end, false);
  }

  /** Whatever the bounds, a number below the start or above the end is rejected. */
  lemma RangeRejectsOutside(name: string, message: string, x: real, start: real, end: real)
    requires x < start || x > end
    ensures !IsValid(Render(NewRange(name, message, Num(x), start, end)).value.rule)
  {
    RangeVerdict(name, message, Num(x), start, end, false);
  }

  /** The worked examples of the Range documentation that pass, over the range 1..3. */
  lemma RangeDocExamplesValid(name: string, message: string)
    ensures IsValid(Render(NewRange(name, message, Num(1.0), 1.0, 3.0)).value.rule)
    ensures IsValid(Render(NewRange(name, message, Num(2.0), 1.0, 3.0)).value.rule)
  {
    RangeVerdict(name, message, Num(1.0), 1.0, 3.0, false);
    RangeVerdict(name, message, Num(2.0), 1.0, 3.0, false);
  }

  /** The worked examples of the Range documentation that fail, over the range 1..3. */
  lemma RangeDocExamplesInvalid(name: string, message: string)
    ensures !IsValid(Render(NewRange(name, message, Num(0.0), 1.0, 3.0)).value.rule)
    ensures !IsValid(Render(NewRange(name, message, Num(4.0), 1.0, 3.0)).value.rule)
  {
    RangeVerdict(name, message, Num(0.0), 1.0, 3.0, false);
    RangeVerdict(name, message, Num(4.0), 1.0, 3.0, false);
  }

  /** Targets need not be whole numbers: 2.5 lies in the range 1..3. */
  lemma RangeAcceptsFraction(name: string, message: string)
    ensures IsValid(Render(NewRange(name, message, Num(2.5), 1.0, 3.0)).value.rule)
  {
    RangeVerdict(name, message, Num(2.5), 1.0, 3.0, false);
  }

  /** A missing target fails the Range through its only child, the not-null check. */
  lemma MissingTargetFailsOnNotNullAlone(name: string, message: string, target: Value, start: real, end: real)
    requires target == Null || target == Undefined
    ensures var o := Render(NewRange(name, message, target, start, end));
      && o.Success?
      && !IsValid(o.value.rule)
      && |o.value.rule.rules| == 1
      && o.value.rule.rules[0].NotNullRule?
      && !IsValid(o.value.rule.rules[0])
  {
  }

  /** Construction accepts `start > end`; such a range renders, but no target passes it. */
  lemma InvertedRangeRejectsEverything(name: string, message: string, target: Value, start: real, end: real)
    requires start > end
    ensures var o := Render(NewRange(name, message, target, start, end));
      o.Success? && !IsValid(o.value.rule)
  {
    RangeVerdict(name, message, target, start, end, false);
  }
}
