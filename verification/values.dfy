/** The targets rules are applied to: a small tagged model of JavaScript values. */
module Values {

  /** A JavaScript value as far as the rules can observe it.  A number is a
      finite real; NaN and the infinities are not represented. */
  datatype Value =
    | Null
    | Undefined
    | Num(n: real)
    | Bool(b: bool)
    | Str(s: string)

  /** JavaScript's loose `v == null`: true for null and for undefined, and for nothing else
      (in particular not for the falsy values 0, false and ""). */
  predicate IsNullish(v: Value)
  {
    v.Null? || v.Undefined?
  }

  /** `v >= bound` for a numeric target; a missing or non-numeric target is never at least a bound. */
  predicate AtLeast(v: Value, bound: real)
  {
    v.Num? && v.n >= bound
  }

  /** `v <= bound` for a numeric target; a missing or non-numeric target is never at most a bound. */
  predicate AtMost(v: Value, bound: real)
  {
    v.Num? && v.n <= bound
  }
}
