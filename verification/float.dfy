/** The per-field sanitizer `impl ReplaceInfNan for f64` (src/commands/source.rs). */
module Float {

  /** An IEEE-754 double, as far as the tool looks at one: it is only ever
      classified and possibly replaced, never computed with. Negative zero is
      not told apart from zero. */
  datatype F64 = Finite(r: real) | PosInf | NegInf | NaN {

    /** `f64::is_infinite` */
    predicate IsInfinite() {
      PosInf? || NegInf?
    }

    /** `f64::is_nan` */
    predicate IsNan() {
      NaN?
    }
  }

  /** The literal `0.0` the sanitizer writes. */
  const Zero: F64 := Finite(0.0)

  /** `replace_inf_nan` on one `f64`: an infinite or NaN value is overwritten
      with 0.0; any other value is left as it is. */
  function ReplaceInfNan(x: F64): (r: F64)
    ensures r.Finite?
    ensures x.Finite? ==> r == x
    ensures !x.Finite? ==> r == Zero
  {
    if x.IsInfinite() || x.IsNan() then Zero else x
  }

  /** The sanitizer changes a value exactly when the value is not finite. */
  lemma ReplaceInfNanChangesOnlyNonFinite(x: F64)
    ensures ReplaceInfNan(x) != x <==> !x.Finite?
  {
  }

  /** Sanitizing twice is sanitizing once. */
  lemma ReplaceInfNanIdempotent(x: F64)
    ensures ReplaceInfNan(ReplaceInfNan(x)) == ReplaceInfNan(x)
  {
  }

  /** Every value of a sequence is finite. */
  ghost predicate AllFinite(xs: seq<F64>) {
    forall i :: 0 <= i < |xs| ==> xs[i].Finite?
  }

  /** The sanitizer applied to each value of a sequence, in place. */
  function ReplaceAll(xs: seq<F64>): (r: seq<F64>)
    ensures |r| == |xs|
    ensures AllFinite(r)
    ensures forall i :: 0 <= i < |xs| && xs[i].Finite? ==> r[i] == xs[i]
    ensures forall i :: 0 <= i < |xs| && !xs[i].Finite? ==> r[i] == Zero
  {
    seq(|xs|, i requires 0 <= i < |xs| => ReplaceInfNan(xs[i]))
  }

  /** Sanitizing a sequence that is already all finite leaves it unchanged. */
  lemma ReplaceAllKeepsFinite(xs: seq<F64>)
    requires AllFinite(xs)
    ensures ReplaceAll(xs) == xs
  {
  }
}
