// Forward-mode automatic differentiation, the arithmetic behind the AD reals
// the kernels compute with: a value carries its derivative with respect to
// one seeded input, and every operation applies its differentiation rule.
// Only the operations the current density uses are given.

module Forward {
  import opened Elementary

  /** A value and its derivative with respect to the seeded input. */
  datatype Dual = Dual(re: real, du: real)

  /** A quantity that does not depend on the seeded input. */
  function Constant(c: real): Dual { Dual(c, 0.0) }

  /** The seeded input itself: its derivative is one. */
  function Variable(x: real): Dual { Dual(x, 1.0) }

  function Minus(a: Dual, b: Dual): Dual { Dual(a.re - b.re, a.du - b.du) }

  /** The product rule. */
  function Times(a: Dual, b: Dual): Dual { Dual(a.re * b.re, a.re * b.du + a.du * b.re) }

  /** The chain rule with exp' = exp. */
  function Exp(f: Functions, a: Dual): Dual { Dual(f.exp(a.re), f.exp(a.re) * a.du) }

  /** Multiplying by a constant scales both the value and the derivative. */
  lemma TimesConstant(c: real, a: Dual)
    ensures Times(Constant(c), a) == Dual(c * a.re, c * a.du)
  {
  }
}
