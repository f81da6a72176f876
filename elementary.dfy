// The transcendental functions the material and kernel code call from the
// C++ standard library (std::exp, std::cbrt, std::pow). Real exponentials and
// roots cannot be defined exactly here, so the model takes them as parameters
// and assumes of them only the facts stated in Lawful.

module Elementary {

  datatype Functions = Functions(exp: real -> real, cbrt: real -> real, pow: (real, real) -> real)

  /**
   * exp(0) = 1, exp is positive, cbrt(1) = 1, cbrt is a cube root, and 1
   * raised to any power is 1.
   */
  ghost predicate Lawful(f: Functions)
  {
    && f.exp(0.0) == 1.0
    && (forall x :: f.exp(x) > 0.0)
    && f.cbrt(1.0) == 1.0
    && (forall x :: f.cbrt(x) * f.cbrt(x) * f.cbrt(x) == x)
    && (forall y :: f.pow(1.0, y) == 1.0)
  }
}
