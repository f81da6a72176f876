// Material property names and the values stored under them.
//
// MOOSE builds the name of a derivative property from the name of the
// property and the names of the variables it is differentiated with respect
// to. The exact string it produces is framework behaviour; the model keeps
// only what the materials rely on, that different (property, variables)
// pairs never share a name, by making the derivative name a constructor.

module Properties {
  import opened Tensor

  datatype PropName = Named(name: string) | Derivative(of: string, wrt: seq<string>)

  /** The value of a property at one quadrature point. */
  datatype PropValue = Scalar(s: real) | Vector(v: Vec3) | Tensor2(t: Mat3)

  /** Derivative names are equal only for the same property and the same variables. */
  lemma DerivativeNameInjective(a: string, u: seq<string>, b: string, w: seq<string>)
    ensures Derivative(a, u) == Derivative(b, w) <==> a == b && u == w
    ensures Derivative(a, u) != Named(b)
  {
  }
}
