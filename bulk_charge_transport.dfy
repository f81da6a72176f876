// Bulk charge transport: the electrical energy density of a conductor.
//
// The conductivity sigma is given in the current configuration; it is pulled
// back to the reference configuration as sigma0 = det(F) F^-1 sigma F^-T,
// with F the identity when there is no deformation gradient. The material
// then stores the flux dE/dgrad(Phi) = sigma0 grad(Phi), the energy density
// E = 1/2 (sigma0 grad(Phi)) . grad(Phi), and the sensitivity of E to the
// logarithm of the temperature, (sigma0 grad(Phi)) . grad(Phi).
//
// The material extends the electrical energy density base and replaces its
// evaluation entirely; it is modelled as a base object it owns plus the one
// property it adds. Its E and dE/dgrad(Phi) are the base's psi and
// dpsi/dgrad(Phi).

module BulkCharge {
  import opened Tensor
  import opened Outcome
  import opened Properties
  import opened EnergyDensity

  /** F when the deformation gradient exists, the identity otherwise. */
  function DeformationOrIdentity(f: Option<Mat3>): (F: Mat3)
    ensures f.None? ==> F == Identity() && Det(F) == 1.0
    ensures f.Some? ==> F == f.value
  {
    if f.Some? then f.value else Identity()
  }

  /** det(F) F^-1 sigma F^-T, with `inverse` the tensor library's inverse. */
  function PullBack(inverse: Mat3 -> Mat3, F: Mat3, sigma: Mat3): Mat3
  {
    Mul(Mul(Scale(Det(F), inverse(F)), sigma), Transpose(inverse(F)))
  }

  /** dE/dgrad(Phi) = sigma0 grad(Phi). */
  function Flux(sigma0: Mat3, gradPhi: Vec3): Vec3
  {
    Apply(sigma0, gradPhi)
  }

  /** E = (1/2 flux) . grad(Phi). */
  function Energy(flux: Vec3, gradPhi: Vec3): real
  {
    Dot(ScaleVec(0.5, flux), gradPhi)
  }

  /** dE/dln(T) = flux . grad(Phi). */
  function LogTemperatureSensitivity(flux: Vec3, gradPhi: Vec3): real
  {
    Dot(flux, gradPhi)
  }

  // ----------------------------------------------------------- the pull-back

  /** Without deformation the pulled-back conductivity is the conductivity itself. */
  lemma PullBackOfIdentity(inverse: Mat3 -> Mat3, sigma: Mat3)
    requires IsInverse(inverse)
    ensures PullBack(inverse, Identity(), sigma) == sigma
  {
    InverseOfIdentity(inverse);
    DetIdentity();
    ScaleOne(Identity());
    TransposeIdentity();
    MulIdentity(sigma);
  }

  lemma PullBackIsScaledCongruence(inverse: Mat3 -> Mat3, F: Mat3, sigma: Mat3)
    ensures PullBack(inverse, F, sigma)
            == Scale(Det(F), Mul(Mul(inverse(F), sigma), Transpose(inverse(F))))
  {
    ScaleMulLeft(Det(F), inverse(F), sigma);
    ScaleMulLeft(Det(F), Mul(inverse(F), sigma), Transpose(inverse(F)));
  }

  /** The pull-back of a symmetric conductivity is symmetric, for any F. */
  lemma PullBackSymmetric(inverse: Mat3 -> Mat3, F: Mat3, sigma: Mat3)
    requires Symmetric(sigma)
    ensures Symmetric(PullBack(inverse, F, sigma))
  {
    PullBackIsScaledCongruence(inverse, F, sigma);
    CongruenceSymmetric(inverse(F), sigma);
    ScaleSymmetric(Det(F), Mul(Mul(inverse(F), sigma), Transpose(inverse(F))));
  }

  /** v . sigma0 v == det(F) (w . sigma w) with w = F^-T v. */
  lemma QuadFormOfPullBack(inverse: Mat3 -> Mat3, F: Mat3, sigma: Mat3, v: Vec3)
    ensures QuadForm(PullBack(inverse, F, sigma), v)
            == Det(F) * QuadForm(sigma, Apply(Transpose(inverse(F)), v))
  {
    var c := Mul(Mul(inverse(F), sigma), Transpose(inverse(F)));
    PullBackIsScaledCongruence(inverse, F, sigma);
    CongruenceQuadForm(inverse(F), sigma, v);
    ScaledQuadForm(Det(F), c, v, QuadForm(sigma, Apply(Transpose(inverse(F)), v)));
  }

  lemma ScaledQuadForm(s: real, m: Mat3, v: Vec3, q: real)
    requires QuadForm(m, v) == q
    ensures QuadForm(Scale(s, m), v) == s * q
  {
    QuadFormScale(s, m, v);
  }

  /**
   * With an orientation-preserving F (det F > 0), the pull-back of a
   * positive definite conductivity is positive definite.
   */
  lemma PullBackPositiveDefinite(inverse: Mat3 -> Mat3, F: Mat3, sigma: Mat3)
    requires IsInverse(inverse)
    requires Det(F) > 0.0
    requires PositiveDefinite(sigma)
    ensures PositiveDefinite(PullBack(inverse, F, sigma))
  {
    forall v | v != ZeroVec() ensures QuadForm(PullBack(inverse, F, sigma), v) > 0.0 {
      var w := Apply(Transpose(inverse(F)), v);
      if w == ZeroVec() {
        LeftInverseTransposeInjective(inverse(F), F, v);
      }
      QuadFormOfPullBack(inverse, F, sigma, v);
      PositiveProduct(Det(F), QuadForm(sigma, w));
    }
  }

  // --------------------------------------------------------------- the energy

  /** dE/dln(T) is twice the energy density. */
  lemma SensitivityIsTwiceEnergy(flux: Vec3, gradPhi: Vec3)
    ensures LogTemperatureSensitivity(flux, gradPhi) == 2.0 * Energy(flux, gradPhi)
  {
    DotScale(0.5, flux, gradPhi);
  }

  /**
   * The stored flux is the exact gradient of the energy in grad(Phi) when
   * sigma0 is symmetric: E(g + h) = E(g) + flux(g) . h + E(h), and the
   * remainder E(h) is quadratic in h.
   */
  lemma FluxIsEnergyGradient(sigma0: Mat3, g: Vec3, h: Vec3)
    requires Symmetric(sigma0)
    ensures Energy(Flux(sigma0, Add(g, h)), Add(g, h))
            == Energy(Flux(sigma0, g), g) + Dot(Flux(sigma0, g), h) + Energy(Flux(sigma0, h), h)
  {
    var a := Apply(sigma0, g);
    var b := Apply(sigma0, h);
    ApplyAdd(sigma0, g, h);
    DotScale(0.5, Add(a, b), Add(g, h));
    DotScale(0.5, a, g);
    DotScale(0.5, b, h);
    DotAdd(Add(a, b), g, h);
    DotAdd(g, a, b);
    DotAdd(h, a, b);
    DotSymmetric(Add(a, b), g);
    DotSymmetric(Add(a, b), h);
    DotSymmetric(g, a);
    DotSymmetric(h, b);
    DotOfApply(sigma0, h, g);
    SymmetricIsSelfTranspose(sigma0);
    DotSymmetric(h, a);
  }

  /** A positive definite sigma0 stores positive energy for every non-zero grad(Phi). */
  lemma EnergyPositive(sigma0: Mat3, gradPhi: Vec3)
    requires PositiveDefinite(sigma0)
    requires gradPhi != ZeroVec()
    ensures Energy(Flux(sigma0, gradPhi), gradPhi) > 0.0
  {
    DotScale(0.5, Apply(sigma0, gradPhi), gradPhi);
    assert QuadForm(sigma0, gradPhi) > 0.0;
  }

  // ----------------------------------------------------------------- material

  class BulkChargeTransport {
    /** The electrical energy density part of this material. */
    const energy: ElectricalEnergyDensity
    const temperatureName: string
    /** The declared name of dE/dln(T). */
    const dEDLnTName: PropName

    ghost predicate Valid()
      reads this, energy
    {
      && energy.Valid()
      && dEDLnTName == Derivative(energy.psiName, ["ln(" + temperatureName + ")"])
      && dEDLnTName in energy.store
    }

    /** Builds the energy density part and declares dE/dln(T). */
    constructor (phiName: string, psiName: string, temperatureName: string, available: set<PropName>)
      ensures Valid()
      ensures fresh(energy)
      ensures energy.phiName == phiName && energy.psiName == psiName && this.temperatureName == temperatureName
      ensures energy.names == DeclaredNames(phiName, psiName, Named(DeformationGradientName) in available)
      ensures energy.store == InitialStore(energy.names)[dEDLnTName := Scalar(0.0)]
      ensures energy.trace == []
    {
      energy := new ElectricalEnergyDensity(phiName, psiName, available);
      this.temperatureName := temperatureName;
      dEDLnTName := Derivative(psiName, ["ln(" + temperatureName + ")"]);
      new;
      energy.store := energy.store[dEDLnTName := Scalar(0.0)];
    }

    /**
     * One evaluation from the conductivity and grad(Phi) at the point, and
     * F when the deformation gradient exists. It writes the flux, then E,
     * then dE/dln(T), reading the stored flux back for the last two; the
     * other derivatives of the base keep their values.
     */
    method ComputeQpProperties(inverse: Mat3 -> Mat3, sigma: Mat3, gradPhi: Vec3, f: Option<Mat3>)
      requires Valid()
      requires f.Some? <==> energy.names.dPsiDF.Some?
      modifies energy
      ensures Valid()
      ensures var flux := Flux(PullBack(inverse, DeformationOrIdentity(f), sigma), gradPhi);
              energy.store == old(energy.store)[energy.names.dPsiDGradPhi := Vector(flux)]
                                               [energy.names.psi := Scalar(Energy(flux, gradPhi))]
                                               [dEDLnTName := Scalar(LogTemperatureSensitivity(flux, gradPhi))]
      ensures energy.trace == old(energy.trace)
    {
      DeclaredNamesDistinct(energy.phiName, energy.psiName, energy.names.dPsiDF.Some?);
      var sigma0 := PullBack(inverse, DeformationOrIdentity(f), sigma);
      energy.store := energy.store[energy.names.dPsiDGradPhi := Vector(Flux(sigma0, gradPhi))];
      var flux := energy.store[energy.names.dPsiDGradPhi].v;
      energy.store := energy.store[energy.names.psi := Scalar(Energy(flux, gradPhi))];
      flux := energy.store[energy.names.dPsiDGradPhi].v;
      energy.store := energy.store[dEDLnTName := Scalar(LogTemperatureSensitivity(flux, gradPhi))];
    }
  }

  /**
   * The evaluation writes only the flux, E and dE/dln(T). The base's
   * dpsi/dF, declared whenever F exists, keeps whatever it held before,
   * which is its initial zero, although E depends on F through sigma0.
   * dpsi/dPhi keeps its value as well, unless the potential is named
   * "ln(T)" and so shares its name with dE/dln(T).
   */
  lemma BaseDerivativesNotWritten(phiName: string, psiName: string, temperatureName: string, hasF: bool,
                                  s: map<PropName, PropValue>, flux: PropValue, e: PropValue, dEDLnT: PropValue)
    requires DeclaredNames(phiName, psiName, hasF).dPsiDPhi in s
    requires hasF ==> DeclaredNames(phiName, psiName, hasF).dPsiDF.value in s
    ensures var n := DeclaredNames(phiName, psiName, hasF);
            var after := s[n.dPsiDGradPhi := flux][n.psi := e][Derivative(psiName, ["ln(" + temperatureName + ")"]) := dEDLnT];
            && (hasF ==> after[n.dPsiDF.value] == s[n.dPsiDF.value])
            && after[n.dPsiDPhi] == if phiName == "ln(" + temperatureName + ")" then dEDLnT else s[n.dPsiDPhi]
  {
    var n := DeclaredNames(phiName, psiName, hasF);
    var lnT := "ln(" + temperatureName + ")";
    DeclaredNamesDistinct(phiName, psiName, hasF);
    assert [lnT] != [DeformationGradientName] by {
      assert [lnT][0][0] != [DeformationGradientName][0][0];
    }
    assert "grad_" + phiName != DeformationGradientName by {
      assert ("grad_" + phiName)[0] == 'g';
    }
    assert ["grad_" + phiName] != [DeformationGradientName] by {
      assert ["grad_" + phiName][0] != [DeformationGradientName][0];
    }
    if phiName != lnT {
      assert [phiName] != [lnT] by {
        assert [phiName][0] != [lnT][0];
      }
    }
  }

  /**
   * For a positive definite conductivity and an orientation-preserving (or
   * absent) deformation gradient, the stored energy is positive for every
   * non-zero potential gradient, and dE/dln(T) is twice it.
   */
  lemma StoredEnergyPositive(inverse: Mat3 -> Mat3, sigma: Mat3, gradPhi: Vec3, f: Option<Mat3>)
    requires IsInverse(inverse)
    requires PositiveDefinite(sigma)
    requires f.Some? ==> Det(f.value) > 0.0
    requires gradPhi != ZeroVec()
    ensures var flux := Flux(PullBack(inverse, DeformationOrIdentity(f), sigma), gradPhi);
            Energy(flux, gradPhi) > 0.0 && LogTemperatureSensitivity(flux, gradPhi) == 2.0 * Energy(flux, gradPhi)
  {
    var F := DeformationOrIdentity(f);
    PullBackPositiveDefinite(inverse, F, sigma);
    EnergyPositive(PullBack(inverse, F, sigma), gradPhi);
    SensitivityIsTwiceEnergy(Flux(PullBack(inverse, F, sigma), gradPhi), gradPhi);
  }
}
