// The swelling deformation gradient material.
//
// Each chemical species i with concentration c_i, reference concentration
// cRef_i and molar volume Omega_i swells the material isotropically. The
// volume ratio is Js = 1 + sum_i beta Omega_i (c_i - cRef_i), the swelling
// deformation gradient is Fs = cbrt(Js) I, and the material also stores one
// derivative dFs/dc_i = Js^(-2/3) / 3 beta Omega_i I per species.

module Swelling {
  import opened Tensor
  import opened Elementary
  import opened Outcome
  import opened Properties

  /** The name under which the swelling deformation gradient is declared. */
  const FsName: string := "swelling_deformation_gradient"

  const LengthMismatch: string :=
    "Number of chemical species concentrations, reference concentrations, and molar volumes must be the same"

  // ------------------------------------------------------------ specification

  /** sum over i < n of beta Omega_i (c_i - cRef_i): the volume change of the first n species. */
  function VolumeChange(beta: real, omega: seq<real>, c: seq<real>, cRef: seq<real>, n: nat): real
    requires n <= |omega| && n <= |c| && n <= |cRef|
  {
    if n == 0 then 0.0
    else VolumeChange(beta, omega, c, cRef, n - 1) + beta * omega[n - 1] * (c[n - 1] - cRef[n - 1])
  }

  predicate SameLength(omega: seq<real>, c: seq<real>, cRef: seq<real>)
  {
    |omega| == |c| && |c| == |cRef|
  }

  /** Js, the volume ratio of the swelling. */
  function VolumeRatio(beta: real, omega: seq<real>, c: seq<real>, cRef: seq<real>): real
    requires SameLength(omega, c, cRef)
  {
    1.0 + VolumeChange(beta, omega, c, cRef, |c|)
  }

  /** Fs = cbrt(Js) I. */
  function SwellingGradient(f: Functions, js: real): Mat3
  {
    Scale(f.cbrt(js), Identity())
  }

  /** dFs/dc_i = Js^(-2/3) / 3 beta Omega_i I. */
  function SwellingGradientRate(f: Functions, js: real, beta: real, omegaI: real): Mat3
  {
    Scale(f.pow(js, -2.0 / 3.0) / 3.0 * beta * omegaI, Identity())
  }

  /** The names of the per-species derivatives of Fs. */
  function DerivativeNames(concentrationNames: seq<string>): (r: seq<PropName>)
    ensures |r| == |concentrationNames|
    ensures forall i :: 0 <= i < |r| ==> r[i] == Derivative(FsName, [concentrationNames[i]])
  {
    if concentrationNames == [] then []
    else DerivativeNames(concentrationNames[..|concentrationNames| - 1])
         + [Derivative(FsName, [concentrationNames[|concentrationNames| - 1]])]
  }

  // --------------------------------------------------------------- properties

  /** Exactly one derivative per concentration: distinct species get distinct derivative names. */
  lemma DerivativeNamesDistinct(concentrationNames: seq<string>, i: int, j: int)
    requires 0 <= i < |concentrationNames| && 0 <= j < |concentrationNames|
    ensures DerivativeNames(concentrationNames)[i] == DerivativeNames(concentrationNames)[j]
            <==> concentrationNames[i] == concentrationNames[j]
  {
    var r := DerivativeNames(concentrationNames);
    if r[i] == r[j] {
      assert [concentrationNames[i]][0] == [concentrationNames[j]][0];
    }
  }

  /** At the reference concentrations nothing swells: Js = 1. */
  lemma {:induction false} NoSwellingAtReference(beta: real, omega: seq<real>, c: seq<real>, n: nat)
    requires n <= |omega| && n <= |c|
    ensures VolumeChange(beta, omega, c, c, n) == 0.0
  {
    if n > 0 {
      NoSwellingAtReference(beta, omega, c, n - 1);
      assert c[n - 1] - c[n - 1] == 0.0;
    }
  }

  lemma Distribute(k: real, x: real, h: real, r: real)
    ensures k * ((x + h) - r) == k * (x - r) + k * h
  {
  }

  /**
   * Js is affine in each concentration with slope beta Omega_k: raising c_k
   * by h raises the volume change by beta Omega_k h, which is the factor the
   * derivative dFs/dc_k carries.
   */
  lemma {:induction false} VolumeChangeSensitivity(beta: real, omega: seq<real>, c: seq<real>, cRef: seq<real>,
                                                   n: nat, k: nat, h: real)
    requires n <= |omega| && n <= |c| && n <= |cRef| && k < |c|
    ensures VolumeChange(beta, omega, c[k := c[k] + h], cRef, n)
            == VolumeChange(beta, omega, c, cRef, n) + (if k < n then beta * omega[k] * h else 0.0)
  {
    if n > 0 {
      VolumeChangeSensitivity(beta, omega, c, cRef, n - 1, k, h);
      if k == n - 1 {
        Distribute(beta * omega[k], c[k], h, cRef[k]);
      }
    }
  }

  /** Fs is isotropic: a symmetric multiple of the identity whose determinant is Js. */
  lemma SwellingIsIsotropic(f: Functions, js: real)
    requires Lawful(f)
    ensures Symmetric(SwellingGradient(f, js))
    ensures Det(SwellingGradient(f, js)) == js
  {
    ScaleSymmetric(f.cbrt(js), Identity());
    DetScaledIdentity(f.cbrt(js));
  }

  /** At Js = 1, Fs = I and each dFs/dc_i is beta Omega_i / 3 I. */
  lemma UndeformedAtUnitVolume(f: Functions, beta: real, omegaI: real)
    requires Lawful(f)
    ensures SwellingGradient(f, 1.0) == Identity()
    ensures SwellingGradientRate(f, 1.0, beta, omegaI) == Scale(beta * omegaI / 3.0, Identity())
  {
    ScaleOne(Identity());
    assert f.pow(1.0, -2.0 / 3.0) == 1.0;
    assert 1.0 / 3.0 * beta * omegaI == beta * omegaI / 3.0;
  }

  /** One species with Omega = 1, c = 2, cRef = 1 and beta = 0.1 gives Js = 1.1. */
  lemma WorkedExample()
    ensures VolumeRatio(0.1, [1.0], [2.0], [1.0]) == 1.1
  {
    assert VolumeChange(0.1, [1.0], [2.0], [1.0], 0) == 0.0;
  }

  // ----------------------------------------------------------------- material

  class SwellingDeformationGradient {
    /** The concentration variables, one per species. */
    const concentrationNames: seq<string>
    /** The molar-volume property each species reads. */
    const molarVolumes: array<PropName>
    /** The declared names of the per-species derivatives dFs/dc_i. */
    const derivativeNames: array<PropName>

    /** Fs at the current quadrature point. */
    var fs: Mat3
    /** dFs/dc_i at the current quadrature point, one slot per species. */
    const dFsDc: array<Mat3>

    ghost predicate Valid()
      reads this
    {
      && molarVolumes != derivativeNames
      && molarVolumes.Length == |concentrationNames|
      && derivativeNames.Length == |concentrationNames|
      && dFsDc.Length == |concentrationNames|
    }

    /**
     * The constructor after the length check: it resolves one molar-volume
     * property per name and declares one derivative property per
     * concentration.
     */
    constructor (concentrationNames: seq<string>, molarVolumeNames: seq<string>)
      requires |molarVolumeNames| == |concentrationNames|
      ensures Valid()
      ensures this.concentrationNames == concentrationNames
      ensures forall i :: 0 <= i < molarVolumes.Length ==> molarVolumes[i] == Named(molarVolumeNames[i])
      ensures derivativeNames[..] == DerivativeNames(concentrationNames)
      ensures fresh(molarVolumes) && fresh(derivativeNames) && fresh(dFsDc)
    {
      var volumes := new PropName[|molarVolumeNames|];
      var i := 0;
      while i < |molarVolumeNames|
        invariant 0 <= i <= |molarVolumeNames|
        invariant forall j :: 0 <= j < i ==> volumes[j] == Named(molarVolumeNames[j])
      {
        volumes[i] := Named(molarVolumeNames[i]);
        i := i + 1;
      }
      var derivatives := new PropName[|concentrationNames|];
      i := 0;
      while i < |concentrationNames|
        invariant 0 <= i <= |concentrationNames|
        invariant forall j :: 0 <= j < i ==> derivatives[j] == Derivative(FsName, [concentrationNames[j]])
        invariant forall j :: 0 <= j < volumes.Length ==> volumes[j] == Named(molarVolumeNames[j])
      {
        derivatives[i] := Derivative(FsName, [concentrationNames[i]]);
        i := i + 1;
      }
      this.concentrationNames := concentrationNames;
      molarVolumes := volumes;
      derivativeNames := derivatives;
      fs := Zero();
      dFsDc := new Mat3[|concentrationNames|](_ => Zero());
    }

    /** Builds the material, failing unless there are as many reference concentrations and molar volumes as concentrations. */
    static method Create(concentrationNames: seq<string>, referenceNames: seq<string>, molarVolumeNames: seq<string>)
      returns (r: Result<SwellingDeformationGradient>)
      ensures r.Fatal? <==> |concentrationNames| != |referenceNames| || |concentrationNames| != |molarVolumeNames|
      ensures r.Fatal? ==> r.message == LengthMismatch
      ensures r.Ok? ==> fresh(r.value) && r.value.Valid()
                        && r.value.concentrationNames == concentrationNames
                        && r.value.derivativeNames[..] == DerivativeNames(concentrationNames)
    {
      if |concentrationNames| != |referenceNames| || |concentrationNames| != |molarVolumeNames| {
        return Fatal(LengthMismatch);
      }
      var m := new SwellingDeformationGradient(concentrationNames, molarVolumeNames);
      return Ok(m);
    }

    /**
     * Evaluates the material at one quadrature point from the swelling
     * coefficient and the per-species molar volumes, concentrations and
     * reference concentrations there.
     */
    method ComputeQpProperties(f: Functions, beta: real, omega: seq<real>, c: seq<real>, cRef: seq<real>)
      requires Valid()
      requires SameLength(omega, c, cRef) && |c| == |concentrationNames|
      modifies this, dFsDc
      ensures Valid()
      ensures fs == SwellingGradient(f, VolumeRatio(beta, omega, c, cRef))
      ensures forall i :: 0 <= i < dFsDc.Length ==>
                dFsDc[i] == SwellingGradientRate(f, VolumeRatio(beta, omega, c, cRef), beta, omega[i])
    {
      var js := 1.0;
      var i := 0;
      while i < |c|
        invariant 0 <= i <= |c|
        invariant js == 1.0 + VolumeChange(beta, omega, c, cRef, i)
      {
        js := js + beta * omega[i] * (c[i] - cRef[i]);
        i := i + 1;
      }
      fs := Scale(f.cbrt(js), Identity());
      i := 0;
      while i < |c|
        invariant 0 <= i <= |c|
        invariant fs == SwellingGradient(f, js)
        invariant forall j :: 0 <= j < i ==> dFsDc[j] == SwellingGradientRate(f, js, beta, omega[j])
      {
        dFsDc[i] := Scale(f.pow(js, -2.0 / 3.0) / 3.0 * beta * omega[i], Identity());
        i := i + 1;
      }
    }

    /** Initialising the stateful properties is an ordinary evaluation. */
    method InitQpStatefulProperties(f: Functions, beta: real, omega: seq<real>, c: seq<real>, cRef: seq<real>)
      requires Valid()
      requires SameLength(omega, c, cRef) && |c| == |concentrationNames|
      modifies this, dFsDc
      ensures Valid()
      ensures fs == SwellingGradient(f, VolumeRatio(beta, omega, c, cRef))
      ensures forall i :: 0 <= i < dFsDc.Length ==>
                dFsDc[i] == SwellingGradientRate(f, VolumeRatio(beta, omega, c, cRef), beta, omega[i])
    {
      ComputeQpProperties(f, beta, omega, c, cRef);
    }
  }

  /**
   * With every concentration at its reference value the material is
   * undeformed: Fs = I, whatever the number of species.
   */
  lemma ReferenceStateIsUndeformed(f: Functions, beta: real, omega: seq<real>, c: seq<real>)
    requires Lawful(f)
    requires SameLength(omega, c, c)
    ensures VolumeRatio(beta, omega, c, c) == 1.0
    ensures SwellingGradient(f, VolumeRatio(beta, omega, c, c)) == Identity()
  {
    NoSwellingAtReference(beta, omega, c, |c|);
    UndeformedAtUnitVolume(f, beta, 0.0);
  }
}
