// The Redox interface kernel: the Lagrange-multiplier form of the
// Butler-Volmer condition across an electrode/electrolyte interface.
//
// At each quadrature point of an interface side the kernel decides which of
// its two elements is the electrode, forms the surface overpotential eta and
// its derivative with respect to the element-side potential, evaluates the
// Butler-Volmer current density and its closed-form derivative at the mean
// interface temperature, and returns the element-side or neighbour-side
// residual. Everything here is straight-line arithmetic, so the model is a
// set of functions.

module Redox {
  import opened Outcome
  import opened Elementary
  import opened Tensor
  import Forward

  /** Which of the two elements of an interface side a residual is for. */
  datatype ResidualSide = Element | Neighbor

  /** The two admissible orderings of the (element, neighbour) subdomains. */
  datatype Pairing = ElectrodeElectrolyte | ElectrolyteElectrode

  /**
   * The kernel's constant parameters: exchange current density, anodic and
   * cathodic charge transfer coefficients, Faraday's constant, the ideal gas
   * constant, the electric conductivity, and the two subdomain ids.
   */
  datatype Kernel = Kernel(i0: real, alphaA: real, alphaC: real,
                           faraday: real, gasConstant: real, sigma: real,
                           electrodeId: int, electrolyteId: int)

  /**
   * What the kernel sees of one element at the quadrature point: its
   * subdomain, the electric potential, the temperature, the Lagrange
   * multiplier, and the test function with its gradient.
   */
  datatype SideState = SideState(subdomain: int, u: real, t: real, lm: real,
                                 test: real, gradTest: Vec3)

  /** One interface quadrature point, seen from the element side with outward normal `normal`. */
  datatype InterfacePoint = InterfacePoint(elem: SideState, neighbor: SideState, normal: Vec3)

  /** The surface overpotential and its derivative with respect to the element-side potential. */
  datatype Overpotential = Overpotential(eta: real, dEtaDu: real)

  /** The Butler-Volmer current density and its derivative with respect to eta. */
  datatype Current = Current(i: real, dIdEta: real)

  // ------------------------------------------------------------ classification

  /**
   * Decides the pairing of the element and neighbour subdomains. The
   * electrode-first test comes first, so it wins when the two ids coincide;
   * any other pair has no pairing.
   */
  function Classify(k: Kernel, elemSubdomain: int, neighborSubdomain: int): (r: Option<Pairing>)
    ensures r == Some(ElectrodeElectrolyte) <==>
              elemSubdomain == k.electrodeId && neighborSubdomain == k.electrolyteId
    ensures r == Some(ElectrolyteElectrode) <==>
              !(elemSubdomain == k.electrodeId && neighborSubdomain == k.electrolyteId) &&
              elemSubdomain == k.electrolyteId && neighborSubdomain == k.electrodeId
    ensures r == None <==>
              !(elemSubdomain == k.electrodeId && neighborSubdomain == k.electrolyteId) &&
              !(elemSubdomain == k.electrolyteId && neighborSubdomain == k.electrodeId)
  {
    if elemSubdomain == k.electrodeId && neighborSubdomain == k.electrolyteId then
      Some(ElectrodeElectrolyte)
    else if elemSubdomain == k.electrolyteId && neighborSubdomain == k.electrodeId then
      Some(ElectrolyteElectrode)
    else
      None
  }

  function Flip(p: Pairing): Pairing
  {
    match p
    case ElectrodeElectrolyte => ElectrolyteElectrode
    case ElectrolyteElectrode => ElectrodeElectrolyte
  }

  /** With distinct subdomain ids, swapping element and neighbour flips the pairing. */
  lemma ClassifySwapped(k: Kernel, a: int, b: int)
    requires k.electrodeId != k.electrolyteId
    ensures Classify(k, a, b).Some? <==> Classify(k, b, a).Some?
    ensures Classify(k, a, b).Some? ==> Classify(k, b, a) == Some(Flip(Classify(k, a, b).value))
  {
  }

  /**
   * With coincident ids the electrode-first test wins from both sides, so
   * both traversals treat the element as the electrode.
   */
  lemma CoincidentIdsBreakSymmetry(k: Kernel, a: int, b: int)
    requires k.electrodeId == k.electrolyteId
    ensures Classify(k, a, b).Some? <==> a == k.electrodeId && b == k.electrodeId
    ensures Classify(k, a, b).Some? ==> Classify(k, a, b) == Classify(k, b, a) == Some(ElectrodeElectrolyte)
  {
  }

  // ------------------------------------------------------------- overpotential

  /** eta is the electrode potential minus the electrolyte potential. */
  function SurfaceOverpotential(p: Pairing, u: real, uNeighbor: real): (o: Overpotential)
    ensures o.dEtaDu == 1.0 || o.dEtaDu == -1.0
    ensures o.dEtaDu == 1.0 <==> p == ElectrodeElectrolyte
    ensures p == ElectrodeElectrolyte ==> o.eta == u - uNeighbor
    ensures p == ElectrolyteElectrode ==> o.eta == uNeighbor - u
  {
    match p
    case ElectrodeElectrolyte => Overpotential(u - uNeighbor, 1.0)
    case ElectrolyteElectrode => Overpotential(uNeighbor - u, -1.0)
  }

  /** dEtaDu is the exact derivative of eta in u: eta is affine in u with that slope. */
  lemma OverpotentialSlopeIsExact(p: Pairing, u: real, uNeighbor: real, h: real)
    ensures SurfaceOverpotential(p, u + h, uNeighbor).eta ==
            SurfaceOverpotential(p, u, uNeighbor).eta + SurfaceOverpotential(p, u, uNeighbor).dEtaDu * h
    ensures SurfaceOverpotential(p, u + h, uNeighbor).dEtaDu == SurfaceOverpotential(p, u, uNeighbor).dEtaDu
  {
  }

  /** Seen from the other side of the interface, eta is the same value and its slope flips. */
  lemma OverpotentialSwapped(p: Pairing, uA: real, uB: real)
    ensures SurfaceOverpotential(Flip(p), uB, uA).eta == SurfaceOverpotential(p, uA, uB).eta
    ensures SurfaceOverpotential(Flip(p), uB, uA).dEtaDu == -SurfaceOverpotential(p, uA, uB).dEtaDu
  {
  }

  // ----------------------------------------------------------- current density

  /** The temperature at the interface: the mean of the two sides' temperatures. */
  function InterfaceTemperature(t: real, tNeighbor: real): (tm: real)
    ensures tm - t == tNeighbor - tm
    ensures t <= tNeighbor ==> t <= tm <= tNeighbor
    ensures tNeighbor <= t ==> tNeighbor <= tm <= t
  {
    (t + tNeighbor) / 2.0
  }

  /** F / R / T, the factor turning an overpotential into a dimensionless coefficient. */
  function ThermalFactor(k: Kernel, t: real): real
    requires k.gasConstant != 0.0 && t != 0.0
  {
    k.faraday / k.gasConstant / t
  }

  /** The dimensionless coefficient coef = F / (R T) eta. */
  function Coefficient(k: Kernel, t: real, eta: real): real
    requires k.gasConstant != 0.0 && t != 0.0
  {
    ThermalFactor(k, t) * eta
  }

  /** exp(alpha coef): one exponential branch of the Butler-Volmer law. */
  function Branch(f: Functions, alpha: real, coef: real): real
  {
    f.exp(alpha * coef)
  }

  /**
   * The Butler-Volmer current density i0 (exp(alphaA coef) - exp(-alphaC coef))
   * at overpotential eta, and its hand-coded derivative in eta: the derivative
   * in coef times the derivative F / (R T) of coef in eta. Both are what
   * forward-mode differentiation of the same formula, seeded at eta, gives.
   */
  function CurrentDensity(k: Kernel, f: Functions, t: real, eta: real): (c: Current)
    requires k.gasConstant != 0.0 && t != 0.0
    ensures var ad := CurrentDensityForward(k, f, t, Forward.Variable(eta));
            c.i == ad.re && c.dIdEta == ad.du
  {
    var coef := Coefficient(k, t, eta);
    var anodic := Branch(f, k.alphaA, coef);
    var cathodic := Branch(f, -k.alphaC, coef);
    var dIDCoef := SlopeInCoefficient(k.i0, k.alphaA, k.alphaC, anodic, cathodic);
    ForwardCurrentDensity(k, f, t, eta);
    Current(k.i0 * (anodic - cathodic), dIDCoef * ThermalFactor(k, t))
  }

  /** di/dcoef = i0 (alphaA exp(alphaA coef) + alphaC exp(-alphaC coef)), given the two branches. */
  function SlopeInCoefficient(i0: real, alphaA: real, alphaC: real, anodic: real, cathodic: real): real
  {
    i0 * (alphaA * anodic + alphaC * cathodic)
  }

  /** The current density formula evaluated on AD values, operation by operation. */
  function CurrentDensityForward(k: Kernel, f: Functions, t: real, eta: Forward.Dual): Forward.Dual
    requires k.gasConstant != 0.0 && t != 0.0
  {
    var coef := Forward.Times(Forward.Constant(ThermalFactor(k, t)), eta);
    var anodic := Forward.Exp(f, Forward.Times(Forward.Constant(k.alphaA), coef));
    var cathodic := Forward.Exp(f, Forward.Times(Forward.Constant(-k.alphaC), coef));
    Forward.Times(Forward.Constant(k.i0), Forward.Minus(anodic, cathodic))
  }

  /** One exponential branch on AD values: exp(alpha tf eta) with derivative alpha tf times itself. */
  lemma ForwardBranch(f: Functions, alpha: real, tf: real, eta: real)
    ensures Forward.Exp(f, Forward.Times(Forward.Constant(alpha), Forward.Times(Forward.Constant(tf), Forward.Variable(eta))))
            == Forward.Dual(Branch(f, alpha, tf * eta), Branch(f, alpha, tf * eta) * (alpha * tf))
  {
    var x := Forward.Times(Forward.Constant(tf), Forward.Variable(eta));
    Forward.TimesConstant(tf, Forward.Variable(eta));
    assert x == Forward.Dual(tf * eta, tf);
    var y := Forward.Times(Forward.Constant(alpha), x);
    Forward.TimesConstant(alpha, x);
    assert y == Forward.Dual(alpha * (tf * eta), alpha * tf);
    ExpIsBranch(f, alpha, tf * eta, y);
  }

  lemma ExpIsBranch(f: Functions, alpha: real, coef: real, a: Forward.Dual)
    requires a.re == alpha * coef
    ensures Forward.Exp(f, a) == Forward.Dual(Branch(f, alpha, coef), Branch(f, alpha, coef) * a.du)
  {
  }

  lemma SlopeRearranged(i0: real, a: real, x: real, c: real, y: real, tf: real, d: real)
    requires d == x * (a * tf) - y * (-c * tf)
    ensures i0 * d == SlopeInCoefficient(i0, a, c, x, y) * tf
  {
  }

  lemma ForwardCurrentDensity(k: Kernel, f: Functions, t: real, eta: real)
    requires k.gasConstant != 0.0 && t != 0.0
    ensures var coef := Coefficient(k, t, eta);
            var anodic := Branch(f, k.alphaA, coef);
            var cathodic := Branch(f, -k.alphaC, coef);
            var dIDCoef := SlopeInCoefficient(k.i0, k.alphaA, k.alphaC, anodic, cathodic);
            CurrentDensityForward(k, f, t, Forward.Variable(eta))
            == Forward.Dual(k.i0 * (anodic - cathodic), dIDCoef * ThermalFactor(k, t))
  {
    var tf := ThermalFactor(k, t);
    var anodic := Branch(f, k.alphaA, tf * eta);
    var cathodic := Branch(f, -k.alphaC, tf * eta);
    ForwardBranch(f, k.alphaA, tf, eta);
    ForwardBranch(f, -k.alphaC, tf, eta);
    var coef := Forward.Times(Forward.Constant(tf), Forward.Variable(eta));
    var a := Forward.Exp(f, Forward.Times(Forward.Constant(k.alphaA), coef));
    var c := Forward.Exp(f, Forward.Times(Forward.Constant(-k.alphaC), coef));
    var diff := Forward.Dual(anodic - cathodic, anodic * (k.alphaA * tf) - cathodic * (-k.alphaC * tf));
    assert Forward.Minus(a, c) == diff;
    Forward.TimesConstant(k.i0, diff);
    assert Coefficient(k, t, eta) == tf * eta;
    SlopeRearranged(k.i0, k.alphaA, anodic, k.alphaC, cathodic, tf, diff.du);
  }

  lemma BranchesAgree(f: Functions, alpha: real, x: real, beta: real, y: real)
    requires alpha * x == beta * y
    ensures Branch(f, alpha, x) == Branch(f, beta, y)
  {
  }

  lemma BranchAtZero(f: Functions, alpha: real)
    requires Lawful(f)
    ensures Branch(f, alpha, 0.0) == 1.0
  {
  }

  lemma BranchPositive(f: Functions, alpha: real, coef: real)
    requires Lawful(f)
    ensures Branch(f, alpha, coef) > 0.0
  {
  }

  /** No current flows at zero overpotential. */
  lemma NoCurrentAtEquilibrium(k: Kernel, f: Functions, t: real)
    requires Lawful(f)
    requires k.gasConstant != 0.0 && t != 0.0
    ensures CurrentDensity(k, f, t, 0.0).i == 0.0
  {
    assert Coefficient(k, t, 0.0) == 0.0;
    BranchAtZero(f, k.alphaA);
    BranchAtZero(f, -k.alphaC);
  }

  /** At zero overpotential the slope is the linearised Butler-Volmer slope i0 (alphaA + alphaC) F / (R T). */
  lemma SlopeAtEquilibrium(k: Kernel, f: Functions, t: real)
    requires Lawful(f)
    requires k.gasConstant != 0.0 && t != 0.0
    ensures CurrentDensity(k, f, t, 0.0).dIdEta == k.i0 * (k.alphaA + k.alphaC) * ThermalFactor(k, t)
  {
    assert Coefficient(k, t, 0.0) == 0.0;
    BranchAtZero(f, k.alphaA);
    BranchAtZero(f, -k.alphaC);
  }

  lemma PositiveSum(a: real, x: real, c: real, y: real)
    requires a > 0.0 && x > 0.0 && c > 0.0 && y > 0.0
    ensures a * x + c * y > 0.0
  {
  }

  /**
   * With positive exchange current density, positive transfer coefficients and
   * a positive F / (R T), the current strictly increases with eta: its
   * derivative is positive at every overpotential.
   */
  lemma SlopePositive(k: Kernel, f: Functions, t: real, eta: real)
    requires Lawful(f)
    requires k.gasConstant != 0.0 && t != 0.0
    requires k.i0 > 0.0 && k.alphaA > 0.0 && k.alphaC > 0.0 && ThermalFactor(k, t) > 0.0
    ensures CurrentDensity(k, f, t, eta).dIdEta > 0.0
  {
    var coef := Coefficient(k, t, eta);
    BranchPositive(f, k.alphaA, coef);
    BranchPositive(f, -k.alphaC, coef);
    PositiveSum(k.alphaA, Branch(f, k.alphaA, coef), k.alphaC, Branch(f, -k.alphaC, coef));
    var sum := k.alphaA * Branch(f, k.alphaA, coef) + k.alphaC * Branch(f, -k.alphaC, coef);
    PositiveProduct(k.i0, sum);
    PositiveProduct(k.i0 * sum, ThermalFactor(k, t));
  }

  /**
   * With equal transfer coefficients the current is odd in eta and its
   * derivative even: reversing the overpotential reverses the current.
   */
  lemma SymmetricTransferIsOdd(k: Kernel, f: Functions, t: real, eta: real)
    requires k.gasConstant != 0.0 && t != 0.0
    requires k.alphaA == k.alphaC
    ensures CurrentDensity(k, f, t, -eta).i == -CurrentDensity(k, f, t, eta).i
    ensures CurrentDensity(k, f, t, -eta).dIdEta == CurrentDensity(k, f, t, eta).dIdEta
  {
    BranchesAgree(f, k.alphaA, Coefficient(k, t, -eta), -k.alphaC, Coefficient(k, t, eta));
    BranchesAgree(f, -k.alphaC, Coefficient(k, t, -eta), k.alphaA, Coefficient(k, t, eta));
  }

  // ------------------------------------------------------------------ residual

  /**
   * What the kernel's arithmetic needs: a non-zero gas constant and a
   * non-zero mean temperature, at the points where a residual is formed.
   */
  predicate WellPosed(k: Kernel, p: InterfacePoint)
  {
    Classify(k, p.elem.subdomain, p.neighbor.subdomain).Some? ==>
      k.gasConstant != 0.0 && InterfaceTemperature(p.elem.t, p.neighbor.t) != 0.0
  }

  /**
   * The weak-form term lm (sigma grad(test) . n - test di/deta deta/du)
   * shared by both sides; the neighbour side passes the negated multiplier.
   */
  function WeakForm(lm: real, sigma: real, gradTestDotNormal: real, test: real, dIdEta: real, dEtaDu: real): real
  {
    lm * (sigma * gradTestDotNormal - test * dIdEta * dEtaDu)
  }

  /**
   * The residual at one interface quadrature point for the element or the
   * neighbour side. A subdomain pair that is neither electrode/electrolyte
   * nor electrolyte/electrode is a fatal internal error.
   */
  function QpResidual(k: Kernel, f: Functions, p: InterfacePoint, side: ResidualSide): (r: Result<real>)
    requires WellPosed(k, p)
    ensures r.Ok? <==> Classify(k, p.elem.subdomain, p.neighbor.subdomain).Some?
    ensures r.Fatal? ==> r.message == "Internal error"
  {
    match Classify(k, p.elem.subdomain, p.neighbor.subdomain)
    case None => Fatal("Internal error")
    case Some(pairing) =>
      var o := SurfaceOverpotential(pairing, p.elem.u, p.neighbor.u);
      var c := CurrentDensity(k, f, InterfaceTemperature(p.elem.t, p.neighbor.t), o.eta);
      match side
      case Element =>
        Ok(WeakForm(p.elem.lm, k.sigma, Dot(p.elem.gradTest, p.normal), p.elem.test, c.dIdEta, o.dEtaDu))
      case Neighbor =>
        Ok(WeakForm(-p.neighbor.lm, k.sigma, Dot(p.neighbor.gradTest, p.normal), p.neighbor.test, c.dIdEta, o.dEtaDu))
  }

  /**
   * The current density itself never enters a residual: two sets of
   * transcendental functions that agree on the slope at this point give the
   * same residual.
   */
  lemma ResidualUsesOnlySlope(k: Kernel, f: Functions, g: Functions, p: InterfacePoint, side: ResidualSide)
    requires WellPosed(k, p)
    requires Classify(k, p.elem.subdomain, p.neighbor.subdomain).Some?
    requires
      var o := SurfaceOverpotential(Classify(k, p.elem.subdomain, p.neighbor.subdomain).value, p.elem.u, p.neighbor.u);
      var t := InterfaceTemperature(p.elem.t, p.neighbor.t);
      CurrentDensity(k, f, t, o.eta).dIdEta == CurrentDensity(k, g, t, o.eta).dIdEta
    ensures QpResidual(k, f, p, side) == QpResidual(k, g, p, side)
  {
  }

  /** The same interface point traversed from the other side: sides swapped, normal reversed. */
  function Reversed(p: InterfacePoint): InterfacePoint
  {
    InterfacePoint(p.neighbor, p.elem, Neg(p.normal))
  }

  function OtherSide(side: ResidualSide): ResidualSide
  {
    match side
    case Element => Neighbor
    case Neighbor => Element
  }

  lemma DotNeg(u: Vec3, v: Vec3)
    ensures Dot(u, Neg(v)) == -Dot(u, v)
  {
  }

  /** Negating the multiplier, the normal and the slope of eta leaves the weak-form term unchanged. */
  lemma WeakFormReversed(lm: real, sigma: real, gn: real, test: real, dIdEta: real, dEtaDu: real)
    ensures WeakForm(-lm, sigma, -gn, test, dIdEta, -dEtaDu) == WeakForm(lm, sigma, gn, test, dIdEta, dEtaDu)
  {
    assert sigma * -gn - test * dIdEta * -dEtaDu == -(sigma * gn - test * dIdEta * dEtaDu);
  }

  /**
   * Traversal symmetry: with distinct electrode and electrolyte ids, the
   * residual for a given physical side of the interface does not depend on
   * which side the kernel is run from. eta keeps its value, its slope flips,
   * and so does the normal.
   */
  lemma TraversalSymmetry(k: Kernel, f: Functions, p: InterfacePoint, side: ResidualSide)
    requires k.electrodeId != k.electrolyteId
    requires WellPosed(k, p)
    ensures WellPosed(k, Reversed(p))
    ensures QpResidual(k, f, Reversed(p), OtherSide(side)) == QpResidual(k, f, p, side)
  {
    var q := Reversed(p);
    ClassifySwapped(k, p.elem.subdomain, p.neighbor.subdomain);
    var tm := InterfaceTemperature(p.elem.t, p.neighbor.t);
    assert InterfaceTemperature(q.elem.t, q.neighbor.t) == tm;
    var c := Classify(k, p.elem.subdomain, p.neighbor.subdomain);
    if c.Some? {
      var o := SurfaceOverpotential(c.value, p.elem.u, p.neighbor.u);
      var oq := SurfaceOverpotential(Flip(c.value), q.elem.u, q.neighbor.u);
      OverpotentialSwapped(c.value, p.elem.u, p.neighbor.u);
      assert oq.eta == o.eta && oq.dEtaDu == -o.dEtaDu;
      var s := CurrentDensity(k, f, tm, o.eta).dIdEta;
      DotNeg(p.elem.gradTest, p.normal);
      DotNeg(p.neighbor.gradTest, p.normal);
      match side
      case Element =>
        WeakFormReversed(p.elem.lm, k.sigma, Dot(p.elem.gradTest, p.normal), p.elem.test, s, o.dEtaDu);
      case Neighbor =>
        WeakFormReversed(-p.neighbor.lm, k.sigma, Dot(p.neighbor.gradTest, p.normal), p.neighbor.test, s, o.dEtaDu);
        assert - -p.neighbor.lm == p.neighbor.lm;
    }
  }

}
