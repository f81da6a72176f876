# StingrayApp core, modelled in Dafny

StingrayApp is a MOOSE application for coupled electro-chemo-thermo-mechanical
simulations of electrochemical cells. This project models four of its parts
and proves properties of them:

- the **Redox** interface kernel (`redox.dfy`, module `Redox`). It sits on the
  electrode/electrolyte interface. It decides which side of the interface is
  the electrode, forms the surface overpotential eta, and evaluates the
  Butler-Volmer current density i(eta) and its slope di/deta at the mean
  interface temperature. It then assembles the Lagrange-multiplier residual
  for the element side and for the neighbour side. A pair of subdomains that
  is neither electrode/electrolyte nor electrolyte/electrode is the fatal
  error "Internal error".
- the **swelling deformation gradient** material (`swelling.dfy`, module
  `Swelling`). It checks that there are as many reference concentrations and
  molar volumes as concentrations. It declares one derivative property
  dFs/dc_i per species. At each quadrature point it accumulates the volume
  ratio Js = 1 + sum_i beta Omega_i (c_i - cRef_i), then stores
  Fs = cbrt(Js) I and dFs/dc_i = Js^(-2/3)/3 beta Omega_i I.
- the **electrical energy density** base material (`energy_density.dfy`,
  module `EnergyDensity`). It declares psi and its derivatives in Phi and in
  grad(Phi). It declares dpsi/dF only when a `deformation_gradient`
  property exists. Each evaluation runs the precompute hook, writes the
  derivatives, and writes psi last.
- the **bulk charge transport** material (`bulk_charge_transport.dfy`, module
  `BulkCharge`). It pulls the conductivity back as
  sigma0 = det(F) F^-1 sigma F^-T, with F the identity when there is no
  deformation gradient. It stores the flux sigma0 grad(Phi), the energy
  E = 1/2 flux . grad(Phi), and dE/dln(T) = flux . grad(Phi).

Supporting modules:

- `Tensor` (`tensor.dfy`): 3-vectors and 3x3 tensors, with the algebra the
  proofs need.
- `Elementary` (`elementary.dfy`): exp, cbrt and pow taken as parameters.
- `Forward` (`forward.dfy`): forward-mode dual numbers, the arithmetic of the
  AD reals the kernel computes with. The current density's hand-coded
  derivative is proved equal to the one forward mode gives.
- `Outcome` (`outcome.dfy`): `Option` and `Result`.
- `Properties` (`properties.dfy`): material property names and values. A
  derivative property name is the constructor `Derivative(of, wrt)`, so two
  derivative names are equal exactly when both parts are.

Materials whose fields MOOSE updates per quadrature point are classes:

- The property storage is a field (an `array` per species for the swelling
  material, a `map` from property name to value for the energy density).
- Evaluation methods state the whole new state in terms of specification
  functions.
- Lemmas state what those functions satisfy.

The pure kernel arithmetic is made of functions and lemmas.

The conductivity pull-back is what BulkChargeTransport.C:31 computes:
sigma_0 = det(F) F^-1 sigma F^-T, with sigma the `electric_conductivity`
material property. `BulkCharge.PullBack` is exactly this expression.

The bulk charge transport evaluation replaces the base evaluation and writes
only the flux, E and dE/dln(T). When a deformation gradient exists, the
base still declares dpsi/dF, but nothing ever writes it, so it keeps its
initial zero even though E depends on F through sigma_0.
`BulkCharge.BaseDerivativesNotWritten` states this. The model records it
and does not correct it.

## Model

| member | source | states |
|---|---|---|
| Redox.Classify | src/interfacekernels/RedoxLagrangeMultiplier.C:54-67 | the electrode-first pairing holds exactly when element/neighbour ids are electrode/electrolyte; electrolyte-first exactly when that test fails and the ids are electrolyte/electrode; otherwise no pairing |
| Redox.ClassifySwapped | src/interfacekernels/RedoxLagrangeMultiplier.C:54-65 | with distinct electrode and electrolyte ids, swapping element and neighbour keeps a pair classified and flips its pairing |
| Redox.CoincidentIdsBreakSymmetry | src/interfacekernels/RedoxLagrangeMultiplier.C:54-65 | when both ids coincide, only a pair on that subdomain is classified, and the electrode-first branch wins from both sides |
| Redox.SurfaceOverpotential | src/interfacekernels/RedoxLagrangeMultiplier.C:52-65 | eta is electrode potential minus electrolyte potential for either pairing; d eta/du is +1 exactly for electrode-first and -1 otherwise |
| Redox.OverpotentialSlopeIsExact | src/interfacekernels/RedoxLagrangeMultiplier.C:57-58 | d eta/du is the exact derivative: eta(u + h) = eta(u) + d eta/du * h for every h |
| Redox.OverpotentialSwapped | src/interfacekernels/RedoxLagrangeMultiplier.C:57-64 | viewed from the other side with the flipped pairing, eta is unchanged and its slope changes sign |
| Redox.CurrentDensity | src/interfacekernels/RedoxLagrangeMultiplier.C:85-98 | i and di/deta are the value and the derivative that forward-mode differentiation of the same formula, seeded at eta, produces: the hand-coded slope equals the AD slope for every eta (its equilibrium value, sign and odd symmetry are the lemmas below) |
| Redox.InterfaceTemperature | src/interfacekernels/RedoxLagrangeMultiplier.C:88 | the interface temperature is equidistant from the two side temperatures and lies between them |
| Redox.NoCurrentAtEquilibrium | src/interfacekernels/RedoxLagrangeMultiplier.C:88-90 | at zero overpotential the Butler-Volmer current density is zero |
| Redox.SlopeAtEquilibrium | src/interfacekernels/RedoxLagrangeMultiplier.C:88-95 | at zero overpotential di/deta = i0 (alpha_a + alpha_c) F/(R T) |
| Redox.SlopePositive | src/interfacekernels/RedoxLagrangeMultiplier.C:92-95 | with positive i0, transfer coefficients and F/(R T), di/deta is positive at every overpotential |
| Redox.SymmetricTransferIsOdd | src/interfacekernels/RedoxLagrangeMultiplier.C:89-95 | with equal transfer coefficients, i(-eta) = -i(eta) and di/deta(-eta) = di/deta(eta) |
| Redox.QpResidual | src/interfacekernels/RedoxLagrangeMultiplier.C:48-83 | the residual exists exactly when the subdomain pair is classified; otherwise it is the fatal error "Internal error" |
| Redox.ResidualUsesOnlySlope | src/interfacekernels/RedoxLagrangeMultiplier.C:69-79 | the residual depends on the current density only through di/deta: two exponentials giving the same slope give the same residual on either side |
| Redox.TraversalSymmetry | src/interfacekernels/RedoxLagrangeMultiplier.C:54-79 | with distinct ids, traversing the same point from the other side (sides swapped, normal reversed) gives the same residual for the corresponding side, and the point stays well posed |
| Swelling.DerivativeNames | src/materials/kinematics/SwellingDeformationGradient.C:47-49 | one derivative name per concentration, the i-th being d swelling_deformation_gradient / d c_i |
| Swelling.DerivativeNamesDistinct | src/materials/kinematics/SwellingDeformationGradient.C:47-49 | two declared derivative names coincide exactly when their concentration names do |
| Swelling.NoSwellingAtReference | src/materials/kinematics/SwellingDeformationGradient.C:61-64 | with every concentration at its reference value the accumulated volume change is zero |
| Swelling.VolumeChangeSensitivity | src/materials/kinematics/SwellingDeformationGradient.C:63-64 | raising species k's concentration by h changes the volume change by beta Omega_k h, the other species being unaffected |
| Swelling.SwellingIsIsotropic | src/materials/kinematics/SwellingDeformationGradient.C:66 | Fs is symmetric and det Fs = Js |
| Swelling.UndeformedAtUnitVolume | src/materials/kinematics/SwellingDeformationGradient.C:66-70 | at Js = 1, Fs is the identity and dFs/dc_i = beta Omega_i / 3 I |
| Swelling.WorkedExample | src/materials/kinematics/SwellingDeformationGradient.C:61-64 | one species with beta 0.1, Omega 1, c 2, cRef 1 gives Js = 1.1 |
| Swelling.ReferenceStateIsUndeformed | src/materials/kinematics/SwellingDeformationGradient.C:58-66 | at the reference concentrations Js = 1 and Fs = I, whatever the number of species |
| Swelling.SwellingDeformationGradient.constructor | src/materials/kinematics/SwellingDeformationGradient.C:42-49 | one molar-volume property per name and one derivative property per concentration, named by DerivativeNames |
| Swelling.SwellingDeformationGradient.Create | src/materials/kinematics/SwellingDeformationGradient.C:26-50 | construction fails with the length-mismatch message exactly when the reference concentrations or molar volumes differ in number from the concentrations; otherwise it yields a valid material |
| Swelling.SwellingDeformationGradient.ComputeQpProperties | src/materials/kinematics/SwellingDeformationGradient.C:58-71 | after the loops Fs = cbrt(Js) I and each dFs/dc_i = Js^(-2/3)/3 beta Omega_i I, with Js the volume ratio over all species |
| Swelling.SwellingDeformationGradient.InitQpStatefulProperties | src/materials/kinematics/SwellingDeformationGradient.C:52-56 | initialisation leaves the same state as an evaluation |
| EnergyDensity.DeclaredNames | src/materials/electrodynamics/ElectricalEnergyDensity.C:26-35 | dpsi/dF is declared exactly when the deformation gradient exists |
| EnergyDensity.DeclaredNamesDistinct | src/materials/electrodynamics/ElectricalEnergyDensity.C:27-35 | psi, dpsi/dPhi and dpsi/dgrad(Phi) have distinct names; four distinct names with F unless the potential is named deformation_gradient, three otherwise |
| EnergyDensity.WrittenCoversDeclared | src/materials/electrodynamics/ElectricalEnergyDensity.C:39-48 | unless dpsi/dF shares the name of dpsi/dPhi, one evaluation writes exactly the declared properties, each derivative with its hook's value and psi from the properties including this evaluation's derivatives |
| EnergyDensity.PsiIndependentOfEarlierState | src/materials/electrodynamics/ElectricalEnergyDensity.C:42-47 | because psi is written after the derivatives, a psi hook reading only the derivatives writes the same psi whatever the properties held before the evaluation |
| EnergyDensity.EvaluationOrderShape | src/materials/electrodynamics/ElectricalEnergyDensity.C:42-47 | precompute runs first, psi is written last, dpsi/dF is written exactly when F exists, and no step repeats |
| EnergyDensity.ElectricalEnergyDensity.constructor | src/materials/electrodynamics/ElectricalEnergyDensity.C:18-37 | F is used exactly when deformation_gradient is an existing property; every declared property starts at zero |
| EnergyDensity.ElectricalEnergyDensity.ComputeQpProperties | src/materials/electrodynamics/ElectricalEnergyDensity.C:39-48 | the store is overwritten at exactly the declared names with the hooks' values, psi being computed over the store holding this evaluation's derivatives, and the steps taken are the evaluation order |
| BulkCharge.DeformationOrIdentity | src/materials/electrodynamics/BulkChargeTransport.C:30 | F is the deformation gradient when it exists and the identity (det 1) otherwise |
| BulkCharge.PullBackOfIdentity | src/materials/electrodynamics/BulkChargeTransport.C:30-31 | without deformation the pulled-back conductivity equals the conductivity |
| BulkCharge.PullBackSymmetric | src/materials/electrodynamics/BulkChargeTransport.C:31 | the pull-back of a symmetric conductivity is symmetric for every F |
| BulkCharge.QuadFormOfPullBack | src/materials/electrodynamics/BulkChargeTransport.C:31 | v . sigma0 v = det(F) (w . sigma w) with w = F^-T v |
| BulkCharge.PullBackPositiveDefinite | src/materials/electrodynamics/BulkChargeTransport.C:31 | for det F > 0 the pull-back of a positive definite conductivity is positive definite |
| BulkCharge.SensitivityIsTwiceEnergy | src/materials/electrodynamics/BulkChargeTransport.C:34-35 | dE/dln(T) is twice E |
| BulkCharge.FluxIsEnergyGradient | src/materials/electrodynamics/BulkChargeTransport.C:33-34 | for symmetric sigma0, E(g + h) = E(g) + flux(g) . h + E(h), so the stored flux is the gradient of E in grad(Phi) |
| BulkCharge.EnergyPositive | src/materials/electrodynamics/BulkChargeTransport.C:33-34 | a positive definite sigma0 gives positive E for every non-zero grad(Phi) |
| BulkCharge.StoredEnergyPositive | src/materials/electrodynamics/BulkChargeTransport.C:30-35 | for a positive definite conductivity and det F > 0 (or no F), the stored E is positive for non-zero grad(Phi) and dE/dln(T) = 2E |
| BulkCharge.BulkChargeTransport.constructor | src/materials/electrodynamics/BulkChargeTransport.C:18-24 | declares the base properties plus dE/dln(T), named as the derivative of psi with respect to "ln(T)" |
| BulkCharge.BaseDerivativesNotWritten | src/materials/electrodynamics/BulkChargeTransport.C:26-36 | the evaluation leaves dpsi/dF (when F exists) at its previous value, and dpsi/dPhi too unless the potential is named "ln(T)" |
| BulkCharge.BulkChargeTransport.ComputeQpProperties | src/materials/electrodynamics/BulkChargeTransport.C:26-36 | writes the flux, then E from the stored flux, then dE/dln(T) from it; no other property changes |
| Properties.DerivativeNameInjective | src/materials/electrodynamics/ElectricalEnergyDensity.C:29-34 | two derivative property names are equal exactly when they differentiate the same property with respect to the same variables |
| Tensor.AdjugateInverseIsInverse | src/materials/electrodynamics/BulkChargeTransport.C:31 | for det != 0, adjugate / det is both a left and a right inverse, so an inverse satisfying the model's contract exists |
| Tensor.InverseOfIdentity | src/materials/electrodynamics/BulkChargeTransport.C:30-31 | any left inverse of every non-singular tensor maps the identity to itself |

## Left out

- Floating point: reals are exact. exp, cbrt and pow are parameters constrained only by `Elementary.Lawful`.
- Automatic differentiation: AD values are plain reals, and AD derivative tracking is not modelled.
- The RankTwoTensor library: the tensor inverse is a parameter constrained by `Tensor.IsInverse`. The source's result for a singular F is not modelled.
- MOOSE plumbing is not modelled. This covers `validParams`, registration, `getParam`, coupled variables and material property lookup, and the mapping from subdomain names to ids (ids are plain integers here).
- `prependBaseName`: property names carry no base-name prefix.
- `derivativePropertyName`: its string format is not modelled. A derivative name is the constructor `Derivative(of, wrt)`, assumed injective.
- Quadrature loops: each method models one quadrature point. The swelling material keeps one Fs and one dFs/dc_i per species.
- include/interfacekernels/Redox.h declares the multiplier fields `_lm`/`_lm_neighbor`, but the constructor in RedoxLagrangeMultiplier.C initialises `_Phi`/`_Phi_neighbor`, and `lagrange_multiplier` is never added to the parameters. The model takes the residual's multiplier values as inputs.
- Redox.QpResidual: the test function and its gradient are indexed by quadrature point only (`_test[_qp]`, `_grad_test[_qp]` and their neighbour forms at RedoxLagrangeMultiplier.C:74-79). The model reads them as one test function value and gradient per side; the loop over test functions is not modelled.
- Redox.QpResidual: requires `WellPosed` (R != 0 and mean T != 0 on classified pairs). The source divides by those values and would produce inf/NaN, which reals cannot express.
- Redox.QpResidual: the final `return 0` after the switch is unreachable and is not modelled.
- Redox.CurrentDensity: di/deta is proved equal to the forward-mode derivative of i. Forward mode takes exp' = exp as its rule for exp (`Forward.Exp`); this rule is not derived, because exp is only a parameter.
- Swelling.SwellingGradientRate: it is not proved to be the derivative of cbrt(Js), for the same reason.
- Swelling.SwellingDeformationGradient.constructor: it models the part after the length check. The check itself is `Create`, because a Dafny constructor cannot fail.
- EnergyDensity.ElectricalEnergyDensity.ComputeQpProperties: the precompute hook's own effects are not modelled. The hook is recorded in the trace only.
- EnergyDensity.DeclaredNamesDistinct: a potential named `deformation_gradient` makes dpsi/dPhi and dpsi/dF share a name. The lemma exposes this; MOOSE's reaction to the duplicate declaration is not modelled.
- BulkCharge.BulkChargeTransport: the derived class's `_E`, `_d_E_d_grad_Phi` and `_energy_name` are modelled as the base's psi, dpsi/dgrad(Phi) and psi name. Their declarations live in headers that are not part of this model.
- include/materials/chemistry/Charging.h and src/materials/forces/HeatFlux.C are context only and are not part of this model.
