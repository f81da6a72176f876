// The electrical energy density base material.
//
// It declares the energy density psi and its derivatives with respect to the
// electric potential Phi and to grad(Phi), and, only when a deformation
// gradient property exists, its derivative with respect to the deformation
// gradient F. Each evaluation calls the precompute hook, writes the
// derivatives, and writes psi last. The values themselves come from hooks a
// concrete energy density supplies; here they are parameters.

module EnergyDensity {
  import opened Tensor
  import opened Outcome
  import opened Properties

  /** The name of the deformation gradient property whose presence gates dpsi/dF. */
  const DeformationGradientName: string := "deformation_gradient"

  /** The names the material declares; dPsiDF is present only with a deformation gradient. */
  datatype Names = Names(psi: PropName, dPsiDPhi: PropName, dPsiDGradPhi: PropName, dPsiDF: Option<PropName>)

  /** What the hooks can see at a quadrature point: Phi, grad(Phi) and F if it exists. */
  datatype QpState = QpState(phi: real, gradPhi: Vec3, deformationGradient: Option<Mat3>)

  /**
   * The hooks of a concrete energy density: psi and its three derivatives.
   * psi runs last and also sees the material's properties as they stand
   * then, so it may be computed from the derivatives just written.
   */
  datatype EnergyForm = EnergyForm(psi: (QpState, map<PropName, PropValue>) -> real,
                                   dPsiDPhi: QpState -> real,
                                   dPsiDGradPhi: QpState -> Vec3,
                                   dPsiDF: QpState -> Mat3)

  /** The steps of one evaluation, in the order they can happen. */
  datatype Step = Precompute | WriteDPsiDPhi | WriteDPsiDGradPhi | WriteDPsiDF | WritePsi

  function DeclaredNames(phiName: string, psiName: string, hasF: bool): (n: Names)
    ensures n.dPsiDF.Some? <==> hasF
  {
    Names(Named(psiName),
          Derivative(psiName, [phiName]),
          Derivative(psiName, ["grad_" + phiName]),
          if hasF then Some(Derivative(psiName, [DeformationGradientName])) else None)
  }

  /** The set of declared property names. */
  function NameSet(n: Names): set<PropName>
  {
    {n.psi, n.dPsiDPhi, n.dPsiDGradPhi} + (if n.dPsiDF.Some? then {n.dPsiDF.value} else {})
  }

  /** Every declared property, holding the zero of its type. */
  function InitialStore(n: Names): map<PropName, PropValue>
  {
    var base := map[n.psi := Scalar(0.0), n.dPsiDPhi := Scalar(0.0), n.dPsiDGradPhi := Vector(ZeroVec())];
    if n.dPsiDF.Some? then base[n.dPsiDF.value := Tensor2(Zero())] else base
  }

  /** The derivative values one evaluation writes, keyed by their names. */
  function Derivatives(n: Names, form: EnergyForm, q: QpState): map<PropName, PropValue>
  {
    var derivatives := map[n.dPsiDPhi := Scalar(form.dPsiDPhi(q)), n.dPsiDGradPhi := Vector(form.dPsiDGradPhi(q))];
    if n.dPsiDF.Some? then derivatives[n.dPsiDF.value := Tensor2(form.dPsiDF(q))] else derivatives
  }

  /**
   * Everything one evaluation writes over the properties `before` it: the
   * derivatives, then psi from the properties as they stand after them.
   */
  function Written(n: Names, form: EnergyForm, q: QpState, before: map<PropName, PropValue>): map<PropName, PropValue>
  {
    var derivatives := Derivatives(n, form, q);
    derivatives[n.psi := Scalar(form.psi(q, before + derivatives))]
  }

  /** The entries of s under the given names. */
  function Restrict(s: map<PropName, PropValue>, names: set<PropName>): map<PropName, PropValue>
  {
    map key | key in s && key in names :: s[key]
  }

  /** The psi hook looks only at the properties named in `names`. */
  ghost predicate PsiReadsOnly(form: EnergyForm, names: set<PropName>)
  {
    forall q, s1, s2 :: Restrict(s1, names) == Restrict(s2, names) ==> form.psi(q, s1) == form.psi(q, s2)
  }

  /** The steps of one evaluation. */
  function EvaluationOrder(hasF: bool): seq<Step>
  {
    [Precompute, WriteDPsiDPhi, WriteDPsiDGradPhi] + (if hasF then [WriteDPsiDF] else []) + [WritePsi]
  }

  // --------------------------------------------------------------- properties

  lemma PrefixedNamesDiffer(s: string)
    ensures "grad_" + s != s
  {
    assert |"grad_" + s| == |s| + 5;
  }

  /**
   * psi and its derivatives in Phi and grad(Phi) are always declared under
   * distinct names; dpsi/dF is declared exactly when F exists, and its name
   * is distinct from the others unless the potential is itself called
   * "deformation_gradient".
   */
  lemma DeclaredNamesDistinct(phiName: string, psiName: string, hasF: bool)
    ensures var n := DeclaredNames(phiName, psiName, hasF);
            n.psi != n.dPsiDPhi && n.psi != n.dPsiDGradPhi && n.dPsiDPhi != n.dPsiDGradPhi
    ensures var n := DeclaredNames(phiName, psiName, hasF);
            |NameSet(n)| == if hasF && phiName != DeformationGradientName then 4 else 3
  {
    var n := DeclaredNames(phiName, psiName, hasF);
    PrefixedNamesDiffer(phiName);
    assert [phiName] != ["grad_" + phiName] by {
      assert [phiName][0] != ["grad_" + phiName][0];
    }
    assert "grad_" + phiName != DeformationGradientName by {
      assert ("grad_" + phiName)[0] == 'g';
    }
    if hasF {
      var dF := n.dPsiDF.value;
      if phiName == DeformationGradientName {
        assert NameSet(n) == {n.psi, n.dPsiDPhi, n.dPsiDGradPhi};
      } else {
        assert [phiName] != [DeformationGradientName] by {
          assert [phiName][0] != [DeformationGradientName][0];
        }
        assert ["grad_" + phiName] != [DeformationGradientName] by {
          assert ["grad_" + phiName][0] != [DeformationGradientName][0];
        }
        assert dF != n.dPsiDPhi && dF != n.dPsiDGradPhi && dF != n.psi;
      }
    }
  }

  /**
   * An evaluation writes every declared property and nothing else, and
   * each declared property holds its hook's value at this point; psi sees
   * the derivatives of this evaluation.
   */
  lemma WrittenCoversDeclared(phiName: string, psiName: string, hasF: bool, form: EnergyForm, q: QpState,
                              before: map<PropName, PropValue>)
    requires hasF ==> phiName != DeformationGradientName
    ensures var n := DeclaredNames(phiName, psiName, hasF);
            Written(n, form, q, before).Keys == NameSet(n) == InitialStore(n).Keys
    ensures var n := DeclaredNames(phiName, psiName, hasF);
            && Written(n, form, q, before)[n.psi] == Scalar(form.psi(q, before + Derivatives(n, form, q)))
            && Written(n, form, q, before)[n.dPsiDPhi] == Scalar(form.dPsiDPhi(q))
            && Written(n, form, q, before)[n.dPsiDGradPhi] == Vector(form.dPsiDGradPhi(q))
            && (hasF ==> Written(n, form, q, before)[n.dPsiDF.value] == Tensor2(form.dPsiDF(q)))
  {
    DeclaredNamesDistinct(phiName, psiName, hasF);
    var n := DeclaredNames(phiName, psiName, hasF);
    if hasF {
      assert [phiName] != [DeformationGradientName] by {
        assert [phiName][0] != [DeformationGradientName][0];
      }
      assert "grad_" + phiName != DeformationGradientName by {
        assert ("grad_" + phiName)[0] == 'g';
      }
      assert ["grad_" + phiName] != [DeformationGradientName] by {
        assert ["grad_" + phiName][0] != [DeformationGradientName][0];
      }
    }
  }

  /**
   * Because psi is written after the derivatives, a psi computed from the
   * derivatives alone does not depend on what the properties held before
   * the evaluation: two evaluations at the same point over any two earlier
   * states write the same psi.
   */
  lemma PsiIndependentOfEarlierState(n: Names, form: EnergyForm, q: QpState,
                                     before1: map<PropName, PropValue>, before2: map<PropName, PropValue>)
    requires PsiReadsOnly(form, Derivatives(n, form, q).Keys)
    ensures Written(n, form, q, before1)[n.psi] == Written(n, form, q, before2)[n.psi]
  {
    var d := Derivatives(n, form, q);
    assert Restrict(before1 + d, d.Keys) == Restrict(before2 + d, d.Keys);
  }

  /** Precompute runs first and psi is written last; dpsi/dF is written exactly when F exists. */
  lemma EvaluationOrderShape(hasF: bool)
    ensures EvaluationOrder(hasF)[0] == Precompute
    ensures EvaluationOrder(hasF)[|EvaluationOrder(hasF)| - 1] == WritePsi
    ensures WriteDPsiDF in EvaluationOrder(hasF) <==> hasF
    ensures forall i, j :: 0 <= i < j < |EvaluationOrder(hasF)| ==> EvaluationOrder(hasF)[i] != EvaluationOrder(hasF)[j]
  {
  }

  /** Writing the derivatives one by one over `before` leaves before + Derivatives. */
  lemma WritesAreDerivatives(before: map<PropName, PropValue>, n: Names, form: EnergyForm, q: QpState)
    ensures var s := before[n.dPsiDPhi := Scalar(form.dPsiDPhi(q))][n.dPsiDGradPhi := Vector(form.dPsiDGradPhi(q))];
            (if n.dPsiDF.Some? then s[n.dPsiDF.value := Tensor2(form.dPsiDF(q))] else s)
            == before + Derivatives(n, form, q)
  {
  }

  lemma UpdateAfterUnion(b: map<PropName, PropValue>, d: map<PropName, PropValue>, key: PropName, v: PropValue)
    ensures (b + d)[key := v] == b + d[key := v]
  {
  }

  // ----------------------------------------------------------------- material

  class ElectricalEnergyDensity {
    const phiName: string
    const psiName: string
    /** The declared names; dPsiDF is present exactly when the F property exists. */
    const names: Names
    /** The declared properties and their values at the current quadrature point. */
    var store: map<PropName, PropValue>
    /** The steps evaluations have taken so far. */
    var trace: seq<Step>

    ghost predicate Valid()
      reads this
    {
      names == DeclaredNames(phiName, psiName, names.dPsiDF.Some?) && NameSet(names) <= store.Keys
    }

    /**
     * Declares the properties. `available` names the material properties
     * that exist when this material is built; F is used exactly when a
     * deformation gradient is among them.
     */
    constructor (phiName: string, psiName: string, available: set<PropName>)
      ensures Valid()
      ensures this.phiName == phiName && this.psiName == psiName
      ensures names.dPsiDF.Some? <==> Named(DeformationGradientName) in available
      ensures store == InitialStore(names)
      ensures trace == []
    {
      this.phiName := phiName;
      this.psiName := psiName;
      names := DeclaredNames(phiName, psiName, Named(DeformationGradientName) in available);
      store := InitialStore(DeclaredNames(phiName, psiName, Named(DeformationGradientName) in available));
      trace := [];
    }

    /**
     * One evaluation: precompute, then dpsi/dPhi, dpsi/dgrad(Phi), dpsi/dF
     * when F exists, and psi last. F is available to the hooks exactly when
     * the material uses it.
     */
    method ComputeQpProperties(form: EnergyForm, q: QpState)
      requires Valid()
      requires q.deformationGradient.Some? <==> names.dPsiDF.Some?
      modifies this
      ensures Valid()
      ensures store == old(store) + Written(names, form, q, old(store))
      ensures trace == old(trace) + EvaluationOrder(names.dPsiDF.Some?)
    {
      trace := trace + [Precompute];
      store := store[names.dPsiDPhi := Scalar(form.dPsiDPhi(q))];
      trace := trace + [WriteDPsiDPhi];
      store := store[names.dPsiDGradPhi := Vector(form.dPsiDGradPhi(q))];
      trace := trace + [WriteDPsiDGradPhi];
      if names.dPsiDF.Some? {
        store := store[names.dPsiDF.value := Tensor2(form.dPsiDF(q))];
        trace := trace + [WriteDPsiDF];
      }
      WritesAreDerivatives(old(store), names, form, q);
      UpdateAfterUnion(old(store), Derivatives(names, form, q), names.psi, Scalar(form.psi(q, store)));
      store := store[names.psi := Scalar(form.psi(q, store))];
      trace := trace + [WritePsi];
    }
  }
}
