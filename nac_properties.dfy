/**
 * What `nac_from_vaspwfc` promises about its result, stated over the value
 * `Nac.NacFromSnapshots` that the routine is proved to compute.
 */
module NacProperties {
  import opened ComplexNumbers
  import opened Wrappers
  import opened Wavecar
  import opened Nac

  /** A successful result holds the scaled formula matrix over the selected band vectors. */
  lemma NacSuccessIsScaledFormula(a: Snapshot, b: Snapshot, gamma: bool, dt: real, ikpt: int, ispin: int)
    requires a.Valid() && b.Valid() && dt != 0.0
    ensures var r := NacFromSnapshots(a, b, gamma, dt, ikpt, ispin);
            r.Success? ==>
              (a.nbands >= 2 ==>
                 |BandVectors(a, ispin, ikpt)| == a.nbands &&
                 Matching(BandVectors(a, ispin, ikpt), BandVectors(b, ispin, ikpt))) &&
              r.value.nacs == ScaledNacs(gamma, dt, BandVectors(a, ispin, ikpt), BandVectors(b, ispin, ikpt), a.nbands)
  {
    ComparableMatching(a, b, ispin, ikpt);
  }

  /**
   * Every off-diagonal entry is the documented finite difference of the
   * coefficient vectors read with 1-based band numbers i + 1 and j + 1:
   * (<c_A(i+1)|c_B(j+1)> - <c_A(j+1)|c_B(i+1)>) / (2 dt), real part only in gamma mode.
   */
  lemma NacEntriesFollowFormula(a: Snapshot, b: Snapshot, gamma: bool, dt: real, ikpt: int, ispin: int, i: nat, j: nat)
    requires a.Valid() && b.Valid() && dt != 0.0
    requires i < a.nbands && j < a.nbands && i != j
    ensures var r := NacFromSnapshots(a, b, gamma, dt, ikpt, ispin);
            r.Success? ==>
              var ci, cj := ReadBandCoeff(a, ispin, ikpt, i + 1), ReadBandCoeff(a, ispin, ikpt, j + 1);
              var di, dj := ReadBandCoeff(b, ispin, ikpt, i + 1), ReadBandCoeff(b, ispin, ikpt, j + 1);
              ci.Some? && cj.Some? && di.Some? && dj.Some? &&
              |ci.value| == |dj.value| && |cj.value| == |di.value| &&
              r.value.nacs[i][j] == Div(Stored(gamma, Sub(Dot(ci.value, dj.value), Dot(cj.value, di.value))), 2.0 * dt)
  {
    var r := NacFromSnapshots(a, b, gamma, dt, ikpt, ispin);
    if r.Success? {
      ComparableMatching(a, b, ispin, ikpt);
      var u, w := BandVectors(a, ispin, ikpt), BandVectors(b, ispin, ikpt);
      assert r.value.nacs == ScaledNacs(gamma, dt, u, w, a.nbands);
    }
  }

  /**
   * Passing the same snapshot as both A and B: the two overlaps of each pair are
   * complex conjugates, so every entry is purely imaginary, and in gamma mode
   * the whole matrix is zero.
   */
  lemma NacOfSameSnapshotVanishes(a: Snapshot, gamma: bool, dt: real, ikpt: int, ispin: int)
    requires a.Valid() && dt != 0.0
    ensures var r := NacFromSnapshots(a, a, gamma, dt, ikpt, ispin);
            r.Success? ==>
              (forall i, j :: 0 <= i < a.nbands && 0 <= j < a.nbands ==> r.value.nacs[i][j].re == 0.0) &&
              (gamma ==> forall i, j :: 0 <= i < a.nbands && 0 <= j < a.nbands ==> r.value.nacs[i][j] == Zero)
  {
    ComparableMatching(a, a, ispin, ikpt);
    var u := BandVectors(a, ispin, ikpt);
    assert NacFromSnapshots(a, a, gamma, dt, ikpt, ispin).Success? ==>
             NacFromSnapshots(a, a, gamma, dt, ikpt, ispin).value.nacs == ScaledNacs(gamma, dt, u, u, a.nbands);
    if a.nbands >= 2 ==> |u| == a.nbands && Matching(u, u) {
      ScaledNacsOfSameVectorsVanish(gamma, dt, u, a.nbands);
    }
  }

  /** The scaled matrix over one list of band vectors taken as both times. */
  lemma ScaledNacsOfSameVectorsVanish(gamma: bool, dt: real, u: seq<seq<Complex>>, n: nat)
    requires dt != 0.0 && (n >= 2 ==> |u| == n && Matching(u, u))
    ensures forall i, j :: 0 <= i < n && 0 <= j < n ==> ScaledNacs(gamma, dt, u, u, n)[i][j].re == 0.0
    ensures gamma ==> forall i, j :: 0 <= i < n && 0 <= j < n ==> ScaledNacs(gamma, dt, u, u, n)[i][j] == Zero
  {
    var m: seq<seq<Complex>> := ScaledNacs(gamma, dt, u, u, n);
    forall i, j | 0 <= i < n && 0 <= j < n
      ensures m[i][j].re == 0.0 && (gamma ==> m[i][j] == Zero)
    {
      if i != j {
        SelfCouplingVanishes(gamma, u, i, j);
      }
    }
  }

  /**
   * Holding the snapshots fixed, doubling `dt` halves every entry of the
   * matrix; the outcome (success or which error) and the energies do not change.
   */
  lemma NacHalvesWhenDtDoubles(a: Snapshot, b: Snapshot, gamma: bool, dt: real, ikpt: int, ispin: int)
    requires a.Valid() && b.Valid() && dt != 0.0
    ensures var r1 := NacFromSnapshots(a, b, gamma, dt, ikpt, ispin);
            var r2 := NacFromSnapshots(a, b, gamma, 2.0 * dt, ikpt, ispin);
            r1.Success? == r2.Success? &&
            (r1.Failure? ==> r2.error == r1.error) &&
            (r1.Success? ==>
               r2.value.energies == r1.value.energies &&
               forall i, j :: 0 <= i < a.nbands && 0 <= j < a.nbands ==>
                 r2.value.nacs[i][j] == Div(r1.value.nacs[i][j], 2.0))
  {
    var r1 := NacFromSnapshots(a, b, gamma, dt, ikpt, ispin);
    var r2 := NacFromSnapshots(a, b, gamma, 2.0 * dt, ikpt, ispin);
    assert r1.Success? <==> Check(a, b, ikpt, ispin).None?;
    assert r2.Success? <==> Check(a, b, ikpt, ispin).None?;
    if r1.Success? {
      var u, w := BandVectors(a, ispin, ikpt), BandVectors(b, ispin, ikpt);
      NacSuccessIsScaledFormula(a, b, gamma, dt, ikpt, ispin);
      NacSuccessIsScaledFormula(a, b, gamma, 2.0 * dt, ikpt, ispin);
      assert r1.value.energies == Energies(a, ikpt, ispin) == r2.value.energies;
      ScaledNacsHalve(gamma, dt, u, w, a.nbands);
    } else {
      assert r1.error == Check(a, b, ikpt, ispin).value == r2.error;
    }
  }

  /** The matrix for `2 * dt` is the matrix for `dt` with every entry halved. */
  lemma ScaledNacsHalve(gamma: bool, dt: real, u: seq<seq<Complex>>, w: seq<seq<Complex>>, n: nat)
    requires dt != 0.0 && (n >= 2 ==> |u| == n && Matching(u, w))
    ensures forall i, j :: 0 <= i < n && 0 <= j < n ==>
              ScaledNacs(gamma, 2.0 * dt, u, w, n)[i][j] == Div(ScaledNacs(gamma, dt, u, w, n)[i][j], 2.0)
  {
    var m1, m2 := ScaledNacs(gamma, dt, u, w, n), ScaledNacs(gamma, 2.0 * dt, u, w, n);
    forall i, j | 0 <= i < n && 0 <= j < n
      ensures m2[i][j] == Div(m1[i][j], 2.0)
    {
      if i != j {
        DivTwice(Coupling(gamma, u, w, i, j), 2.0 * dt);
      } else {
        assert m1[i][j] == Zero && m2[i][j] == Zero;
      }
    }
  }

  /**
   * The energies are those of snapshot A at the selected spin and k-point, and
   * snapshot B's energy table plays no part in the result.
   */
  lemma NacEnergiesFromFirstSnapshot(a: Snapshot, b: Snapshot, gamma: bool, dt: real, ikpt: int, ispin: int,
                                     otherBands: seq<seq<seq<real>>>)
    requires a.Valid() && b.Valid() && dt != 0.0
    requires b.(bands := otherBands).Valid()
    ensures NacFromSnapshots(a, b.(bands := otherBands), gamma, dt, ikpt, ispin)
            == NacFromSnapshots(a, b, gamma, dt, ikpt, ispin)
    ensures var r := NacFromSnapshots(a, b, gamma, dt, ikpt, ispin);
            r.Success? && 1 <= ispin && 1 <= ikpt ==> r.value.energies == a.bands[ispin - 1][ikpt - 1]
  {
  }

  // ---------------------------------------------------------------------------
  // Two small scenarios: two orthonormal bands, one spin, one k-point
  // ---------------------------------------------------------------------------

  /** Two coefficient vectors of the same length, each of norm 1 and orthogonal to the other. */
  predicate Orthonormal(p: seq<Complex>, q: seq<Complex>) {
    |p| == |q| && Dot(p, p) == C(1.0, 0.0) && Dot(q, q) == C(1.0, 0.0) && Dot(p, q) == Zero
  }

  /** `p` is the unit vector along plane wave k of three. */
  predicate IsUnit(p: seq<Complex>, k: nat) {
    |p| == 3 && forall i :: 0 <= i < 3 ==> p[i] == if i == k then C(1.0, 0.0) else Zero
  }

  /** The overlap of two three-component vectors, written out. */
  lemma Dot3(x: seq<Complex>, y: seq<Complex>)
    requires |x| == 3 && |y| == 3
    ensures Dot(x, y) == Add(Add(Add(Zero, Mul(Conj(x[0]), y[0])), Mul(Conj(x[1]), y[1])), Mul(Conj(x[2]), y[2]))
  {
    var x2, y2 := x[..2], y[..2];
    assert x2[..1] == x[..1] && y2[..1] == y[..1];
    assert Dot(x, y) == Add(Dot(x2, y2), Mul(Conj(x[2]), y[2]));
    assert Dot(x2, y2) == Add(Dot(x[..1], y[..1]), Mul(Conj(x[1]), y[1]));
    assert x[..1][..0] == [] && y[..1][..0] == [];
    assert Dot(x[..1], y[..1]) == Add(Zero, Mul(Conj(x[0]), y[0]));
  }

  /** The coefficient vectors [1, 0, 0] and [0, 1, 0] are orthonormal. */
  lemma UnitVectorsOrthonormal(p: seq<Complex>, q: seq<Complex>)
    requires IsUnit(p, 0) && IsUnit(q, 1)
    ensures Orthonormal(p, q)
  {
    var one := C(1.0, 0.0);
    assert p[0] == one && p[1] == Zero && p[2] == Zero;
    assert q[0] == Zero && q[1] == one && q[2] == Zero;
    Dot3(p, p);
    assert Dot(p, p) == Add(Add(Add(Zero, Mul(Conj(one), one)), Mul(Conj(Zero), Zero)), Mul(Conj(Zero), Zero));
    Dot3(p, q);
    assert Dot(p, q) == Add(Add(Add(Zero, Mul(Conj(one), Zero)), Mul(Conj(Zero), one)), Mul(Conj(Zero), Zero));
    Dot3(q, q);
    assert Dot(q, q) == Add(Add(Add(Zero, Mul(Conj(Zero), Zero)), Mul(Conj(one), one)), Mul(Conj(Zero), Zero));
  }

  /** A one-spin, one-k-point snapshot of two bands with the given coefficient vectors. */
  function TwoBands(e0: real, e1: real, c0: seq<Complex>, c1: seq<Complex>): (w: Snapshot)
    requires |c0| == |c1|
    ensures w.Valid() && w.nbands == 2 && w.nplws == [|c0|]
  {
    Snapshot(2, [|c0|], [[[e0, e1]]], [[[c0, c1]]])
  }

  /** A 2 x 2 matrix with a zero diagonal is given by its two off-diagonal entries. */
  lemma TwoByTwo(m: seq<seq<Complex>>, gamma: bool)
    requires IsNacMatrix(m, 2, gamma)
    ensures m == [[Zero, m[0][1]], [m[1][0], Zero]]
  {
    assert m[0] == [Zero, m[0][1]];
    assert m[1] == [m[1][0], Zero];
  }

  /** The couplings of two orthonormal bands, kept as they are or with band 1 turned into band 2. */
  lemma OrthonormalCouplings(gamma: bool, p: seq<Complex>, q: seq<Complex>)
    requires Orthonormal(p, q)
    ensures Matching([p, q], [p, q]) && Matching([p, q], [q, q])
    ensures Coupling(gamma, [p, q], [p, q], 1, 0) == Zero
    ensures Coupling(gamma, [p, q], [q, q], 1, 0) == C(1.0, 0.0)
  {
    DotConjSymmetric(p, q);
    var u, v := [p, q], [q, q];
    assert u[0] == p && u[1] == q && v[0] == q && v[1] == q;
    assert Coupling(gamma, u, u, 1, 0) == Stored(gamma, Sub(Zero, Zero));
    assert Coupling(gamma, u, v, 1, 0) == Stored(gamma, Sub(C(1.0, 0.0), Zero));
  }

  /**
   * Stationary orthonormal bands give no coupling; turning band 1 of the later
   * snapshot into band 2 gives <q|q> - <p|q> = 1 at (2, 1), so 1 / (2 dt)
   * there and its negation at (1, 2), in either mode.
   */
  lemma ScenarioMatrices(gamma: bool, dt: real, p: seq<Complex>, q: seq<Complex>)
    requires dt != 0.0 && Orthonormal(p, q)
    ensures ScaledNacs(gamma, dt, [p, q], [p, q], 2) == [[Zero, Zero], [Zero, Zero]]
    ensures ScaledNacs(gamma, dt, [p, q], [q, q], 2)
            == [[Zero, C(-1.0 / (2.0 * dt), 0.0)], [C(1.0 / (2.0 * dt), 0.0), Zero]]
  {
    var u, v := [p, q], [q, q];
    OrthonormalCouplings(gamma, p, q);
    TwoByTwo(ScaledNacs(gamma, dt, u, u, 2), gamma);
    TwoByTwo(ScaledNacs(gamma, dt, u, v, 2), gamma);
  }

  /**
   * Two orthonormal bands that do not change between the snapshots: the
   * matrix is zero and the energies are snapshot A's, as given.
   */
  lemma StationaryBandsScenario(gamma: bool, dt: real, e0: real, e1: real, p: seq<Complex>, q: seq<Complex>)
    requires dt != 0.0 && Orthonormal(p, q)
    ensures NacFromSnapshots(TwoBands(e0, e1, p, q), TwoBands(e0, e1, p, q), gamma, dt, 1, 1)
            == Success(NacValue([e0, e1], [[Zero, Zero], [Zero, Zero]]))
  {
    var a := TwoBands(e0, e1, p, q);
    assert Check(a, a, 1, 1).None?;
    assert BandVectors(a, 1, 1) == [p, q];
    NacSuccessIsScaledFormula(a, a, gamma, dt, 1, 1);
    ScenarioMatrices(gamma, dt, p, q);
  }

  /**
   * Snapshot B's band 1 is A's band 2, dt = 0.5, gamma mode: the entry at
   * (2, 1) is 1 and its mirror at (1, 2) is -1.
   */
  lemma SwappedBandScenario(e0: real, e1: real, p: seq<Complex>, q: seq<Complex>)
    requires Orthonormal(p, q)
    ensures NacFromSnapshots(TwoBands(e0, e1, p, q), TwoBands(e0, e1, q, q), true, 0.5, 1, 1)
            == Success(NacValue([e0, e1], [[Zero, C(-1.0, 0.0)], [C(1.0, 0.0), Zero]]))
  {
    var a, b := TwoBands(e0, e1, p, q), TwoBands(e0, e1, q, q);
    assert Check(a, b, 1, 1).None?;
    assert BandVectors(a, 1, 1) == [p, q] && BandVectors(b, 1, 1) == [q, q];
    NacSuccessIsScaledFormula(a, b, true, 0.5, 1, 1);
    ScenarioMatrices(true, 0.5, p, q);
    assert 1.0 / (2.0 * 0.5) == 1.0;
  }
}
