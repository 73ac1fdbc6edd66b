/**
 * `nac_from_vaspwfc`: the nonadiabatic-coupling matrix between the bands of two
 * WAVECAR snapshots taken at t and t + dt, together with the band energies at t.
 *
 * The documented formula is
 *   <psi_i(t)| d/dt |psi_j(t)>  ~  (<psi_i(t)|psi_j(t+dt)> - <psi_j(t)|psi_i(t+dt)>) / (2 dt).
 * `NacFromSnapshots` states the whole result as a value; `NacFromVaspwfc` is the
 * routine itself, filling a zeroed matrix in place over the strict lower triangle
 * and mirroring each entry into the upper one.
 */
module Nac {
  import opened ComplexNumbers
  import opened Wrappers
  import opened Wavecar

  /** The ways the routine stops without a result. */
  datatype Error =
    | BandCountMismatch        // assertion '#bands not match!'
    | PlaneWaveCountMismatch   // assertion '#nplws not match!'
    | InvalidIndex             // IndexError from indexing `_nplws` or `_bands`
    | SourceReadFailure        // `readBandCoeff` rejected its selectors

  /** The pair `(EnT, nacs / (2 * dt))` as values. */
  datatype NacValue = NacValue(energies: seq<real>, nacs: seq<seq<Complex>>)

  /** The pair `(EnT, nacs / (2 * dt))` with the matrix as the array the routine allocates. */
  datatype NacArrays = NacArrays(energies: seq<real>, nacs: array2<Complex>)

  // ---------------------------------------------------------------------------
  // The coupling formula, over the band vectors u (at t) and v (at t + dt)
  // ---------------------------------------------------------------------------

  /** Two lists of band vectors of which every pair can be multiplied elementwise. */
  predicate Matching(u: seq<seq<Complex>>, v: seq<seq<Complex>>) {
    |u| == |v| && forall i, j :: 0 <= i < |u| && 0 <= j < |v| ==> |u[i]| == |v[j]|
  }

  /** `tmp.real if gamma else tmp`: the value stored into a float matrix in gamma mode, a complex one otherwise. */
  function Stored(gamma: bool, tmp: Complex): (r: Complex)
    ensures r.re == tmp.re
    ensures gamma ==> r.im == 0.0
    ensures !gamma ==> r == tmp
  {
    if gamma then C(tmp.re, 0.0) else tmp
  }

  /** Storing commutes with plain negation of a difference, and a gamma-mode value is real. */
  lemma StoredSubAntisymmetric(gamma: bool, p: Complex, q: Complex)
    ensures Stored(gamma, Sub(q, p)) == Neg(Stored(gamma, Sub(p, q)))
    ensures Stored(gamma, Sub(p, p)) == Zero
    ensures gamma ==> Stored(gamma, Sub(p, q)).im == 0.0
  {
  }

  /**
   * The numerator of the documented formula for bands i and j,
   * <u_i|v_j> - <u_j|v_i>, kept whole in complex mode and reduced to its real
   * part in gamma mode.
   */
  function Coupling(gamma: bool, u: seq<seq<Complex>>, v: seq<seq<Complex>>, i: nat, j: nat): (r: Complex)
    requires Matching(u, v) && i < |u| && j < |u|
    ensures i == j ==> r == Zero
    ensures gamma ==> r.im == 0.0
  {
    StoredSubAntisymmetric(gamma, Dot(u[i], v[j]), Dot(u[j], v[i]));
    Stored(gamma, Sub(Dot(u[i], v[j]), Dot(u[j], v[i])))
  }

  /**
   * The formula is antisymmetric under plain negation, so mirroring an entry with
   * `-` gives exactly the formula's value at the transposed position, in both modes.
   */
  lemma CouplingAntisymmetric(gamma: bool, u: seq<seq<Complex>>, v: seq<seq<Complex>>, i: nat, j: nat)
    requires Matching(u, v) && i < |u| && j < |u|
    ensures Coupling(gamma, u, v, j, i) == Neg(Coupling(gamma, u, v, i, j))
    ensures Coupling(gamma, u, v, i, i) == Zero
    ensures gamma ==> Coupling(gamma, u, v, i, j).im == 0.0
  {
    StoredSubAntisymmetric(gamma, Dot(u[i], v[j]), Dot(u[j], v[i]));
    StoredSubAntisymmetric(gamma, Dot(u[i], v[i]), Dot(u[i], v[i]));
  }

  /**
   * With the same band vectors at both times, the two overlaps are complex
   * conjugates: the coupling is purely imaginary, and zero in gamma mode.
   */
  lemma SelfCouplingVanishes(gamma: bool, u: seq<seq<Complex>>, i: nat, j: nat)
    requires Matching(u, u) && i < |u| && j < |u|
    ensures Coupling(gamma, u, u, i, j).re == 0.0
    ensures gamma ==> Coupling(gamma, u, u, i, j) == Zero
  {
    DotConjSymmetric(u[i], u[j]);
  }

  // ---------------------------------------------------------------------------
  // The whole result as a value
  // ---------------------------------------------------------------------------

  /** An n x n matrix with a zero diagonal, antisymmetric under plain negation, real in gamma mode. */
  ghost predicate IsNacMatrix(m: seq<seq<Complex>>, n: nat, gamma: bool) {
    |m| == n &&
    (forall i :: 0 <= i < n ==> |m[i]| == n) &&
    (forall i :: 0 <= i < n ==> m[i][i] == Zero) &&
    (forall i, j :: 0 <= i < n && 0 <= j < n ==> m[j][i] == Neg(m[i][j])) &&
    (gamma ==> forall i, j :: 0 <= i < n && 0 <= j < n ==> m[i][j].im == 0.0)
  }

  /**
   * The matrix before the division by `2 * dt`: zero on the diagonal, the
   * formula everywhere else. With fewer than two bands the loop body never runs
   * and no vector is read.
   */
  function RawMatrix(gamma: bool, u: seq<seq<Complex>>, v: seq<seq<Complex>>, n: nat): (m: seq<seq<Complex>>)
    requires n >= 2 ==> |u| == n && Matching(u, v)
    ensures IsNacMatrix(m, n, gamma)
    ensures forall i, j :: 0 <= i < n && 0 <= j < n && i != j ==> m[i][j] == Coupling(gamma, u, v, i, j)
  {
    var m := seq(n, i requires 0 <= i < n =>
                   seq(n, j requires 0 <= j < n =>
                         if i == j then Zero else Coupling(gamma, u, v, i, j)));
    forall i, j | 0 <= i < n && 0 <= j < n && i != j
      ensures m[j][i] == Neg(m[i][j])
    {
      CouplingAntisymmetric(gamma, u, v, i, j);
    }
    m
  }

  /** `m / d` elementwise. */
  function Scaled(m: seq<seq<Complex>>, n: nat, d: real): (r: seq<seq<Complex>>)
    requires d != 0.0
    requires |m| == n && forall i :: 0 <= i < n ==> |m[i]| == n
    ensures |r| == n && forall i :: 0 <= i < n ==> |r[i]| == n
    ensures forall i, j :: 0 <= i < n && 0 <= j < n ==> r[i][j] == Div(m[i][j], d)
  {
    seq(n, i requires 0 <= i < n => seq(n, j requires 0 <= j < n => Div(m[i][j], d)))
  }

  /** Dividing every entry by a nonzero real keeps the shape of a NAC matrix. */
  lemma ScaledIsNacMatrix(m: seq<seq<Complex>>, n: nat, gamma: bool, d: real)
    requires d != 0.0 && IsNacMatrix(m, n, gamma)
    ensures IsNacMatrix(Scaled(m, n, d), n, gamma)
  {
    var r := Scaled(m, n, d);
    forall i, j | 0 <= i < n && 0 <= j < n
      ensures r[j][i] == Neg(r[i][j])
    {
      DivNeg(m[i][j], d);
    }
  }

  /** Both snapshots serve coefficient reads at the selectors, with vectors of the same length. */
  predicate Comparable(a: Snapshot, b: Snapshot, ispin: int, ikpt: int) {
    Selects(a, ispin, ikpt) && Selects(b, ispin, ikpt) &&
    a.nbands == b.nbands && a.nplws[ikpt - 1] == b.nplws[ikpt - 1]
  }

  /** Comparable snapshots give band vectors the formula can be applied to. */
  lemma ComparableMatching(a: Snapshot, b: Snapshot, ispin: int, ikpt: int)
    requires a.Valid() && b.Valid()
    ensures Comparable(a, b, ispin, ikpt) ==>
              |BandVectors(a, ispin, ikpt)| == a.nbands &&
              Matching(BandVectors(a, ispin, ikpt), BandVectors(b, ispin, ikpt))
  {
  }

  /**
   * `nacs / (2 * dt)` once the loop has run: the raw matrix over the band
   * vectors u (at t) and w (at t + dt), every entry divided by `2 * dt`.
   */
  function ScaledNacs(gamma: bool, dt: real, u: seq<seq<Complex>>, w: seq<seq<Complex>>, n: nat)
    : (m: seq<seq<Complex>>)
    requires dt != 0.0 && (n >= 2 ==> |u| == n && Matching(u, w))
    ensures IsNacMatrix(m, n, gamma)
    ensures forall i, j :: 0 <= i < n && 0 <= j < n && i != j ==>
              m[i][j] == Div(Coupling(gamma, u, w, i, j), 2.0 * dt)
  {
    var raw := RawMatrix(gamma, u, w, n);
    ScaledIsNacMatrix(raw, n, gamma, 2.0 * dt);
    Scaled(raw, n, 2.0 * dt)
  }

  /** `_nplws[ikpt-1]` can be indexed in both snapshots. */
  predicate KpointSelectable(a: Snapshot, b: Snapshot, ikpt: int) {
    PyIndex(|a.nplws|, ikpt - 1).Some? && PyIndex(|b.nplws|, ikpt - 1).Some?
  }

  /** Both `_nplws[ikpt-1]` exist and are equal: the second assertion holds. */
  predicate PlaneWavesAgree(a: Snapshot, b: Snapshot, ikpt: int) {
    KpointSelectable(a, b, ikpt) &&
    a.nplws[PyIndex(|a.nplws|, ikpt - 1).value] == b.nplws[PyIndex(|b.nplws|, ikpt - 1).value]
  }

  /** Every coefficient read the loop makes succeeds: there are none, or the selectors are valid in both. */
  predicate ReadsPossible(a: Snapshot, b: Snapshot, ispin: int, ikpt: int) {
    a.nbands < 2 || (Selects(a, ispin, ikpt) && Selects(b, ispin, ikpt))
  }

  /**
   * The checks `nac_from_vaspwfc` meets before it can return, in the order it
   * meets them: the two assertions, the `_nplws[ikpt-1]` lookups, the first
   * coefficient reads (made only when there are two or more bands) and the
   * `_bands[ispin-1, ikpt-1, :]` lookup. None means every check passes.
   */
  function Check(a: Snapshot, b: Snapshot, ikpt: int, ispin: int): (e: Option<Error>)
    requires a.Valid() && b.Valid()
    ensures e == Some(BandCountMismatch) <==> a.nbands != b.nbands
    ensures e == Some(InvalidIndex) <==>
              a.nbands == b.nbands &&
              (!KpointSelectable(a, b, ikpt) ||
               (PlaneWavesAgree(a, b, ikpt) && ReadsPossible(a, b, ispin, ikpt) &&
                PyIndex(|a.bands|, ispin - 1).None?))
    ensures e == Some(PlaneWaveCountMismatch) <==>
              a.nbands == b.nbands && KpointSelectable(a, b, ikpt) && !PlaneWavesAgree(a, b, ikpt)
    ensures e == Some(SourceReadFailure) <==>
              a.nbands == b.nbands && PlaneWavesAgree(a, b, ikpt) && !ReadsPossible(a, b, ispin, ikpt)
    ensures e.None? <==>
              a.nbands == b.nbands && PlaneWavesAgree(a, b, ikpt) && ReadsPossible(a, b, ispin, ikpt) &&
              PyIndex(|a.bands|, ispin - 1).Some?
    ensures (a.nbands == b.nbands && 1 <= ikpt <= |a.nplws| && 1 <= ikpt <= |b.nplws| &&
             a.nplws[ikpt - 1] != b.nplws[ikpt - 1]) ==> e == Some(PlaneWaveCountMismatch)
    ensures a.nbands == b.nbands && a.nbands >= 2 && Comparable(a, b, ispin, ikpt) ==> e.None?
    ensures e.None? ==>
              a.nbands == b.nbands && (a.nbands >= 2 ==> Comparable(a, b, ispin, ikpt)) &&
              PyIndex(|a.bands|, ispin - 1).Some? && PyIndex(|a.nplws|, ikpt - 1).Some?
  {
    if a.nbands != b.nbands then Some(BandCountMismatch)
    else
      var ka := PyIndex(|a.nplws|, ikpt - 1);
      var kb := PyIndex(|b.nplws|, ikpt - 1);
      if ka.None? || kb.None? then Some(InvalidIndex)
      else if a.nplws[ka.value] != b.nplws[kb.value] then Some(PlaneWaveCountMismatch)
      else if a.nbands >= 2 && !(Selects(a, ispin, ikpt) && Selects(b, ispin, ikpt)) then Some(SourceReadFailure)
      else if PyIndex(|a.bands|, ispin - 1).None? then Some(InvalidIndex)
      else None
  }

  /** `phi_i._bands[ispin-1, ikpt-1, :]`, numpy's negative indices included. */
  function Energies(a: Snapshot, ikpt: int, ispin: int): (e: seq<real>)
    requires a.Valid() && PyIndex(|a.bands|, ispin - 1).Some? && PyIndex(|a.nplws|, ikpt - 1).Some?
    ensures |e| == a.nbands
    ensures 1 <= ispin && 1 <= ikpt ==>
              ispin <= |a.bands| && ikpt <= |a.nplws| && e == a.bands[ispin - 1][ikpt - 1]
  {
    a.bands[PyIndex(|a.bands|, ispin - 1).value][PyIndex(|a.nplws|, ikpt - 1).value]
  }

  /**
   * What `nac_from_vaspwfc(waveA, waveB, gamma, dt, ikpt, ispin)` returns, or the
   * error that stops it.
   */
  function NacFromSnapshots(a: Snapshot, b: Snapshot, gamma: bool, dt: real, ikpt: int, ispin: int)
    : (r: Result<NacValue, Error>)
    requires a.Valid() && b.Valid() && dt != 0.0
    ensures r.Failure? <==> Check(a, b, ikpt, ispin).Some?
    ensures r.Failure? ==> Check(a, b, ikpt, ispin) == Some(r.error)
    ensures r == Failure(BandCountMismatch) <==> a.nbands != b.nbands
    ensures (a.nbands == b.nbands && 1 <= ikpt <= |a.nplws| && 1 <= ikpt <= |b.nplws| &&
             a.nplws[ikpt - 1] != b.nplws[ikpt - 1]) ==> r == Failure(PlaneWaveCountMismatch)
    ensures a.nbands == b.nbands && a.nbands >= 2 && Comparable(a, b, ispin, ikpt) ==> r.Success?
    ensures r.Success? ==> a.nbands == b.nbands && (a.nbands >= 2 ==> Comparable(a, b, ispin, ikpt))
    ensures r.Success? ==> IsNacMatrix(r.value.nacs, a.nbands, gamma)
    ensures r.Success? ==> |r.value.energies| == a.nbands
    ensures r.Success? && 1 <= ispin && 1 <= ikpt ==>
              ispin <= |a.bands| && ikpt <= |a.nplws| && r.value.energies == a.bands[ispin - 1][ikpt - 1]
  {
    match Check(a, b, ikpt, ispin)
    case Some(e) => Failure(e)
    case None =>
      ComparableMatching(a, b, ispin, ikpt);
      var nacs := ScaledNacs(gamma, dt, BandVectors(a, ispin, ikpt), BandVectors(b, ispin, ikpt), a.nbands);
      Success(NacValue(Energies(a, ikpt, ispin), nacs))
  }

  // ---------------------------------------------------------------------------
  // The routine, filling the matrix in place
  // ---------------------------------------------------------------------------

  /** `nacs / (2 * dt)`: a new array holding every entry of `m` divided by `d`. */
  method DivideAll(m: array2<Complex>, d: real) returns (out: array2<Complex>)
    requires d != 0.0
    ensures fresh(out)
    ensures out.Length0 == m.Length0 && out.Length1 == m.Length1
    ensures forall i, j :: 0 <= i < m.Length0 && 0 <= j < m.Length1 ==> out[i, j] == Div(m[i, j], d)
  {
    out := new Complex[m.Length0, m.Length1];
    for i := 0 to m.Length0
      invariant forall i', j :: 0 <= i' < i && 0 <= j < m.Length1 ==> out[i', j] == Div(m[i', j], d)
    {
      for j := 0 to m.Length1
        invariant forall i', j' :: 0 <= i' < i && 0 <= j' < m.Length1 ==> out[i', j'] == Div(m[i', j'], d)
        invariant forall j' :: 0 <= j' < j ==> out[i, j'] == Div(m[i, j'], d)
      {
        out[i, j] := Div(m[i, j], d);
      }
    }
  }

  /**
   * The state of the zeroed n x n matrix during the double loop, at outer index
   * `ii` and inner index `jj`: every cell of the square of rows and columns
   * below `ii`, and every cell (ii, j) and (j, ii) with j below `jj`, holds the
   * formula's value, and every other cell is still zero. Once a pair has been
   * read, the band vectors are known to match.
   */
  ghost predicate FilledUpTo(gamma: bool, u: seq<seq<Complex>>, v: seq<seq<Complex>>, n: nat,
                             m: array2<Complex>, ii: nat, jj: nat)
    reads m
  {
    m.Length0 == n && m.Length1 == n &&
    jj <= ii <= n &&
    (ii >= 2 || jj >= 1 ==> |u| == n && Matching(u, v)) &&
    forall i, j :: 0 <= i < n && 0 <= j < n ==>
      m[i, j] == if i != j && ((i < ii && j < ii) || (i == ii && j < jj) || (j == ii && i < jj))
                 then Coupling(gamma, u, v, i, j) else Zero
  }

  /**
   * One pass of the inner loop `for jj in range(ii)`: reads the four
   * coefficient vectors of each pair (ii, jj), stores the coupling at
   * (ii, jj) and its negation at (jj, ii). `ok` is false when a read fails.
   */
  method FillRow(a: Snapshot, b: Snapshot, gamma: bool, ispin: int, ikpt: int,
                 nacs: array2<Complex>, ii: nat) returns (ok: bool)
    requires a.Valid() && b.Valid() && a.nbands == b.nbands && ii < a.nbands
    requires Selects(a, ispin, ikpt) && Selects(b, ispin, ikpt) ==> a.nplws[ikpt - 1] == b.nplws[ikpt - 1]
    requires FilledUpTo(gamma, BandVectors(a, ispin, ikpt), BandVectors(b, ispin, ikpt), a.nbands, nacs, ii, 0)
    modifies nacs
    ensures ok <==> ii == 0 || Comparable(a, b, ispin, ikpt)
    ensures ok ==> FilledUpTo(gamma, BandVectors(a, ispin, ikpt), BandVectors(b, ispin, ikpt), a.nbands, nacs, ii + 1, 0)
  {
    ghost var u, v := BandVectors(a, ispin, ikpt), BandVectors(b, ispin, ikpt);
    var jj := 0;
    while jj < ii
      invariant FilledUpTo(gamma, u, v, a.nbands, nacs, ii, jj)
    {
      var ib1 := ii + 1;
      var ib2 := jj + 1;

      var ciT := ReadBandCoeff(a, ispin, ikpt, ib1);
      if ciT.None? { return false; }
      var cjT := ReadBandCoeff(a, ispin, ikpt, ib2);
      if cjT.None? { return false; }
      var ciTdt := ReadBandCoeff(b, ispin, ikpt, ib1);
      if ciTdt.None? { return false; }
      var cjTdt := ReadBandCoeff(b, ispin, ikpt, ib2);
      if cjTdt.None? { return false; }

      ComparableMatching(a, b, ispin, ikpt);
      var tmp := Sub(Dot(ciT.value, cjTdt.value), Dot(cjT.value, ciTdt.value));
      assert Stored(gamma, tmp) == Coupling(gamma, u, v, ii, jj);
      CouplingAntisymmetric(gamma, u, v, ii, jj);

      nacs[ii, jj] := Stored(gamma, tmp);
      nacs[jj, ii] := Neg(nacs[ii, jj]);
      jj := jj + 1;
    }
    return true;
  }

  /**
   * The double loop `for ii in range(nbands): for jj in range(ii)` over a freshly
   * zeroed nbands x nbands matrix. `ok` is false when a coefficient read fails,
   * which happens at the first pair when there is one.
   */
  method FillLower(a: Snapshot, b: Snapshot, gamma: bool, ispin: int, ikpt: int)
    returns (nacs: array2<Complex>, ok: bool)
    requires a.Valid() && b.Valid() && a.nbands == b.nbands
    requires Selects(a, ispin, ikpt) && Selects(b, ispin, ikpt) ==> a.nplws[ikpt - 1] == b.nplws[ikpt - 1]
    ensures fresh(nacs)
    ensures ok <==> a.nbands < 2 || Comparable(a, b, ispin, ikpt)
    ensures ok ==> FilledUpTo(gamma, BandVectors(a, ispin, ikpt), BandVectors(b, ispin, ikpt), a.nbands, nacs, a.nbands, 0)
  {
    var n := a.nbands;
    nacs := new Complex[n, n]((_, _) => Zero);
    ghost var u, v := BandVectors(a, ispin, ikpt), BandVectors(b, ispin, ikpt);
    var ii := 0;
    while ii < n
      invariant 0 <= ii <= n
      invariant ii >= 2 ==> Comparable(a, b, ispin, ikpt)
      invariant FilledUpTo(gamma, u, v, n, nacs, ii, 0)
    {
      ok := FillRow(a, b, gamma, ispin, ikpt, nacs, ii);
      if !ok {
        return;
      }
      ii := ii + 1;
    }
    ok := true;
  }

  /** The filled matrix divided by `2 * dt` is the scaled formula matrix over the same band vectors. */
  lemma FilledScaledIsScaledNacs(gamma: bool, dt: real, u: seq<seq<Complex>>, v: seq<seq<Complex>>, n: nat,
                                 nacs: array2<Complex>, scaled: array2<Complex>)
    requires dt != 0.0 && FilledUpTo(gamma, u, v, n, nacs, n, 0)
    requires scaled.Length0 == n && scaled.Length1 == n
    requires forall i, j :: 0 <= i < n && 0 <= j < n ==> scaled[i, j] == Div(nacs[i, j], 2.0 * dt)
    ensures forall i, j :: 0 <= i < n && 0 <= j < n ==> scaled[i, j] == ScaledNacs(gamma, dt, u, v, n)[i][j]
  {
    var want := ScaledNacs(gamma, dt, u, v, n);
    forall i, j | 0 <= i < n && 0 <= j < n
      ensures scaled[i, j] == want[i][j]
    {
      if i == j {
        assert nacs[i, j] == Zero;
      } else {
        assert nacs[i, j] == Coupling(gamma, u, v, i, j);
      }
    }
  }

  /** The filled matrix divided by `2 * dt` is the matrix of the value specification. */
  lemma FilledMatchesValue(a: Snapshot, b: Snapshot, gamma: bool, dt: real, ikpt: int, ispin: int,
                           nacs: array2<Complex>, scaled: array2<Complex>)
    requires a.Valid() && b.Valid() && dt != 0.0 && Check(a, b, ikpt, ispin).None?
    requires FilledUpTo(gamma, BandVectors(a, ispin, ikpt), BandVectors(b, ispin, ikpt), a.nbands, nacs, a.nbands, 0)
    requires scaled.Length0 == a.nbands && scaled.Length1 == a.nbands
    requires forall i, j :: 0 <= i < a.nbands && 0 <= j < a.nbands ==> scaled[i, j] == Div(nacs[i, j], 2.0 * dt)
    ensures NacFromSnapshots(a, b, gamma, dt, ikpt, ispin).Success?
    ensures forall i, j :: 0 <= i < a.nbands && 0 <= j < a.nbands ==>
              scaled[i, j] == NacFromSnapshots(a, b, gamma, dt, ikpt, ispin).value.nacs[i][j]
  {
    ComparableMatching(a, b, ispin, ikpt);
    var u, v := BandVectors(a, ispin, ikpt), BandVectors(b, ispin, ikpt);
    assert NacFromSnapshots(a, b, gamma, dt, ikpt, ispin).value.nacs == ScaledNacs(gamma, dt, u, v, a.nbands);
    FilledScaledIsScaledNacs(gamma, dt, u, v, a.nbands, nacs, scaled);
  }

  /**
   * The routine: validate the pair, zero an nbands x nbands matrix, fill each
   * cell below the diagonal with the formula and its mirror with the negation,
   * take the energies of the first snapshot and divide the matrix by `2 * dt`.
   */
  method NacFromVaspwfc(a: Snapshot, b: Snapshot, gamma: bool, dt: real, ikpt: int, ispin: int)
    returns (r: Result<NacArrays, Error>)
    requires a.Valid() && b.Valid() && dt != 0.0
    ensures r.Failure? <==> NacFromSnapshots(a, b, gamma, dt, ikpt, ispin).Failure?
    ensures r.Failure? ==> r.error == NacFromSnapshots(a, b, gamma, dt, ikpt, ispin).error
    ensures r.Success? ==>
              var want := NacFromSnapshots(a, b, gamma, dt, ikpt, ispin).value;
              fresh(r.value.nacs) &&
              r.value.energies == want.energies &&
              r.value.nacs.Length0 == |want.nacs| == r.value.nacs.Length1 &&
              forall i, j :: 0 <= i < |want.nacs| && 0 <= j < |want.nacs| ==>
                r.value.nacs[i, j] == want.nacs[i][j]
  {
    if a.nbands != b.nbands {
      return Failure(BandCountMismatch);
    }
    var ka := PyIndex(|a.nplws|, ikpt - 1);
    var kb := PyIndex(|b.nplws|, ikpt - 1);
    if ka.None? || kb.None? {
      assert Check(a, b, ikpt, ispin) == Some(InvalidIndex);
      return Failure(InvalidIndex);
    }
    if a.nplws[ka.value] != b.nplws[kb.value] {
      assert Check(a, b, ikpt, ispin) == Some(PlaneWaveCountMismatch);
      return Failure(PlaneWaveCountMismatch);
    }

    var nacs, ok := FillLower(a, b, gamma, ispin, ikpt);
    if !ok {
      assert Check(a, b, ikpt, ispin) == Some(SourceReadFailure);
      return Failure(SourceReadFailure);
    }

    var s := PyIndex(|a.bands|, ispin - 1);
    if s.None? {
      assert Check(a, b, ikpt, ispin) == Some(InvalidIndex);
      return Failure(InvalidIndex);
    }
    var enT := a.bands[s.value][ka.value];

    var scaled := DivideAll(nacs, 2.0 * dt);
    assert Check(a, b, ikpt, ispin).None?;
    FilledMatchesValue(a, b, gamma, dt, ikpt, ispin, nacs, scaled);
    assert enT == Energies(a, ikpt, ispin);
    return Success(NacArrays(enT, scaled));
  }
}
