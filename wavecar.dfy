/**
 * The wavefunction source that `nac_from_vaspwfc` reads: one WAVECAR snapshot as
 * the `vaspwfc` reader exposes it. The binary reader itself is not part of this
 * model; a snapshot is its already-decoded content.
 */
module Wavecar {
  import opened ComplexNumbers
  import opened Wrappers

  /**
   * `nbands` is `_nbands`, `nplws[k]` is `_nplws[k]`, `bands[s][k][b]` is the
   * energy table `_bands`, and `coeffs[s][k][b]` is the normalised coefficient
   * vector that `readBandCoeff(s + 1, k + 1, b + 1, norm=True)` returns.
   */
  datatype Snapshot = Snapshot(
    nbands: nat,
    nplws: seq<nat>,
    bands: seq<seq<seq<real>>>,
    coeffs: seq<seq<seq<seq<Complex>>>>)
  {
    /** The reader's shape guarantees: (spin, k-point, band) tables, one vector of `nplws[k]` coefficients per band. */
    predicate Valid() {
      |coeffs| == |bands| &&
      (forall s :: 0 <= s < |bands| ==> |bands[s]| == |nplws| && |coeffs[s]| == |nplws|) &&
      (forall s, k :: 0 <= s < |bands| && 0 <= k < |nplws| ==>
         |bands[s][k]| == nbands && |coeffs[s][k]| == nbands) &&
      (forall s, k, b :: 0 <= s < |bands| && 0 <= k < |nplws| && 0 <= b < nbands ==>
         |coeffs[s][k][b]| == nplws[k])
    }
  }

  /**
   * Python/numpy indexing of a sequence of length `len` by `i`: a negative index
   * counts from the end; anything else out of range raises IndexError (None).
   */
  function PyIndex(len: nat, i: int): (r: Option<nat>)
    ensures r.Some? <==> -(len as int) <= i < len
    ensures r.Some? ==> r.value < len && (r.value == i || r.value == i + len)
  {
    if 0 <= i < len then Some(i)
    else if -(len as int) <= i < 0 then Some(i + len)
    else None
  }

  /** The 1-based spin and k-point selectors name an existing channel of `w`. */
  predicate Selects(w: Snapshot, ispin: int, ikpt: int) {
    1 <= ispin <= |w.bands| && 1 <= ikpt <= |w.nplws|
  }

  /**
   * The coefficient vectors of all bands at the selected spin and k-point, in
   * band order; no vectors when the selectors name no channel.
   */
  function BandVectors(w: Snapshot, ispin: int, ikpt: int): (c: seq<seq<Complex>>)
    requires w.Valid()
    ensures Selects(w, ispin, ikpt) ==>
              |c| == w.nbands && forall k :: 0 <= k < |c| ==> |c[k]| == w.nplws[ikpt - 1]
  {
    if Selects(w, ispin, ikpt) then w.coeffs[ispin - 1][ikpt - 1] else []
  }

  /**
   * `readBandCoeff(ispin, ikpt, iband, norm=True)`: the coefficient vector of a
   * band, all three selectors 1-based; a selector out of range is a read failure.
   */
  function ReadBandCoeff(w: Snapshot, ispin: int, ikpt: int, iband: int): (r: Option<seq<Complex>>)
    requires w.Valid()
    ensures r.Some? <==> Selects(w, ispin, ikpt) && 1 <= iband <= w.nbands
    ensures r.Some? ==> |r.value| == w.nplws[ikpt - 1] && r.value == BandVectors(w, ispin, ikpt)[iband - 1]
  {
    if Selects(w, ispin, ikpt) && 1 <= iband <= w.nbands then
      Some(w.coeffs[ispin - 1][ikpt - 1][iband - 1])
    else
      None
  }
}
