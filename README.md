# Nonadiabatic couplings from two WAVECAR snapshots

This project models `nac_from_vaspwfc` from VaspBandUnfolding's `nac.py`.
The routine takes two VASP wavefunction snapshots, taken at times t and
t + dt. For the bands at one spin channel and one k-point it computes the
nonadiabatic-coupling (NAC) matrix with the finite-difference formula

    NAC[i][j] = (<psi_i(t)|psi_j(t+dt)> - <psi_j(t)|psi_i(t+dt)>) / (2 dt)

It returns that matrix together with the band energies of the first snapshot.

## Files

- `wrappers.dfy`: `Option` and `Result`.
- `complex.dfy` (module `ComplexNumbers`): exact complex arithmetic over `real`. It defines the overlap `Dot(a, b) = sum_k conj(a[k]) * b[k]` (numpy sums pairwise; with exact reals the order of summation is immaterial) and proves its conjugate symmetry.
- `wavecar.dfy` (module `Wavecar`): the part of a `vaspwfc` object that the routine reads, as a `Snapshot` value:
  - `_nbands`;
  - `_nplws`;
  - `_bands`;
  - the plane-wave coefficients served by `readBandCoeff`.

  It also models numpy's negative indexing (`PyIndex`).
- `nac.dfy` (module `Nac`): the result stated as a value (`NacFromSnapshots`), whose matrix is proved to have a zero diagonal, to be antisymmetric under plain negation and to be real in gamma mode, and the routine itself (`NacFromVaspwfc`). The routine works the way the Python does: it fills a zeroed `array2` in place over the strict lower triangle, mirrors each entry into the upper one, and divides by `2 * dt` into a new array. It is proved to return exactly the value specification.
- `nac_properties.dfy` (module `NacProperties`): what the result promises:
  - the formula at every entry;
  - a vanishing result for identical snapshots;
  - scaling in `dt`;
  - energy passthrough;
  - two worked two-band scenarios.

The routine stops without a result in these ways, in the order the code meets them:

1. `BandCountMismatch`: the `#bands` assertion fails.
2. `InvalidIndex`: `_nplws[ikpt-1]` is out of range.
3. `PlaneWaveCountMismatch`: the `#nplws` assertion fails.
4. `SourceReadFailure`: `readBandCoeff` rejects its selectors. This can only happen when there are at least two bands, because only then does the loop body run.
5. `InvalidIndex`: `_bands[ispin-1, ikpt-1]` is out of range.

In gamma mode an entry is stored as the real part of `tmp`, because the matrix has a float dtype. In complex mode it is stored whole. The mirror entry is the plain negation of the stored value. `CouplingAntisymmetric` proves that this negation equals the documented formula evaluated at the transposed position, in both modes.

The code walks `jj < ii`, which is the lower triangle, and mirrors into the upper one. The model follows the code.

## Model

| member | source | states |
|---|---|---|
| Nac.NacFromVaspwfc | nac.py:11-67 | The routine fails exactly when the value specification fails, with the same error. On success it returns a fresh nbands x nbands array equal entry by entry to the specified matrix, together with the specified energies. |
| Nac.FillRow | nac.py:45-58 | One pass of the inner loop over `jj < ii`. It succeeds exactly when ii is 0 or both snapshots serve reads at the selectors. It extends the filled region by row and column ii: (ii, jj) holds the coupling, (jj, ii) holds its negation, and every other cell keeps its value. |
| Nac.FillLower | nac.py:40-58 | The double loop over a freshly zeroed matrix. It fails exactly when there are two or more bands and the reads are not possible. Otherwise every off-diagonal cell holds the formula and the diagonal stays zero. |
| Nac.DivideAll | nac.py:67 | `nacs / (2 * dt)`: a new array of the same shape, with each entry divided by the divisor. |
| Nac.NacFromSnapshots | nac.py:11-67 | Fails exactly when `Check` reports an error, and with that error; so it succeeds exactly when every check passes, also with fewer than two bands. Fails with BandCountMismatch if and only if the band counts differ, and with PlaneWaveCountMismatch when the plane-wave counts at a 1-based k-point differ. Compatible snapshots with two or more bands give a result. On success the matrix is nbands x nbands, has a zero diagonal, is antisymmetric, and is real in gamma mode. The energies are snapshot A's `_bands[ispin-1][ikpt-1]`. |
| Nac.Check | nac.py:37-61 | Each outcome characterised, in the code's order. BandCountMismatch if and only if the band counts differ. InvalidIndex if and only if the counts agree and either `_nplws[ikpt-1]` cannot be indexed in a snapshot, or every earlier check passes and `_bands[ispin-1]` cannot be indexed. PlaneWaveCountMismatch if and only if the counts agree, the k-point indexes and the plane-wave counts there differ. SourceReadFailure if and only if the earlier checks pass, there are two or more bands and a selector is invalid for a read. No error if and only if all of these pass. |
| Nac.Energies | nac.py:60-61 | `_bands[ispin-1, ikpt-1, :]` with numpy's negative indices. It has one energy per band, and for 1-based selectors it is exactly snapshot A's entry. |
| Nac.Stored | nac.py:57 | `tmp.real if gamma else tmp`: the real part is always kept; in gamma mode the stored value is real, in complex mode it is `tmp` itself. |
| Nac.Coupling | nac.py:55-57 | The numerator `<u_i|v_j> - <u_j|v_i>` as stored. It is zero on the diagonal and real in gamma mode. |
| Nac.Scaled | nac.py:67 | Elementwise `/ d`: same shape, every entry divided by the nonzero divisor. |
| Nac.RawMatrix | nac.py:40-58 | The matrix before scaling. It has a zero diagonal, is antisymmetric under plain negation, is real in gamma mode, and holds the formula off the diagonal. |
| Nac.ScaledNacs | nac.py:67 | The raw matrix divided by `2 * dt`. It is still a NAC matrix, and every off-diagonal entry is the coupling divided by `2 * dt`. |
| Nac.ScaledIsNacMatrix | nac.py:67 | Dividing by a nonzero real keeps the zero diagonal, the antisymmetry and realness. |
| Nac.CouplingAntisymmetric | nac.py:55-58 | The stored value at (j, i) is the negation of the one at (i, j). The diagonal value is zero. Gamma-mode values are real. |
| Nac.StoredSubAntisymmetric | nac.py:57-58 | Storing `tmp` (its real part in gamma mode) commutes with negating the difference. |
| Nac.SelfCouplingVanishes | nac.py:55-57 | With the same vectors at both times, the coupling is purely imaginary, and zero in gamma mode. |
| Nac.ComparableMatching | nac.py:37-38 | When both snapshots serve the selectors with equal band and plane-wave counts, every pair of band vectors has matching lengths. |
| Nac.FilledScaledIsScaledNacs | nac.py:67 | The filled matrix divided by `2 * dt` equals the scaled formula matrix, entry by entry. |
| Nac.FilledMatchesValue | nac.py:61-67 | After all checks pass, the filled and scaled array is the matrix of the value specification. |
| ComplexNumbers.Dot | nac.py:55 | `np.sum(a.conj() * b)` over exact complex numbers. Its conjugate symmetry is proved by `DotConjSymmetric`. |
| ComplexNumbers.DotConjSymmetric | nac.py:55 | `<b|a>` is the complex conjugate of `<a|b>`. |
| ComplexNumbers.MulConjSwap | nac.py:55 | `conj(y) * x` is the conjugate of `conj(x) * y`. |
| ComplexNumbers.ConjAdd | nac.py:55 | Conjugation distributes over a sum. |
| ComplexNumbers.DivNeg | nac.py:58 | Negation commutes with division by a real. |
| ComplexNumbers.DivTwice | nac.py:67 | Dividing by `2 * d` is dividing by d and then by 2. |
| Wavecar.PyIndex | nac.py:38 | A numpy index into a sequence of length n is valid if and only if -n <= i < n. It then names i or i + n. |
| Wavecar.BandVectors | nac.py:49-53 | For valid selectors, the coefficient vectors of all nbands bands, each of length `_nplws[ikpt-1]`. |
| Wavecar.ReadBandCoeff | nac.py:49-53 | A read succeeds if and only if spin, k-point and band are valid 1-based selectors. It then gives a vector of `_nplws[ikpt-1]` coefficients, the selected band's vector. |
| NacProperties.NacSuccessIsScaledFormula | nac.py:44-67 | A successful result is the scaled formula matrix over the selected band vectors. |
| NacProperties.NacEntriesFollowFormula | nac.py:46-57 | Every off-diagonal entry (i, j) is `(<cA(i+1)|cB(j+1)> - <cA(j+1)|cB(i+1)>) / (2 dt)`, with the four vectors read with 1-based band numbers. Only the real part is kept in gamma mode. |
| NacProperties.NacOfSameSnapshotVanishes | nac.py:55-57 | Given the same snapshot twice, every entry is purely imaginary, and the whole matrix is zero in gamma mode. |
| NacProperties.ScaledNacsOfSameVectorsVanish | nac.py:55-67 | The same property, for the scaled matrix over one list of band vectors. |
| NacProperties.NacHalvesWhenDtDoubles | nac.py:67 | Doubling dt keeps the outcome, the error and the energies, and halves every matrix entry. |
| NacProperties.ScaledNacsHalve | nac.py:67 | The matrix for `2 dt` is the matrix for dt halved. |
| NacProperties.NacEnergiesFromFirstSnapshot | nac.py:60-61 | The result does not depend on snapshot B's energies. The energies are snapshot A's. |
| NacProperties.UnitVectorsOrthonormal | nac.py:55 | [1, 0, 0] and [0, 1, 0] are orthonormal under the overlap. |
| NacProperties.OrthonormalCouplings | nac.py:55-57 | For orthonormal p, q, the stationary pair has coupling 0. Replacing band 1 by band 2 at t + dt gives coupling 1 at (2, 1). |
| NacProperties.ScenarioMatrices | nac.py:40-67 | The two 2 x 2 matrices for those cases: all zeros, and ±1/(2 dt) off the diagonal. |
| NacProperties.StationaryBandsScenario | nac.py:11-67 | Two unchanged orthonormal bands give the zero matrix, with energies passed through. |
| NacProperties.SwappedBandScenario | nac.py:11-67 | In gamma mode with dt = 0.5, B's band 1 equal to A's band 2 gives M[1][0] = 1 and M[0][1] = -1. |

## Left out

- Reading the WAVECAR files: `vaspwfc` and its `readBandCoeff` are not part of this model. A snapshot is a value holding the header counts, the energies and the coefficient vectors the reader would return (already normalised; `norm=True` is not modelled).
- `readBandCoeff` is modelled as a checked 1-based lookup. Its own rejection of bad selectors becomes `SourceReadFailure`, since its code is not part of this model.
- The progress `print` (nac.py:35) and the two `_wfc.close()` calls (nac.py:64-65) are I/O and are not modelled.
- The `__main__` driver (nac.py:73-84) writes files and is not modelled. The `multiprocessing` import is unused.
- Floating point: entries are exact reals and exact complex numbers. numpy's float64/complex128 rounding is not modelled.
- The two compatibility checks (nac.py:37-38) are Python `assert` statements. Under `python -O` they are stripped, and mismatched snapshots go straight into the loop. The model, and every "fails exactly when" above, assumes assertions are enabled.
- The Python defaults `gamma=True, dt=1.0, ikpt=1, ispin=1` (nac.py:11-12) are not modelled: every caller passes all six arguments.
- Nac.NacFromVaspwfc: requires dt != 0. With dt == 0, numpy divides by zero and yields inf/nan entries, which exact reals cannot express.
- Nac.NacFromSnapshots: requires dt != 0, for the same reason.
- Snapshot shape: every snapshot is assumed well formed (`Snapshot.Valid`). This means one vector of `_nplws[k]` coefficients per spin, k-point and band, and one energy per band. A corrupt WAVECAR is the reader's concern.
