# freud kernels in Dafny: link cells, Gaussian density, Debye structure factor

This project models three pieces of the freud particle-analysis library and
proves properties of the models.

- **Link-cell list** (`link_cell.dfy`, module `LinkCell`). The cell list is
  one array of `Np + Nc` unsigned slots. Slot `Np + c` holds the first
  particle of cell `c`. Slot `p < Np` holds the next particle in `p`'s cell.
  Every chain ends in `LINK_CELL_TERMINATOR`.
  - `IteratorLinkCell` is a class with a cursor field over a shared, never
    written array, with `next`, `atEnd` and the Python variant `nextPy`.
  - `LinkCell` maps a point's fractional coordinates to a cell coordinate and
    a flat cell index, and hands out iterators.
  - The documented client loop (`Walk`, `CellParticles`) returns exactly the
    cell's chain: distinct particle indices, never the terminator.
- **Gaussian density** (`gaussian_density.dfy`, module `GaussianDensity`).
  Each point spreads a Gaussian weight over the grid bins within `r_max` of
  it.
  - `compute` is specified by the list of deposits its loops make, in loop
    order: the candidate bin, its storage bin and its weight. Every bin of the
    result holds the sum of the weights deposited there.
  - Lemmas prove three things. A point deposits exactly at the candidates
    within `±bin_cut` of its home bin that pass the cutoff, minus the bins
    skipped on non-periodic axes, and at each of them exactly once. Every
    deposit lands inside the array. With
    a non-negative Gaussian the density is non-negative, and zero at bins no
    point reaches.
- **Debye static structure factor** (`structure_factor_debye.dfy`, module
  `StaticStructureFactorDebye`). The constructor checks its arguments in the
  code's order.
  - `accumulate` lowers the smallest valid k to `2π / r_max`, where `r_max`
    is just under half the smallest box side. It adds
    `Σ sinc(k d) / n_total` over all point/query distances to every k bin,
    and counts the frame.
  - `reduce` copies the histogram out. It divides by the frame count only
    when there is more than one frame.
  - Lemmas cover the running minimum, the k-bin centres, the sum for
    coincident points (every distance 0), and averaging: identical frames
    reduce to that frame.

Shared files:

- numbers.dfy: `unsigned int` as `u32`, truncating float-to-int conversion,
  integer facts.
- geometry.dfy: the box and vector values.
- wrappers.dfy: `Option` and `Result`.

Floating-point arithmetic is modelled with exact reals. The library routines
the kernels call are parameters whose needed properties are stated where they
are used:

- the box's wrapped distance and `exp` (`Kernel`);
- `sinc`, `nextafter` and the all-pairs distance routine (`Numerics`).

## Model

| member | source | states |
|---|---|---|
| LinkCell.CellChainProperties | cpp/locality/LinkCell.h:100-102 | the chain of every cell of a populated list holds distinct particle indices below Np, hence at most Np of them |
| LinkCell.ChainFrom | cpp/locality/LinkCell.h:59-63 | definition (no contract of its own): the particles met by repeated `next` from a slot up to the terminator, within a read budget; its properties are the ChainFrom lemmas below |
| LinkCell.Chain | cpp/locality/LinkCell.h:59-63 | definition (no contract of its own): the particles of a cell, the chain from its head slot Np + cell of a well-formed list; CellChainProperties and CellParticles state its properties |
| LinkCell.ChainFromFuel | cpp/locality/LinkCell.h:59-63 | a chain found within `fuel` reads has fewer than `fuel` particles |
| LinkCell.ChainFromDeterministic | cpp/locality/LinkCell.h:59-63 | following links from one slot gives one chain, whatever read budget finds it |
| LinkCell.ChainFromSuffix | cpp/locality/LinkCell.h:59-63 | after any particle of a chain, the rest of the chain is the chain from that particle's slot |
| LinkCell.ChainFromParticles | cpp/locality/LinkCell.h:59-63 | with every entry a particle index or the terminator, a chain holds only particle indices below Np |
| LinkCell.ChainFromDistinct | cpp/locality/LinkCell.h:59-63 | a chain that reaches the terminator never repeats a particle |
| LinkCell.ChainStep | cpp/locality/LinkCell.h:59-63 | one `next` either reads the terminator (empty rest) or the chain's first particle, whose slot starts the rest |
| LinkCell.IteratorLinkCell.constructor | cpp/locality/LinkCell.h:40-50 | the cursor starts at the head slot Np + cell of the shared list |
| LinkCell.IteratorLinkCell.AtEnd | cpp/locality/LinkCell.h:53-56 | true exactly at the terminator; otherwise the cursor is a readable slot |
| LinkCell.IteratorLinkCell.Next | cpp/locality/LinkCell.h:59-63 | the cursor becomes the link stored at its slot and is returned; unless it is the terminator it is a particle index |
| LinkCell.IteratorLinkCell.NextPy | cpp/locality/LinkCell.h:66-77 | advances like next; reports the end (StopIteration) exactly when the new cursor is the terminator, else returns the particle |
| LinkCell.NumCells | cpp/locality/LinkCell.h:131-134 | the cell count is at least the extent along each axis |
| LinkCell.Flatten | cpp/locality/LinkCell.h:137-141 | an in-range cell coordinate flattens to an index below the number of cells |
| LinkCell.Unflatten | cpp/locality/LinkCell.h:137-141 | every flat index below the number of cells has an in-range coordinate |
| LinkCell.UnflattenFlatten | cpp/locality/LinkCell.h:137-141 | flattening then unflattening gives back the coordinate |
| LinkCell.FlattenUnflatten | cpp/locality/LinkCell.h:137-141 | unflattening then flattening gives back the index |
| LinkCell.ScaledFloor | cpp/locality/LinkCell.h:163-168 | `floorf(a * n)` fits an unsigned int, is below n for a < 1 and equals n for a = 1 |
| LinkCell.CellComponent | cpp/locality/LinkCell.h:163-168 | the component after `%` is below the extent; it is the floor for a < 1, and a = 1 wraps to cell 0 |
| LinkCell.GetCellCoord | cpp/locality/LinkCell.h:159-170 | the coordinate is in range of the indexer, and each component is `floor(alpha * extent)` when alpha < 1 |
| LinkCell.GetCell | cpp/locality/LinkCell.h:137-141 | the cell index is below the number of cells and unflattens to the point's cell coordinate |
| LinkCell.LinkCell.constructor | cpp/locality/LinkCell.h:198-200 | a LinkCell holds its indexer, particle count and a populated cell list |
| LinkCell.LinkCell.Itercell | cpp/locality/LinkCell.h:173-177 | a fresh iterator sharing this cell list, with Np and the cell count, positioned at the cell's head slot |
| LinkCell.Walk | cpp/locality/LinkCell.h:28-35 | the documented `for (i = it.next(); !it.atEnd(); i = it.next())` loop stops at the terminator having met exactly the chain from the cursor's slot |
| LinkCell.CellParticles | cpp/locality/LinkCell.h:28-35 | itercell plus that loop yields exactly the cell's chain: distinct particle indices below Np |
| GaussianDensity.GaussianDensity.constructor | cpp/density/GaussianDensity.cc:15-20 | stores width, r_max and sigma for a positive r_max |
| GaussianDensity.GaussianDensity.Create | cpp/density/GaussianDensity.cc:15-20 | fails with the invalid-argument error exactly when r_max <= 0; sigma is not checked |
| Numbers.Trunc | cpp/density/GaussianDensity.cc:62-64 | `int(x)` of a float: the integer nearest zero within 1 of x (floor for x >= 0, ceiling for x < 0) |
| GaussianDensity.DepthZ | cpp/density/GaussianDensity.cc:43-48 | definition (no contract of its own): the z extent of the density array, 1 in 2D and the configured width otherwise; Compute states the array has this depth |
| GaussianDensity.MakeGrid | cpp/density/GaussianDensity.cc:57-65 | spacing is side over width (0 along z in 2D), bin_cut is r_max over spacing truncated (0 along z in 2D), r_max_sq is r_max squared |
| GaussianDensity.HomeBin | cpp/density/GaussianDensity.cc:75-83 | a point inside the box (each coordinate in [-L/2, L/2), spacing side over width) has its home bin inside the grid along x, y and, in 3D, z; in 2D the z bin is 0 |
| GaussianDensity.InsideAxis | cpp/density/GaussianDensity.cc:57-59 | definition (no contract of its own): a coordinate in [-L/2, L/2) on an axis whose spacing is the side over a positive width |
| GaussianDensity.AxisBinInRange | cpp/density/GaussianDensity.cc:75-77 | a coordinate inside the box truncates to a bin index in [0, width) |
| GaussianDensity.Skip | cpp/density/GaussianDensity.cc:89-92 | definition (no contract of its own): an index outside [0, width) on a non-periodic axis is skipped; the same test at 97-100 and 105-108 |
| GaussianDensity.Offset | cpp/density/GaussianDensity.cc:93-109 | definition (no contract of its own): the displacement from the point to the candidate bin's centre along one axis, as dz, dy and dx are computed |
| GaussianDensity.SquaredDistance | cpp/density/GaussianDensity.cc:109-114 | definition (no contract of its own): `dot(delta, delta)` of the box-wrapped displacement, through the Kernel parameter |
| GaussianDensity.Accepted | cpp/density/GaussianDensity.cc:117 | definition (no contract of its own): the cutoff test `r_sq < r_max_sq` |
| GaussianDensity.DepositAt | cpp/density/GaussianDensity.cc:117-129 | the deposit of a candidate remembers (i, j, k), has a storage bin inside the array and weighs the Gaussian at the candidate's squared distance |
| GaussianDensity.CellDeposits | cpp/density/GaussianDensity.cc:117-130 | a candidate deposits at most once, and deposits iff it passes the cutoff, and then its DepositAt |
| GaussianDensity.Sweep | cpp/density/GaussianDensity.cc:87-133 | definition (no contract of its own): one of the three candidate loops over [lo, hi), its iterations' deposits in loop order; SweepMembers, SweepIndex and SweepDistinct state its properties |
| GaussianDensity.Visit | cpp/density/GaussianDensity.cc:87-131 | definition (no contract of its own): one iteration of a loop: nothing if the index is skipped, else the candidate's deposit (i loop) or the whole inner loop (j and k loops) |
| GaussianDensity.FullRow | cpp/density/GaussianDensity.cc:103-131 | definition (no contract of its own): the i loop for fixed j and k; RowMembers and RowIndices state its properties |
| GaussianDensity.FullPlane | cpp/density/GaussianDensity.cc:95-132 | definition (no contract of its own): the j loop for fixed k; PlaneMembers and PlaneIndex state its properties |
| GaussianDensity.PointDeposits | cpp/density/GaussianDensity.cc:73-133 | definition (no contract of its own): the k loop around the point's home bin; PointDepositsExactly and PointDepositsDistinct state its properties |
| GaussianDensity.Candidate | cpp/density/GaussianDensity.cc:87-108 | definition (no contract of its own): the loop bounds `bin ± bin_cut` on each axis minus the indices skipped on non-periodic axes; PointDepositsExactly states that these are the visited candidates |
| GaussianDensity.Wrap | cpp/density/GaussianDensity.cc:122-126 | corrected storage index: candidate n modulo the width, always in [0, width) |
| GaussianDensity.WrapFacts | cpp/density/GaussianDensity.cc:122-126 | the storage index is n inside the grid, n + width one grid below and n - width one grid above (bin -1 is bin 29 for 30 bins) |
| GaussianDensity.WrapAsWritten | cpp/density/GaussianDensity.cc:124-126 | the unsigned formula as written stays below the width |
| GaussianDensity.WrapAsWrittenAgrees | cpp/density/GaussianDensity.cc:124-126 | the formula as written agrees with the corrected index whenever n + width does not wrap past zero |
| GaussianDensity.WrapAsWrittenMisplaces | cpp/density/GaussianDensity.cc:124-126 | for width 30, candidate -31 goes to bin 15 as written, but belongs in bin 29 |
| GaussianDensity.WrapMisplacementReachable | cpp/density/GaussianDensity.cc:57-126 | with a periodic 30-bin box of side 30, r_max 70, a point at the origin and any wrapped distance within the minimum-image bound (r² <= 675 < 4900), candidate -31 is visited, passes the cutoff, is deposited, and is misplaced as written |
| GaussianDensity.SweepStep | cpp/density/GaussianDensity.cc:87-108 | one more loop iteration appends that iteration's deposits |
| GaussianDensity.SweepMembers | cpp/density/GaussianDensity.cc:87-108 | a loop deposits d iff one of its iterations deposits d |
| GaussianDensity.RowMembers | cpp/density/GaussianDensity.cc:103-130 | the i loop deposits d iff d's i is within ±bin_cut, not skipped, passes the cutoff, and d is that candidate's deposit |
| GaussianDensity.RowIndices | cpp/density/GaussianDensity.cc:103-130 | every deposit of the i loop carries that loop's j and k |
| GaussianDensity.PlaneMembers | cpp/density/GaussianDensity.cc:95-131 | the j loop deposits d iff d's j is within ±bin_cut and not skipped, and the i loop for that j deposits d |
| GaussianDensity.PlaneIndex | cpp/density/GaussianDensity.cc:95-131 | every deposit of the j loop carries that loop's k |
| GaussianDensity.BlockMembers | cpp/density/GaussianDensity.cc:87-132 | the k loop deposits d iff d's k is within ±bin_cut and not skipped, and the j loop for that k deposits d |
| GaussianDensity.PointDepositsExactly | cpp/density/GaussianDensity.cc:73-133 | a point deposits d iff d's candidate is in the ±bin_cut box around the home bin, not skipped, passes `r_sq < r_max_sq`, and d carries the wrapped bin and kernel weight |
| GaussianDensity.DistinctConcat | cpp/density/GaussianDensity.cc:87-133 | two deposit lists, each without a repeated candidate and sharing none, concatenate to a list without a repeated candidate |
| GaussianDensity.VisitIndex | cpp/density/GaussianDensity.cc:87-131 | iteration n of a loop deposits only at index n along that loop's axis |
| GaussianDensity.SweepIndex | cpp/density/GaussianDensity.cc:87-133 | a loop over [lo, hi) deposits only at indices in [lo, hi) along its axis |
| GaussianDensity.SweepDistinct | cpp/density/GaussianDensity.cc:87-133 | each loop visits each of its indices once, so no two of its deposits share a candidate (i, j, k) |
| GaussianDensity.VisitDistinct | cpp/density/GaussianDensity.cc:87-131 | no iteration of a loop deposits twice at the same candidate |
| GaussianDensity.PointDepositsDistinct | cpp/density/GaussianDensity.cc:73-133 | no two deposits of one point share a candidate (i, j, k): each accepted candidate gets exactly one weight |
| GaussianDensity.ConcatMapMembers | cpp/density/GaussianDensity.cc:69-73 | the deposits of all points are the deposits of some point |
| GaussianDensity.AllDeposits | cpp/density/GaussianDensity.cc:69-73 | definition (no contract of its own): the deposits of the point loop, point after point; AllDepositsMembers, AllDepositsSnoc and Compute state its properties |
| GaussianDensity.AllDepositsMembers | cpp/density/GaussianDensity.cc:69-73 | a deposit is made by compute iff some point makes it |
| GaussianDensity.AllDepositsSnoc | cpp/density/GaussianDensity.cc:69-73 | one more point appends that point's deposits |
| GaussianDensity.DepositsInGrid | cpp/density/GaussianDensity.cc:122-129 | every deposit lands inside the density array; in 2D only plane k = 0 is visited and stored at z = 0 |
| GaussianDensity.DepositsWithinCutoff | cpp/density/GaussianDensity.cc:114-120 | every deposit passed the cutoff for some point and carries the Gaussian of that squared distance |
| GaussianDensity.GridValue | cpp/density/GaussianDensity.cc:129 | definition (no contract of its own): the value of an array bin after a run of deposits, the sum of the weights stored there |
| GaussianDensity.GridValueSnoc | cpp/density/GaussianDensity.cc:129 | a deposit adds its weight to its own bin and to no other |
| GaussianDensity.GridValueUntouched | cpp/density/GaussianDensity.cc:129 | a bin no deposit targets holds zero |
| GaussianDensity.GridValueNonNegative | cpp/density/GaussianDensity.cc:129 | non-negative weights give non-negative bins |
| GaussianDensity.DensityFacts | cpp/density/GaussianDensity.cc:114-138 | with a non-negative Gaussian the density is non-negative everywhere, and zero at every bin no point reaches within the cutoff |
| GaussianDensity.GaussianDensity.Compute | cpp/density/GaussianDensity.cc:37-139 | records the box; the new density array is width.x by width.y by (1 in 2D, else width.z) and holds at each bin the sum of the weights all points deposit there |
| GaussianDensity.ReduceInto | cpp/density/GaussianDensity.cc:137-138 | each output bin gains the thread-local grid's value |
| GaussianDensity.AddDeposit | cpp/density/GaussianDensity.cc:129 | the `+=` keeps the grid equal to the sums of the deposits so far plus this one |
| GaussianDensity.SplatPoint | cpp/density/GaussianDensity.cc:73-133 | the loops of one point append exactly that point's deposits and keep the grid equal to the deposit sums |
| GaussianDensity.SplatBlock | cpp/density/GaussianDensity.cc:87-133 | the k loop appends exactly its deposits and keeps the grid equal to the deposit sums |
| GaussianDensity.SplatPlane | cpp/density/GaussianDensity.cc:95-132 | the j loop appends exactly its deposits and keeps the grid equal to the deposit sums |
| GaussianDensity.SplatRow | cpp/density/GaussianDensity.cc:103-131 | the i loop appends exactly its deposits and keeps the grid equal to the deposit sums |
| StaticStructureFactorDebye.Validate | cpp/diffraction/StaticStructureFactorDebye.cc:25-40 | accepts iff bins > 0, k_max > 0, k_min >= 0 and k_max > k_min; otherwise reports the first failing check in the code's order |
| StaticStructureFactorDebye.StructureFactorDebye.constructor | cpp/diffraction/StaticStructureFactorDebye.cc:23-49 | stores bins and the k range; minimum valid k is +infinity; histogram and output are zeroed arrays of `bins` entries; no frames yet |
| StaticStructureFactorDebye.StructureFactorDebye.Create | cpp/diffraction/StaticStructureFactorDebye.cc:23-40 | throws exactly when a check fails, with that check's error; otherwise a fresh object with the given bins and k range, minimum valid k +infinity, frame count 0, the reduce flag set, and zeroed fresh histogram and output arrays |
| StaticStructureFactorDebye.BinWidth | cpp/diffraction/StaticStructureFactorDebye.cc:43-44 | the k bins have positive width and `bins` of them span [k_min, k_max) |
| StaticStructureFactorDebye.KCenter | cpp/diffraction/StaticStructureFactorDebye.cc:71-76 | every k-bin centre lies strictly between k_min and k_max |
| StaticStructureFactorDebye.KCentersIncrease | cpp/diffraction/StaticStructureFactorDebye.cc:71-76 | the centres increase with the bin index, at least a bin width apart |
| StaticStructureFactorDebye.ExtMin | cpp/diffraction/StaticStructureFactorDebye.cc:66 | `std::min` with +infinity: at most both arguments and equal to one of them |
| StaticStructureFactorDebye.MinSide | cpp/diffraction/StaticStructureFactorDebye.cc:57-59 | the smallest of Lx, Ly (and Lz in 3D), positive |
| StaticStructureFactorDebye.RMax | cpp/diffraction/StaticStructureFactorDebye.cc:60 | r_max is positive and strictly below half of every side that counts |
| StaticStructureFactorDebye.FrameMinK | cpp/diffraction/StaticStructureFactorDebye.cc:64-66 | the frame's smallest valid k, 2π / r_max, is positive |
| StaticStructureFactorDebye.MinValidKAfter | cpp/diffraction/StaticStructureFactorDebye.cc:66 | definition (no contract of its own): `m_min_valid_k` after a run of frames, each taking `std::min` with its bound; MinValidKIsMinimum and MinValidKNeverIncreases state its properties |
| StaticStructureFactorDebye.MinValidKIsMinimum | cpp/diffraction/StaticStructureFactorDebye.cc:66 | after any run of frames the smallest valid k is at most its start and every frame's bound, and equals one of them |
| StaticStructureFactorDebye.MinValidKNeverIncreases | cpp/diffraction/StaticStructureFactorDebye.cc:66 | a further frame never raises the smallest valid k |
| StaticStructureFactorDebye.AllDistances | cpp/diffraction/StaticStructureFactorDebye.cc:68-69 | there are n_points × n_query_points distances |
| StaticStructureFactorDebye.AllDistancesEntry | cpp/diffraction/StaticStructureFactorDebye.cc:68-69 | entry n·n_query_points + q is the distance from point n to query point q |
| StaticStructureFactorDebye.SincSum | cpp/diffraction/StaticStructureFactorDebye.cc:77-82 | definition (no contract of its own): `S_k`, the sum of sinc(k d) over the distances in loop order; SumSinc computes it, SincSumBounded and SincSumCoincident state its properties |
| StaticStructureFactorDebye.SincSumSnoc | cpp/diffraction/StaticStructureFactorDebye.cc:78-82 | one more distance adds its sinc(k d) term |
| StaticStructureFactorDebye.SincSumCoincident | cpp/diffraction/StaticStructureFactorDebye.cc:78-82 | with sinc(0) = 1 and every distance 0 (coincident points), S_k is the number of distances for every k |
| StaticStructureFactorDebye.SincSumBounded | cpp/diffraction/StaticStructureFactorDebye.cc:78-82 | with sinc in [-1, 1], S lies between minus and plus the number of distances |
| StaticStructureFactorDebye.SumSinc | cpp/diffraction/StaticStructureFactorDebye.cc:77-82 | the distance loop computes the sum of sinc(k d) over all distances |
| StaticStructureFactorDebye.FrameValues | cpp/diffraction/StaticStructureFactorDebye.cc:73-85 | definition: one value per k bin, the bin centre's S_k divided by n_total (its ensures only spell that out for callers); FrameValuesBounded, FrameValuesCoincident and AddFrame state its properties |
| StaticStructureFactorDebye.FrameValuesBounded | cpp/diffraction/StaticStructureFactorDebye.cc:76-83 | with sinc in [-1, 1], a frame adds to each k bin a value between minus and plus the number of pairs over n_total |
| StaticStructureFactorDebye.FrameValuesCoincident | cpp/diffraction/StaticStructureFactorDebye.cc:76-83 | a frame of coincident points adds the number of pairs over n_total to every k bin |
| StaticStructureFactorDebye.AddFrame | cpp/diffraction/StaticStructureFactorDebye.cc:73-86 | the k loop adds the frame's value to every bin of the histogram |
| StaticStructureFactorDebye.StructureFactorDebye.Accumulate | cpp/diffraction/StaticStructureFactorDebye.cc:51-89 | minimum valid k becomes min(old, 2π / r_max); the histogram gains this frame's values; the frame count rises by one; the reduce flag is set |
| StaticStructureFactorDebye.Plus | cpp/diffraction/StaticStructureFactorDebye.cc:84 | definition: bin-by-bin addition of two histograms (its ensures only spell that out for callers); PlusAssociative and AccumulatedSplit state its properties |
| StaticStructureFactorDebye.PlusAssociative | cpp/diffraction/StaticStructureFactorDebye.cc:84 | bin-by-bin addition is associative |
| StaticStructureFactorDebye.AccumulatedSplit | cpp/diffraction/StaticStructureFactorDebye.cc:84-94 | summing two runs of frames into separate histograms and adding them (as the local histograms are reduced into one) gives the histogram of all the frames |
| StaticStructureFactorDebye.Normalized | cpp/diffraction/StaticStructureFactorDebye.cc:96-105 | with at most one frame the output is the histogram; with more, each entry times the frame count is the histogram entry |
| StaticStructureFactorDebye.Accumulated | cpp/diffraction/StaticStructureFactorDebye.cc:84-87 | the histogram after a run of frames has one entry per bin |
| StaticStructureFactorDebye.AccumulatedIdentical | cpp/diffraction/StaticStructureFactorDebye.cc:84-87 | after n identical frames each bin holds n times the frame's value |
| StaticStructureFactorDebye.ReduceOfIdenticalFrames | cpp/diffraction/StaticStructureFactorDebye.cc:91-106 | reducing after any positive number of identical frames gives that frame's values |
| StaticStructureFactorDebye.ReduceLeavesOneFrame | cpp/diffraction/StaticStructureFactorDebye.cc:97 | with no frame the output is zero; with one frame it is that frame, undivided |
| StaticStructureFactorDebye.StructureFactorDebye.Reduce | cpp/diffraction/StaticStructureFactorDebye.cc:91-106 | a fresh output equal to the histogram, divided by the frame count when above 1; the histogram, frame count and minimum valid k are unchanged |

## Left out

- `LinkCell::computeCellList`, `computeCellNeighbors`, `getCellNeighbors` and the `LinkCell(box, cell_width)` constructor's cell sizing: their bodies are in LinkCell.cc, which is not part of this model. `LinkCell.LinkCell.constructor` takes the populated cell list they would build, and `WellFormed` states what the iterator relies on.
- The Python wrappers `getCellPy`, `getCellNeighborsPy` and `computeCellListPy`: they only convert NumPy arrays.
- LinkCell.Flatten: Index1D.h is not part of this model. Its flattening is taken as `(k·H + j)·W + i`.
- LinkCell.GetCellCoord: `Box::makeunit` is not part of this model, so the point's fractional coordinates are the input. Points that scale beyond the unsigned range are excluded (`Scalable`), because converting such a float to `unsigned int` is undefined in C++.
- LinkCell.IteratorLinkCell.Next: calling `next` at the end reads slot 0xffffffff (undefined behaviour). The model requires the iterator not at its end. The constructor's `assert`s become preconditions.
- LinkCell.IteratorLinkCell.NextPy: the Python StopIteration exception is returned as `None`.
- GaussianDensity.GaussianDensity.Compute: it stores each candidate at the corrected Wrap, n mod width. For a periodic candidate below -width this departs from the code, which stores it at the unsigned `(i + width) % width`; see ## Findings.
- GaussianDensity.GaussianDensity.Compute: it requires positive widths and a box with positive sides, so the degenerate inputs are not described. With a zero width along an axis, the float division at GaussianDensity.cc lines 57-59 makes the spacing +inf, so bin_cut and the home bin along it are `int(0.0) = 0`; the only candidate's offset `inf * 0` is NaN, it fails the cutoff (or is skipped on a non-periodic axis), and the result is an array with a zero extent. In 2D with width.z = 0 and a periodic z axis, `% m_width.z` at line 126 is an integer division by zero once a candidate passes the cutoff. A zero side makes the spacing 0, and `int(r_max / 0)` converts infinity to `int`.
- GaussianDensity.MakeGrid: `int(...)` of values outside the `int` range is undefined in C++. The model truncates without bounds.
- GaussianDensity.GaussianDensity.Compute: the 2D home bin along z is computed from a zero grid spacing and then overwritten with 0. The model sets it to 0 directly.
- Floating point: every `float` or `double` is an exact real. `floorf`, `exp`, `std::sqrt`, `Box::wrap` with the dot product (`Kernel`), `util::sinc`, `std::nextafter` and `Box::computeAllDistances` (`Numerics`) are parameters. The Gaussian prefactor `A` and σ enter only through `Kernel.gauss`.
- StaticStructureFactorDebye.AllDistances: the buffer size `n_points * n_query_points` is an `unsigned int` product that wraps once it reaches 2^32. The model always returns exactly |points|·|queries| distances, so it does not capture a frame that large.
- StaticStructureFactorDebye.AllDistances: Box.cc is not part of this model. The distances are taken point by point, query point by query point; the sum over them does not depend on the order in exact arithmetic.
- StaticStructureFactorDebye.KCenter: `util::RegularAxis` (Histogram.h) is not part of this model. Bin centres are taken as midpoints of equal-width bins on `[k_min, k_max)`.
- Threads: `util::forLoopWrapper`, the thread-local density grids and histograms, and `reduceInto` are modelled as a single thread. `GaussianDensity.ReduceInto` sums one local grid into a zeroed output, and the Debye histogram is a single array.
- StaticStructureFactorDebye.StructureFactorDebye.constructor: StaticStructureFactorDebye.h is not part of this model. The frame count starting at 0 and the reduce flag starting set are assumed. `reset()` and the getters that call `reduce` when the flag is set are left out.
- StaticStructureFactorDebye.StructureFactorDebye.Accumulate: it requires `n_total > 0`. With `n_total = 0` the code divides by zero in floating point.
- StaticStructureFactorDebye.StructureFactorDebye.Accumulate: the frame counter is an unbounded natural number. The `unsigned int` counter would wrap after 2^32 frames.
- `GaussianDensity::getDensity` and `getWidth` are plain getters. They are read as fields of the class.

## Findings

| source | as written | input that shows it | evidently intended | confidence | as-written member | corrected member |
|---|---|---|---|---|---|---|
| cpp/density/GaussianDensity.cc:124-126 | `(i + m_width.x) % m_width.x` mixes `int` and `unsigned int`, so the sum is taken modulo 2^32 before the `%`. A candidate index below `-width` wraps to a huge unsigned value, and the weight is stored in the wrong bin unless the width divides 2^32. | Width 30, periodic cubic box of side 30, r_max = 70, a point at the origin. The home bin is 15 and bin_cut is 70, so candidate i = -31 is visited and its weight is stored in bin 15. | Store candidate i in bin i mod width (bin 29 here), as the comment "bin -1 is actually bin 29 for nbins = 30" describes. | not executed; follows from C++ integer conversions | GaussianDensity.WrapMisplacementReachable | GaussianDensity.Wrap |
