# genetic-life in Dafny

A model of the simulation core of genetic-life, a Game of Life whose cells
carry a genome. The model has three modules.

- `Genome` (genome.dfy) holds the bit arithmetic of one 8-bit gene channel:
  - the bit test `pick_gene_bit`;
  - the three-parent crossover `mix_genes`, with its cut-point masks and six arms;
  - the point-mutation noise `mutate`;
  - the integer skeleton of `decode_genome`: the disease, health and
    dominance bits, the sign of each `factor`, and the `max(0, …)` clamp.
- `Cells` (cell.dfy) holds the `Cell` value. It covers:
  - alive flag, `r`, `g` and `b` genes, age and life expectancy;
  - `get_color` packing and `get_color_hex` rendering;
  - the transitions `new`, `reset`, `decode_genome`, `give_birth`, `live_on` and `kill`.

  Each transition is a function stating the state it leaves (`Killed`,
  `Decoded`, `Randomized`, `BornFrom`, `LivedOn`). A method of the datatype
  assigns the fields in the source's order and is proved equal to that
  function.
- `Grid` (universe.dfy) holds the `Universe` class. Its constant `width` and
  `height` and its `cells` sequence are stored row-major. It covers:
  - `get_index`;
  - the toroidal neighbour scan `live_neighbours`, with its offset lists
    `[height - 1, 0, 1]` and `[width - 1, 0, 1]`;
  - the double-buffered `tick`. It fills a copy of the cells in row-major
    order, reads only the pre-tick cells, and then replaces the cells with
    the copy.

  The scan is specified by visited coordinates (`Scanned`,
  `NeighbourCoords`) and collected cells (`ScanLive`, `LiveNeighboursOf`).
  The tick is specified by `Ticked`, computed only from the pre-tick cells.

Every random draw of the source is an explicit parameter whose type is the
range the code draws from. This includes:
- the cut points and crossover arm;
- the mutation roll, channel and noise bytes;
- the alive coin and gene bytes of `reset`;
- the probability magnitudes of `decode_genome`.

The draws of one call are grouped in a datatype: `MixDraw`, `DecodeDraw`,
`ResetDraw`, `BirthDraw`, `LiveOnDraw` or `TickDraw`. `DecodeDraw` also
carries the decoding baseline. The baseline is not random: it is a
floating-point function of the genome (see "## Left out"), and the model
takes it as a free integer in 0..500 on each decode.

Some behaviours of the code differ from what its comments and an obvious
reading of the game suggest; the model follows the code:
- **Unviable colours.** `give_birth` rejects `0x00000` and the 20-bit
  `0xfffff`, not white `0xffffff`. So the unviable genomes are black and
  (0x0f, 0xff, 0xff) (`Cells.UnviableGenomes`).
- **1 x 1 grid.** The offset lists are `[0, 0, 1]` on a 1 x 1 grid, so the
  scan visits the cell itself five times. An alive cell then has five live
  neighbours and dies of overpopulation, not of starvation
  (`Grid.SingleCellScan`, `Grid.SingleCellTick`).
- **Death check after re-decoding.** `live_on` re-decodes the genome before
  its death check. A cell already older than its stored life expectancy can
  therefore survive the next `live_on`, when its genome re-decodes to at
  least its age plus one (`Cells.OverdueCellCanSurvive`). No
  such cell is reachable: `new`, `reset` and `tick` all keep
  `age <= lifeExpectancy`, as part of `Cell.Bounded` and `Universe.Valid`.
- **Dead cells keep their genes.** A cell that `reset` leaves dead keeps its
  random genes and its decoded life expectancy (`Cells.ResetDeadKeepsGenes`).
  Only `kill` zeroes a cell.
- **Six crossover arms.** The crossover has six arms, not the five its
  comment at src/cell.rs:170 announces. They are the
  six assignments of parents to segments, so the fallback arm is unreachable
  (`Genome.SixPermutations`).

## Model

| member | source | states |
|---|---|---|
| Genome.PickGeneBit | src/cell.rs:109-111 | `pick_gene_bit`; specified by `BitTestsAgree` (it is the `!= 0` bit test) and `MaskBits` (which bits each mask has) |
| Genome.BitTestsAgree | src/cell.rs:109-111 | `pick_gene_bit`'s mask-and-shift test agrees with the `gene & (1 << n) != 0` test used for dominance |
| Genome.AMask | src/cell.rs:179 | `a_mask = 0xff << h`; `MaskBits` shows it holds exactly bits h..7 |
| Genome.CMask | src/cell.rs:180 | the low mask `!(0xff << l)` is empty exactly when `l = 0` |
| Genome.BMask | src/cell.rs:181 | `b_mask`, the complement of `a_mask` and `c_mask` together; `MaskBits` shows it holds exactly bits l..h-1, `MasksPartition` that the three masks partition the byte |
| Genome.MaskBits | src/cell.rs:176-181 | bit i is in `a_mask` iff `h <= i`, in `b_mask` iff `l <= i < h`, in `c_mask` iff `i < l` |
| Genome.MasksPartition | src/cell.rs:179-181 | the three masks are pairwise disjoint and their OR is `0xff`, for every cut point in range |
| Genome.MixGenes | src/cell.rs:165-193 | `mix_genes` with the draws as parameters; specified by `MixSegments`, `MixBitFromParent` and `MixIdentical` |
| Genome.SegmentOwners | src/cell.rs:184-190 | each crossover arm assigns the three segments to three distinct parents |
| Genome.SixPermutations | src/cell.rs:183-191 | the six arms give six different assignments and every assignment has an arm, so the `_ => 0` fallback is unreachable |
| Genome.SpliceSegments | src/cell.rs:185-190 | under pairwise disjoint masks, each mask recovers the parent byte spliced under it |
| Genome.MixSegments | src/cell.rs:176-191 | for every draw, `child & m == p & m` for the parent `p` the arm assigns to mask `m` |
| Genome.MixBitFromParent | src/cell.rs:176-191 | every bit of the child equals the same bit of the parent owning that bit's segment |
| Genome.MixIdentical | src/cell.rs:176-191 | mixing three copies of one byte gives that byte, for every cut point and arm |
| Genome.Mutate | src/cell.rs:74-76 | the mutated byte differs from the original exactly in the bits set in both noise bytes |
| Genome.MutateInvolution | src/cell.rs:74-76 | applying the same noise twice restores the byte |
| Genome.Disease | src/cell.rs:113-116 | the disease bit of a channel is bit 4 or bit 1; its effect on the expectancy is stated by `Factor` and `ChannelFactor` |
| Genome.Health | src/cell.rs:118-121 | the health bit of a channel is bit 6 or bit 3; its effect is stated by `Factor` and `ChannelFactor` |
| Genome.Dominant | src/cell.rs:123-126 | the dominance bit is bit 5; `ProbabilityMagnitude` and `ChannelFactor` state the magnitude range it selects |
| Genome.ProbabilityMagnitude | src/cell.rs:128-136 | the rounded magnitude is 25..42 for a dominant gene and 0..29 for a recessive one |
| Genome.Factor | src/cell.rs:138-142 | the factor is 0 when health equals disease, `+magnitude` for health only, `-magnitude` for disease only |
| Genome.ChannelFactor | src/cell.rs:113-142 | a channel contributes at most 42 either way, 0 when its health and disease bits agree, with the sign of health minus disease, and at least 25 in magnitude when dominant and non-neutral |
| Genome.LifeExpectancy | src/cell.rs:153-159 | the decoded expectancy is the clamp of baseline plus factors: non-negative, at least the sum, equal to 0 or to the sum, at most 626 |
| Genome.NeutralGenome | src/cell.rs:138-159 | with health equal to disease in every channel the expectancy is the baseline |
| Cells.Hex2 | src/cell.rs:29 | `{:02x}` writes exactly two lower-case hex digits that read back to the byte |
| Cells.PackColor | src/cell.rs:102-104 | the packing of r, g, b into bits 16..23, 8..15 and 0..7; `Cell.GetColor` states that it fits 24 bits and unpacks |
| Cells.Cell.GetColor | src/cell.rs:102-104 | `get_color` is below 2^24 and `(c >> 16) & 0xff == r`, `(c >> 8) & 0xff == g`, `c & 0xff == b` |
| Cells.Cell.GetColorHex | src/cell.rs:25-30 | always 7 characters starting with `#` followed by hex digits; `"#000000"` for every dead cell; otherwise the digits read back to r, g, b |
| Cells.Cell.Killed | src/cell.rs:93-100 | the killed state, independent of the cell killed, is dead, packs to 0, renders black and is within the age bounds |
| Cells.Cell.Kill | src/cell.rs:93-100 | `kill` leaves the killed state (dead, with r, g, b, age and life expectancy all zero) whatever the cell was; killing a killed cell leaves it unchanged |
| Cells.Cell.Decoded | src/cell.rs:108-160 | decoding changes only the life expectancy, to the clamped sum for the cell's genes |
| Cells.Cell.DecodeGenome | src/cell.rs:108-160 | the field-by-field decoding yields the decoded state |
| Cells.Cell.Randomized | src/cell.rs:42-49 | `reset` leaves the drawn alive flag and genes, age 0, the decoded expectancy, within the bounds |
| Cells.Cell.New | src/cell.rs:34-40 | `Cell::new` (default cell, then `reset`) is the randomized state |
| Cells.Cell.Reset | src/cell.rs:42-49 | the field-by-field `reset` yields the randomized state |
| Cells.Cell.BornFrom | src/cell.rs:51-66 | the child has the mixed genes; it is dead exactly when the packed colour is `0` or `0xfffff`; age 0 and a fresh decode happen only on a dead-to-alive transition, otherwise age and expectancy are untouched |
| Cells.Cell.GiveBirth | src/cell.rs:51-66 | the field-by-field `give_birth` yields the born state |
| Cells.Cell.LivedOn | src/cell.rs:68-91 | `live_on` leaves either the killed state or the cell aged by exactly one within its new expectancy; it kills exactly when the aged cell outlives the re-decoded expectancy; the surviving genes are the mutated ones |
| Cells.Cell.MutatedGenes | src/cell.rs:69-85 | the genes after the mutation step of `live_on`, due by the helpers `MutationThreshold` (`floor(0.75 * le)`) and `MutationDue` (src/cell.rs:70-71); specified by `MutationSingleChannel` and `Mutate` |
| Cells.LivedOnSteps | src/cell.rs:68-91 | the live-on state is: age and mutate, then re-decode, then kill if too old |
| Cells.Cell.LiveOn | src/cell.rs:68-91 | the field-by-field `live_on`, with its inner `mutate`, yields the lived-on state |
| Cells.UnviableGenomes | src/cell.rs:56-59 | the unviable check, the helper `Unviable` on the packed colour, accepts exactly the genomes (0, 0, 0) and (0x0f, 0xff, 0xff) |
| Cells.ResetDeadKeepsGenes | src/cell.rs:42-49 | a cell `reset` leaves dead keeps non-zero genes yet renders `"#000000"` and is not the killed state |
| Cells.MutationSingleChannel | src/cell.rs:70-85 | at most one channel changes, only when a mutation is due, and only by XOR with `noiseA & noiseB` |
| Cells.OverdueCellCanSurvive | src/cell.rs:87-90 | a cell older than its stored expectancy, outside `Bounded` and so unreachable, would survive `live_on` when its genome re-decodes to more |
| Grid.ModOnce | src/lib.rs:97-98 | the scan's `(x + delta) % n` is at most one subtraction of n |
| Grid.IndexInGrid | src/lib.rs:85-87 | a coordinate inside the grid has a row-major position below `width * height` |
| Grid.RowColumnAreDivMod | src/lib.rs:86 | row and column of a position are its Euclidean quotient and remainder by the width |
| Grid.RowMajorRoundTrip | src/lib.rs:86 | splitting `row * width + col` gives back row and col when `col < width` |
| Grid.PositionInGrid | src/lib.rs:47-49 | every position of the cells is reached by one (row, col) of the tick's loops |
| Grid.Visit | src/lib.rs:93-98 | a scan step visits nothing for offsets (0, 0) and exactly one coordinate otherwise |
| Grid.ScanSkip | src/lib.rs:93-95 | the (0, 0) step adds nothing to the visited coordinates |
| Grid.ScanVisit | src/lib.rs:97-98 | any other step appends the offset coordinate reduced into the grid |
| Grid.ScannedInGrid | src/lib.rs:97-98 | every coordinate the scan visits lies inside the grid |
| Grid.NeighbourCoords | src/lib.rs:91-98 | the coordinates the whole scan visits, defined by the step-by-step scan `Scanned`: all inside the grid |
| Grid.ScanUnfold | src/lib.rs:91-92 | the scan tries row offset `height - 1`, then 0, then 1, each with its three column offsets in order |
| Grid.NeighbourCount | src/lib.rs:91-98 | the scan visits at most eight coordinates |
| Grid.NeighbourCoordsCyclic | src/lib.rs:91-98 | on a grid at least 2 x 2 the scan visits the eight cyclic neighbours in scan order |
| Grid.NeighbourCoordsTorus | src/lib.rs:91-98 | on a grid at least 2 x 2 the scan visits exactly `((row + dr) mod height, (col + dc) mod width)` for the eight offsets in {-1, 0, 1}^2 minus (0, 0), row outer, column inner |
| Grid.NeighboursDistinct | src/lib.rs:91-98 | on a grid at least 3 x 3 the eight visited coordinates are pairwise distinct and do not include (row, col) |
| Grid.CornerWrapsAround | src/lib.rs:91-98 | on a 3 x 3 grid (2, 2) is a neighbour of (0, 0) |
| Grid.SingleCellScan | src/lib.rs:91-98 | on a 1 x 1 grid the scan visits the cell itself five times |
| Grid.LivePrefixAlive | src/lib.rs:100-102 | only live cells are collected |
| Grid.ScanLiveFilters | src/lib.rs:89-106 | the cells collected during the scan are the live cells at the visited coordinates, in visiting order |
| Grid.LiveNeighboursFiltered | src/lib.rs:89-106 | the live neighbours are the live cells at the scanned coordinates, in scan order: at most eight, all alive |
| Grid.LiveNeighboursOf | src/lib.rs:89-106 | the live neighbours `live_neighbours` collects, defined by the step-by-step collection `ScanLive`; specified by `LiveNeighboursFiltered` and `ScanLiveFilters` |
| Grid.NextCell | src/lib.rs:53-70 | the cell the rules leave at one position; specified by `NextCellRules`, and `ApplyRules` shows the checks in the source's order compute it |
| Grid.NextCellRules | src/lib.rs:53-70 | after the rules a cell is alive only if it was alive with 2 or 3 live neighbours or dead with exactly 3; starvation and overpopulation zero it; a dead cell without exactly 3 is unchanged; the age bounds are kept |
| Grid.ApplyRules | src/lib.rs:53-70 | the three checks of a live cell in sequence, and birth from the first three live neighbours, compute the rules' cell |
| Grid.Ticked | src/lib.rs:44-73 | the cells after one tick, computed from the pre-tick cells only; specified by `TickedAtPosition`, `TickedBounded` and `SingleCellTick` |
| Grid.TickedAtPosition | src/lib.rs:44-73 | the ticked cell at (row, col) is the rules applied to the pre-tick cell with its live neighbours in the pre-tick cells |
| Grid.TickedBounded | src/lib.rs:44-73 | a tick keeps the number of cells and every cell's age bounds, including `age <= lifeExpectancy` |
| Grid.SingleCellTick | src/lib.rs:44-73 | on a 1 x 1 grid a tick kills an alive cell and leaves a dead one unchanged |
| Grid.Universe.constructor | src/lib.rs:27-36 | `new` creates `width * height` cells, each a fresh `Cell::new` from its draws |
| Grid.Universe.Reset | src/lib.rs:38-42 | `reset` resets every cell in place from its draws and keeps the number of cells |
| Grid.Universe.GetIndex | src/lib.rs:85-87 | `get_index`, the row-major position; specified by `GetIndexSplits` and `GetIndexInjective` |
| Grid.Universe.GetIndexSplits | src/lib.rs:85-87 | `get_index` of a coordinate inside the grid is below `width * height` and splits back into row and column |
| Grid.Universe.GetIndexInjective | src/lib.rs:85-87 | distinct coordinates inside the rows have distinct indices |
| Grid.Universe.CellAt | src/lib.rs:76-79 | `cell` returns the cell stored at `get_index(row, column)`, within the age bounds |
| Grid.Universe.VisitNeighbour | src/lib.rs:93-102 | one step of the scan, with the `%` wrap-around, extends the collected list exactly as one step of `ScanLive` |
| Grid.Universe.LiveNeighbours | src/lib.rs:89-106 | the nested delta loops return the live neighbours of (row, column) in scan order |
| Grid.Universe.UpdateCell | src/lib.rs:49-70 | applying the rules at (row, col) extends the filled prefix of the copy by one position, reading only the pre-tick cells |
| Grid.Universe.Tick | src/lib.rs:44-74 | after `tick` the cells are the one-tick successor of the pre-tick cells, and the invariant still holds |

## Left out

- Randomness: `js_sys::Math::random`, `rand_range` and `rand_probability` are
  replaced by draw parameters constrained to the ranges the code can produce.
  Their distributions are not modelled, for example that rounding makes the
  end values of `rand_range` half as likely.
- Floating point in `decode_genome`: the luma brightness, the `tanh` sigmoid
  and `42 * U` are not modelled. The baseline `average_life_expectancy`
  (src/cell.rs:145-151) is `round(500 * sigmoid(luma(r, g, b)))`, a fixed
  floating-point function of the genome with no random input. The model
  replaces it with a free integer in 0..500 on each decode, which covers
  every value the function can take; no property here depends on which one
  it is. Each channel's rounded magnitude is an integer drawn within the interval
  its dominance bit selects. `floor(life_expectancy * 0.75)` is `(3 * le) / 4`,
  which is exact for `u32`.
- Host plumbing is not part of this model: `wasm_bindgen`, `wee_alloc`,
  `utils::set_panic_hook` (that module is not part of this model) and the
  JavaScript front end.
- `u32` arithmetic: the grid operations require `Fits(width, height)`, which
  bounds `width * height` and each dimension so that `width * height`,
  `row * width + column` and `row + (height - 1)` cannot overflow. Wrap-around
  for larger grids is not modelled. Ages and life expectancies are unbounded
  naturals; `Valid` keeps every age at most its life expectancy and that at
  most 626, so `age += 1` cannot overflow.
- Grid.Universe.CellAt: requires the index to be inside the cells. The
  source panics on an out-of-range index.
- Grid.Universe.GetIndex: requires `row * width + column` to fit in `u32`.
  The source would wrap or panic.
- Grid.Universe.Tick: the loop body is factored into `UpdateCell`, and the
  rules into `ApplyRules`, with the checks in the source's order.
  `LiveNeighbours` reads a local copy of `cells`, which `tick` does not
  change before its final assignment.
- Grid.Universe.LiveNeighbours: the Rust result is a vector of references
  into `self.cells`. The model returns the cell values, which is the same
  since a cell is `Copy` and nothing is written during the scan.
- Grid.NeighbourCoordsTorus: needs `width >= 2 && height >= 2`, and
  Grid.NeighboursDistinct needs `width >= 3 && height >= 3`. On smaller
  grids the offset lists repeat entries (see `SingleCellScan`).
- Grid.LivePrefix skips a coordinate whose position lies outside the cells;
  `ScannedInGrid` shows the scan never produces one.
