# Lenia3D core, modelled in Dafny

Lenia3D runs a continuous cellular automaton on a toroidal 3-D grid. At each
step the grid is convolved with a radial shell kernel, the convolution `U` is
passed through a growth map, and `grid + growth(U)/T` is clipped to [0, 1].
The browser engine is JavaScript on tf.js. A Python prototype turns grids
into voxel meshes.

This project models the discrete, exactly-stateable logic around the
floating-point numerics, one Dafny module per source file:

| module | source file | form |
|---|---|---|
| `PatternCodec` | `Javascript/src/utils/load.js` | The run-length pattern decoder, the rectangulariser, the token map, the shell-fraction parser and the catalogue lookups. The parsing loops are methods proved against functions. |
| `GridUtils` | `Javascript/src/core/GridUtils.js` | `roll`, `resize` padding and the complex split, `repeatAlongAxis` and `zoom` on 3-D grids stored as nested sequences. |
| `KernelGen` | `Javascript/src/core/KernelGen.js` | Coordinate grids, the squared distance field, shell indexing, the kernel cores, normalisation and the centring roll. |
| `LeniaEngine` | `Javascript/src/core/LeniaEngine.js` | The engine as a `class` with the source's fields. Each method is proved equal to a transition function over a `Snapshot` of those fields. The growth maps are functions. |
| `FftUtils` | `Javascript/src/core/FftUtils.js` | Tensor and axis validation, the swap permutation, the transpose round trip and the per-axis loop. The 1-D transform is a parameter. |
| `Validation` | `Javascript/src/components/validation.js` | Input sanitising, decimal places, and clamp-and-snap of numeric input. |
| `ParamChange` | `src/components/handleParamChange.js` | The functional nested-record updater over a model of JavaScript values. |
| `Topbar` | `Javascript/src/components/Topbar.jsx` | The sidebar cycle and the layout toggle. |
| `Mesh` | `mesh.py` | Cube vertices and faces, the inverse permutation, vertex merging, shared-face removal and triangle fans. |
| `Cluster` | `Python/cluster.py` | Joining per-cluster meshes with vertex offsets. |

Some modules are support only:
- `Wrappers` holds `Option` and `Result`.
- `SeqUtil` holds sequence helpers: filter, split, subsequence and repeat.
- `Arith` holds integer lemmas, including JavaScript's truncating `%`.
- `Values` holds the JavaScript `Number` (finite, NaN or signed infinity), `FromExact` (the overflow of an exact value to Infinity), the division on it and the object spread `{...a, ...b}`.

Modelling conventions:

- **Numbers.** Numbers are Dafny `real`, which is exact: finite values are
  not rounded. A `Number` is finite, NaN or a signed Infinity. NaN and
  Infinity arise where the source can produce them: a zero divisor, a
  failed parse, a parse too large for a double (from `Values.Overflow`,
  2^1024 − 2^970, on), and non-finite growth parameters `m`, `s` and `T`.
- **Exceptions.** A JavaScript exception is an `Err` result or a `Threw`
  outcome. The engine models where a throw happens inside a method, so it
  also models which fields were already assigned when it happened.
- **Doubled mesh coordinates.** The mesh modules work in doubled
  coordinates, which keeps cube corners (half-cell offsets) integral. The
  source itself uses `2 * vertices` as sparse indices.
- **Engine environment.** What the engine cannot compute itself is passed
  in through `LeniaEngine.Env`:
  - `catalogue`: the pattern catalogue;
  - `unit(seed, t)`: the random stream;
  - `shrink`: what `tf.pad` does with negative padding;
  - `roundTenth`: `Number(x.toFixed(1))`.
- **Step.** `step` receives the potential `U` that the FFT convolution would
  produce. The kernel is recorded as the shape and parameters it was
  generated from.

Where the code's behaviour departs from what its comments or names suggest,
the model follows the code:
- `getDecimalPlaces("0.01")` is 4, not the 2 its doc comment states.
- The `stepz` growth yields 0 and −1, never +1.
- The staircase core's second term, `logicalAnd(r < q, 0.5)`, is a boolean mask, so the core is 1 below q, not 0.5.
- An odd axis puts the kernel centre at index n−1 after the `mid` roll, not at 0.
- A level-3 delimiter makes the decoder throw.
- `setShape` and `loadRandom` bind fresh variables, but a throw in their `generateKernel` leaves the old kernel variable in place. Its shape then differs from the new shape, so every later `setParams` throws at `kernel.assign`.
- `loadAnimal` sets `name` to `undefined`, because the selected pattern has no `name` field.
- `reset` with id 0 draws a random grid.

## Model

| member | source | states |
|---|---|---|
| PatternCodec.DelimLevel | Javascript/src/utils/load.js:3 | A token is a delimiter exactly when it is in the table; its level is its position there. |
| PatternCodec.Ch2Val | Javascript/src/utils/load.js:83-88 | A single letter `A`..`Y` maps to 1..25, and a well-formed two-letter token to 25..264. |
| PatternCodec.Ch2ValSingle | Javascript/src/utils/load.js:83-88 | `.`/`b` map to 0 and `o` to 255. Every other single character c maps to code(c) − code('A') + 1, with no rejection, so `A`..`Y` give 1..25. |
| PatternCodec.ExtendedTokensIncreasing | Javascript/src/utils/load.js:83-88 | Two-letter tokens p..y × A..X map into 25..264, strictly increasing in lexicographic order. |
| PatternCodec.ExtendedToken | Javascript/src/utils/load.js:83-88 | Every value 25..264 has a well-formed two-letter token. |
| PatternCodec.ExtendedTokensOnto | Javascript/src/utils/load.js:83-88 | The two-letter map hits every value in 25..264, that token decodes to it, and it is the only token that does. |
| PatternCodec.AppendStack | Javascript/src/utils/load.js:73-81 | `_append_stack`: the item is appended once, then the repeated entry count − 1 times, where an empty or zero count appends once. |
| PatternCodec.AppendedValueCopies | Javascript/src/utils/load.js:73-81 | A value token appends max(count, 1) copies of its value: never zero copies. |
| PatternCodec.StepWellFormed | Javascript/src/utils/load.js:44-63 | One parser step keeps the stack state well formed. |
| PatternCodec.Scan | Javascript/src/utils/load.js:44-63 | A successful scan ends in a well-formed state. |
| PatternCodec.ScanErrStays | Javascript/src/utils/load.js:44-63 | Once a prefix fails, the whole input fails with the same error. |
| PatternCodec.ScanSnoc | Javascript/src/utils/load.js:44-63 | Scanning one more character is one more step on the state scanned so far. |
| PatternCodec.ScanChars | Javascript/src/utils/load.js:44-63 | The character loop of `rle2arr` computes `Scan` of its input. |
| PatternCodec.Prepare | Javascript/src/utils/load.js:43 | One trailing `!` is removed and `%` is appended; nothing else changes. |
| PatternCodec.LastRunFlushed | Javascript/src/utils/load.js:43 | The appended `%` flushes the last run. After a complete token, the run and row stacks end empty. |
| PatternCodec.ValueToken | Javascript/src/utils/load.js:51-52 | A value token appends its value/255 max(count, 1) times to the run, then resets the count and the prefix. |
| PatternCodec.FullCell | Javascript/src/utils/load.js:51-52 | `o` appends the value 1. |
| PatternCodec.FlushDelimiter | Javascript/src/utils/load.js:53-58 | A level-k delimiter flushes levels 0..k−1 in turn. From level 2 upwards it reaches the missing `stacks[3]` and fails. |
| PatternCodec.RowDelimiter | Javascript/src/utils/load.js:53-58 | `$` pushes the run onto the rows, then count − 1 empty rows, and clears the run. |
| PatternCodec.PlaneDelimiter | Javascript/src/utils/load.js:53-58 | `%` flushes level 0, then level 1, each followed by count − 1 empty lists. |
| PatternCodec.DeepDelimiterFails | Javascript/src/utils/load.js:54-57 | `#` and `@A`..`@F` make decoding fail. |
| PatternCodec.MaxLens | Javascript/src/utils/load.js:90-97 | One maximum per depth: the plane count, an upper bound on every plane's row count that some plane attains when any row exists, and an upper bound on every row's length. |
| PatternCodec.MaxLen | Javascript/src/utils/load.js:90-97 | The length of the longest list, which is an upper bound and is attained; 0 for none. |
| PatternCodec.MaxRowLen | Javascript/src/utils/load.js:90-97 | The longest row over all planes is an upper bound and is attained. |
| PatternCodec.GetMaxLens | Javascript/src/utils/load.js:90-97 | The loops compute the maximum length at each depth. |
| PatternCodec.CubifiedPlane | Javascript/src/utils/load.js:101-107 | A plane is padded to the row count and never truncated. |
| PatternCodec.Cubified | Javascript/src/utils/load.js:99-113 | The outer list is padded to the plane count and never truncated. |
| PatternCodec.CubifyRow | Javascript/src/utils/load.js:108-111 | The in-place padding loop of a row computes `CubifiedRow`. |
| PatternCodec.CubifyPlane | Javascript/src/utils/load.js:101-107 | The in-place padding loop of a plane computes `CubifiedPlane`. |
| PatternCodec.Cubify | Javascript/src/utils/load.js:99-113 | `_recur_cubify` computes `Cubified`. |
| PatternCodec.CubifiedShape | Javascript/src/utils/load.js:99-113 | Afterwards every list at a depth has that depth's maximum length. Existing entries stay where they were, and every added cell is 0. |
| PatternCodec.CubifiedIdempotent | Javascript/src/utils/load.js:99-113 | Rectangularising a rectangularised array changes nothing. |
| PatternCodec.Decode | Javascript/src/utils/load.js:35-72 | A successful decode is a box: every plane has the maximum row count and every row the maximum length. |
| PatternCodec.DecodePrefixOnly | Javascript/src/utils/load.js:43-71 | "p" leaves a prefix pending, so the appended `%` is read as the value token "p%" and the pattern decodes to no planes. |
| PatternCodec.Rle2Arr | Javascript/src/utils/load.js:35-72 | `rle2arr` computes `Decode`, and a decoded pattern is a box. |
| PatternCodec.ExampleScan | Javascript/src/utils/load.js:44-63 | `2o$o!` scans to the single plane [[1, 1], [1]]. |
| PatternCodec.ExampleRun | Javascript/src/utils/load.js:44-63 | `2o` leaves the run [1, 1] with no rows or planes. |
| PatternCodec.ExampleRowBreak | Javascript/src/utils/load.js:44-63 | `2o$` moves that run into the rows. |
| PatternCodec.ExampleRows | Javascript/src/utils/load.js:44-63 | `2o$o` starts a new run [1] after the row [1, 1]. |
| PatternCodec.ExampleLastDelimiter | Javascript/src/utils/load.js:53-58 | The final `%` flushes run and rows into the plane [[1, 1], [1]]. |
| PatternCodec.ExampleCubify | Javascript/src/utils/load.js:99-113 | [[[1, 1], [1]]] is padded to [[[1, 1], [1, 0]]]. |
| PatternCodec.DecodeExample | Javascript/src/utils/load.js:35-72 | `2o$o!` decodes to [[[1, 1], [1, 0]]]. |
| PatternCodec.ParseIntDigits | Javascript/src/utils/load.js:124 | `parseInt` of a digit string is its decimal value, or Infinity from the double overflow bound on. |
| PatternCodec.ParseInt | Javascript/src/utils/load.js:124 | `parseInt` is NaN exactly when no digit follows the leading whitespace and optional sign. A finite result is an integer below the overflow bound in magnitude; an infinite one has a magnitude at or above the bound and the sign of the text. |
| PatternCodec.FieldValue | Javascript/src/utils/load.js:120-130 | A field without a slash is its `parseInt`, an integer when finite. A field with a slash splits into at least two parts, and a NaN side makes the value NaN. |
| PatternCodec.Fractions | Javascript/src/utils/load.js:114-134 | One number per comma field. |
| PatternCodec.St2Fracs | Javascript/src/utils/load.js:114-134 | The push loop of `st2fracs` computes `Fractions`. |
| PatternCodec.FractionField | Javascript/src/utils/load.js:122-127 | A field "a/b" with digits a, b and b ≠ 0 is the exact quotient a/b. |
| PatternCodec.SlashField | Javascript/src/utils/load.js:122-127 | A field with one slash is the `Number` division of the two integer parses. |
| PatternCodec.FractionsExample | Javascript/src/utils/load.js:114-134 | "1/2,3" gives [0.5, 3]. |
| PatternCodec.ExampleFields | Javascript/src/utils/load.js:114-115 | "1/2,3" splits into the fields "1/2" and "3". |
| PatternCodec.ExampleHalf | Javascript/src/utils/load.js:122-127 | The field "1/2" is 0.5. |
| PatternCodec.ExampleThree | Javascript/src/utils/load.js:128-130 | A field without a slash is its `parseInt`: "3" is 3. |
| PatternCodec.HeaderNamesFromHeaders | Javascript/src/utils/load.js:22-32 | Every collected name is the name, first word dropped, of a header entry (3 keys) at or before the id. |
| PatternCodec.HeaderNamesStep | Javascript/src/utils/load.js:22-32 | One backwards step of the `SelectType` loop preserves the loop invariant. |
| PatternCodec.TypeName | Javascript/src/utils/load.js:18-34 | With no collected names the type name is empty. Otherwise it starts with the last collected name, the one nearest the catalogue start, since the list is reversed before joining. |
| PatternCodec.SelectType | Javascript/src/utils/load.js:18-34 | The `while (i >= 0)` loop computes `TypeName`. |
| PatternCodec.SelectAnimalID | Javascript/src/utils/load.js:6-17 | Returns nothing exactly when the id is outside [0, len) or the entry has fewer than 4 keys. Otherwise the id is its own and the tensor is the decoded pattern. |
| PatternCodec.Selected | Javascript/src/utils/load.js:6-17 | No result exactly when the id is outside the catalogue or the entry has fewer than 4 keys. A selection carries the id, the decoded box, the `SelectType` name and the parameters with `b` replaced by its `st2fracs` numbers. An error means the id passed both guards and either the cells failed to decode or `b` is not text. |
| GridUtils.EffectiveShift | Javascript/src/core/GridUtils.js:16 | The effective shift lies in [0, n) for every integer shift, negative ones included. |
| GridUtils.EffectiveShiftIsMod | Javascript/src/core/GridUtils.js:16 | With JavaScript's truncating `%`, ((s % n) + n) % n equals the mathematical s mod n. |
| GridUtils.EffectiveShiftNeg | Javascript/src/core/GridUtils.js:16 | The shift −s is the complement n − e of e, or 0. |
| GridUtils.RollSeq | Javascript/src/core/GridUtils.js:18-20 | Split and swap: the length is kept and r[i] = s[i − e mod n]. |
| GridUtils.BackIsMod | Javascript/src/core/GridUtils.js:18-20 | The source index of a rolled entry is (i − e) mod n. |
| GridUtils.RollSeqForward | Javascript/src/core/GridUtils.js:18-20 | out[(i + e) mod n] = in[i]. |
| GridUtils.RollSeqInverse | Javascript/src/core/GridUtils.js:18-20 | Rolling by e and then by n − e restores the sequence. |
| GridUtils.RollCells | Javascript/src/core/GridUtils.js:18-20 | Rolling one axis of a grid keeps its shape and moves entries along that axis only. |
| GridUtils.RollAxis | Javascript/src/core/GridUtils.js:14-20 | One axis's roll succeeds exactly for an axis in [0, 3) of nonzero size, and rotates that axis by the effective shift. |
| GridUtils.RollAll | Javascript/src/core/GridUtils.js:13-21 | The `forEach` over axes keeps the shape. |
| GridUtils.RollAllErrStays | Javascript/src/core/GridUtils.js:13-21 | A failing axis fails the whole roll. |
| GridUtils.RollAllSnoc | Javascript/src/core/GridUtils.js:13-21 | The axes are applied in the order listed. |
| GridUtils.Roll | Javascript/src/core/GridUtils.js:10-24 | The loop reassigning `result` computes `RollAll`. |
| GridUtils.RollAxesCommute | Javascript/src/core/GridUtils.js:13-21 | Rolls on different axes commute. |
| GridUtils.RollCellsCommute | Javascript/src/core/GridUtils.js:13-21 | Cell-level rotations on different axes commute. |
| GridUtils.RollAxisInverse | Javascript/src/core/GridUtils.js:13-21 | Rolling by s and then by −s restores the grid. |
| GridUtils.RollCellsInverse | Javascript/src/core/GridUtils.js:13-21 | Rotating an axis by e and then by n − e restores the grid. |
| GridUtils.RollAxisFullTurn | Javascript/src/core/GridUtils.js:13-21 | A shift ≡ 0 (mod n) leaves the grid unchanged. |
| GridUtils.RollAllThree | Javascript/src/core/GridUtils.js:10-24 | Rolling axes [0, 1, 2] moves every cell by the three effective shifts at once. |
| GridUtils.RollAllThreeOk | Javascript/src/core/GridUtils.js:10-24 | That roll succeeds exactly when no axis is empty. |
| GridUtils.AxisPadding | Javascript/src/core/GridUtils.js:43-45 | before + after = δ and after − before ∈ {0, 1}: odd growth adds the extra cell at the high end, odd shrink takes it from the low end. |
| GridUtils.ResizePadding | Javascript/src/core/GridUtils.js:43-45 | Every padded axis has exactly the target size. |
| GridUtils.PadSeq | Javascript/src/core/GridUtils.js:46 | Padding puts the data at offset b and the fill elsewhere. |
| GridUtils.PadGrid | Javascript/src/core/GridUtils.js:46 | The padded grid has the target shape. |
| GridUtils.PadGridCell | Javascript/src/core/GridUtils.js:46 | Each padded cell is the original cell shifted by the `before` amounts, or 0 outside it. |
| GridUtils.PadGridCells | Javascript/src/core/GridUtils.js:46 | For δ ≥ 0 the data sits unchanged at offset ⌊δ/2⌋ and every added cell is 0. |
| GridUtils.ComplexGrid | Javascript/src/core/GridUtils.js:37 | `tf.complex` pairs the two parts cell by cell. |
| GridUtils.PaddedPartsAgree | Javascript/src/core/GridUtils.js:33-41 | Padding the real and imaginary parts and recombining them equals padding the complex grid. |
| GridUtils.Resize | Javascript/src/core/GridUtils.js:32-47 | `resize` keeps a real tensor real and a complex one complex, and the result has exactly the requested size on each axis. |
| GridUtils.ResizeComplex | Javascript/src/core/GridUtils.js:32-47 | Resizing a complex tensor equals padding it with complex zero. |
| GridUtils.SamePadding | Javascript/src/core/GridUtils.js:33-41 | Both parts get the same padding. |
| GridUtils.RepeatSeq | Javascript/src/core/GridUtils.js:56-66 | Repeating each element z times multiplies the length by z. |
| GridUtils.RepeatSeqIndex | Javascript/src/core/GridUtils.js:56-66 | out[i] = in[i div z]. |
| GridUtils.RepeatSeqLengths | Javascript/src/core/GridUtils.js:56-66 | Repetition keeps the lengths of inner lists. |
| GridUtils.RepeatPlanes | Javascript/src/core/GridUtils.js:56-66 | Repeating along axis 1 multiplies that axis's length only. |
| GridUtils.RepeatAxis | Javascript/src/core/GridUtils.js:56-66 | `repeatAlongAxis` multiplies the length of the chosen axis by z and keeps the others. |
| GridUtils.Repeat0From | Javascript/src/core/GridUtils.js:56-66 | Along axis 0, out[i][j][k] = in[i div z][j][k]. |
| GridUtils.Repeat1From | Javascript/src/core/GridUtils.js:56-66 | Along axis 1, out[i][j][k] = in[i][j div z][k]. |
| GridUtils.Repeat2From | Javascript/src/core/GridUtils.js:56-66 | Along axis 2, out[i][j][k] = in[i][j][k div z]. |
| GridUtils.ZoomedAxes | Javascript/src/core/GridUtils.js:74-82 | After i axes, each of those axes is z times longer. |
| GridUtils.Zoom | Javascript/src/core/GridUtils.js:74-82 | The loop reassigning `currentTensor` computes `ZoomedAxes` over all three axes. |
| GridUtils.RepeatedThrice | Javascript/src/core/GridUtils.js:74-82 | Three single-axis repetitions compose into the zoom. |
| GridUtils.ZoomCells | Javascript/src/core/GridUtils.js:74-82 | Zooming by z multiplies every axis by z, with out[i][j][k] = in[i div z][j div z][k div z]. |
| GridUtils.ZoomByZero | Javascript/src/core/GridUtils.js:74-82 | Zooming by 0 empties the grid. |
| KernelGen.Range | Javascript/src/core/KernelGen.js:85 | `tf.range(start, stop)` holds stop − start consecutive integers. |
| KernelGen.AxisCoords | Javascript/src/core/KernelGen.js:83-85 | An axis of size n holds −⌊n/2⌋ … ⌈n/2⌉ − 1: n values, index j holding j − ⌊n/2⌋, with 0 at ⌊n/2⌋. |
| KernelGen.CoordGrid | Javascript/src/core/KernelGen.js:88-93 | Each coordinate grid has the full shape and varies only along its own axis. |
| KernelGen.CreateCoordinateGrids | Javascript/src/core/KernelGen.js:77-96 | The loop pushes the three coordinate grids in axis order. |
| KernelGen.AddGrid | Javascript/src/core/KernelGen.js:108 | `D.add` adds cell by cell. |
| KernelGen.AddSquareStep | Javascript/src/core/KernelGen.js:107-109 | Each pass of the per-axis loop adds the square of that axis's coordinate. |
| KernelGen.PartialSquaresStep | Javascript/src/core/KernelGen.js:107-109 | The partial sum grows by one square per axis. |
| KernelGen.PartialSquaresAll | Javascript/src/core/KernelGen.js:107-109 | After three axes the partial sum is the full squared distance. |
| KernelGen.SquaredDistance | Javascript/src/core/KernelGen.js:103-111 | Every cell holds its squared distance from the centre cell. |
| KernelGen.ShellIndex | Javascript/src/core/KernelGen.js:121-126 | For r ≥ 0 and B ≥ 1, min(⌊rB⌋, B − 1) is a valid index into b, and equals ⌊rB⌋ when that is in range. |
| KernelGen.Fraction | Javascript/src/core/KernelGen.js:127 | rB mod 1 lies in [0, 1). |
| KernelGen.SelectCore | Javascript/src/core/KernelGen.js:146 | `kernel_core[kn − 1]` exists exactly for kn ∈ {1, 2, 3, 4}; any other kn selects nothing. |
| KernelGen.StepCoreValue | Javascript/src/core/KernelGen.js:44-49 | The step core is 1 exactly on [1/4, 3/4] and 0 elsewhere. |
| KernelGen.StaircaseCore | Javascript/src/core/KernelGen.js:57-65 | The staircase is 1 below q, because the boolean mask counts as 1; it is 1 on [q, 1 − q] and 0 above. |
| KernelGen.PolynomialCoreBounds | Javascript/src/core/KernelGen.js:14-22 | (4r(1 − r))⁴ lies in [0, 1] on [0, 1]. It is 1 at 1/2 and 0 at 0 and 1. |
| KernelGen.ShellValue | Javascript/src/core/KernelGen.js:119-131 | The shell weight is 0 wherever r ≥ 1. |
| KernelGen.KernelShell | Javascript/src/core/KernelGen.js:119-131 | The shell succeeds exactly when a core was selected and every index is valid. Each cell is core(fraction)·b[index] below r = 1 and 0 from there. |
| KernelGen.ShellIndicesValidWhenNonNegative | Javascript/src/core/KernelGen.js:119-131 | A non-negative distance field and a nonempty b always give valid indices. |
| KernelGen.Scaled | Javascript/src/core/KernelGen.js:152 | Dividing by t divides every entry. |
| KernelGen.SumScaled | Javascript/src/core/KernelGen.js:152 | The sum of the quotients is the sum divided by t. |
| KernelGen.RowSums | Javascript/src/core/KernelGen.js:152 | A row's sum is the sum of its entries. |
| KernelGen.GridSumScaled | Javascript/src/core/KernelGen.js:152 | A grid divided cell by cell by t sums to its sum divided by t. |
| KernelGen.Normalise | Javascript/src/core/KernelGen.js:152 | There is no zero-sum guard: a zero sum makes every cell non-finite. |
| KernelGen.FiniteValues | Javascript/src/core/KernelGen.js:152 | The finite parts of a normalised grid, 0 elsewhere. |
| KernelGen.NormaliseSumsToOne | Javascript/src/core/KernelGen.js:152 | With a nonzero sum, each cell is its share of the sum and the kernel sums to 1. |
| KernelGen.NormaliseCell | Javascript/src/core/KernelGen.js:152 | With a nonzero sum, each normalised cell is the cell divided by the sum. |
| KernelGen.CentreLands | Javascript/src/core/KernelGen.js:153-154 | Rolling by ⌊n/2⌋ moves index ⌊n/2⌋ to 0 for even n and to n − 1 for odd n. |
| KernelGen.RollingByMidMovesCentre | Javascript/src/core/KernelGen.js:153-154 | The roll by `mid` along [0, 1, 2] moves the centre cell to those indices on every axis. |
| KernelGen.GenerateKernel | Javascript/src/core/KernelGen.js:145-158 | `generateKernel` completes exactly when kn selects a core, every shell index is valid and no axis is empty. |
| KernelGen.GenerateKernelCentre | Javascript/src/core/KernelGen.js:145-158 | The generated kernel holds the normalised centre weight at the rolled position. |
| LeniaEngine.QuadBaseBounds | Javascript/src/core/LeniaEngine.js:7-9 | max(0, 1 − (U − m)²/(9s²)) lies in [0, 1], is 1 at U = m and is 0 once (U − m)² ≥ 9s². |
| LeniaEngine.PolynomialQuadRange | Javascript/src/core/LeniaEngine.js:7-9 | `polynomialQuad` lies in [−1, 1]. It is 1 at U = m and −1 once (U − m)² ≥ 9s². |
| LeniaEngine.Stepz | Javascript/src/core/LeniaEngine.js:15-17 | `stepz` is 0 exactly when \|U − m\| ≤ s and −1 exactly otherwise. It is never +1. |
| LeniaEngine.QuadValue | Javascript/src/core/LeniaEngine.js:7-9 | `polynomialQuad` on the JavaScript numbers m and s: NaN exactly when m or s is NaN, both are infinite, or s is 0 at U = m. A finite result lies in [−1, 1]; an infinite m with a finite s gives −1, a finite m with an infinite s gives 1, and finite m with nonzero s gives the exact polynomial. |
| LeniaEngine.StepzValue | Javascript/src/core/LeniaEngine.js:15-17 | `stepz` on JavaScript numbers is always 0 or −1: −1 for a NaN or negative-infinite s or an infinite m with finite s, 0 for s = +Infinity with m not NaN, and the exact `Stepz` for finite m and s. |
| LeniaEngine.GrowthValue | Javascript/src/core/LeniaEngine.js:96-97 | The growth selected by gn, applied to one cell: a finite value lies in [−1, 1], and `stepz` is always finite. |
| LeniaEngine.SelectGrowth | Javascript/src/core/LeniaEngine.js:19 | A growth function exists exactly for gn ∈ {1, 2, 3}. |
| LeniaEngine.Dt | Javascript/src/core/LeniaEngine.js:98 | `1 / T` as a JavaScript division: dt is that quotient, and an infinite T gives 0. |
| LeniaEngine.StepCell | Javascript/src/core/LeniaEngine.js:99 | One cell of `grid.add(field.mul(dt)).clipByValue(0, 1)` lies in [0, 1] and equals x + f·dt whenever that already lies in [0, 1]. |
| LeniaEngine.Clamp | Javascript/src/core/LeniaEngine.js:99 | `clipByValue(0, 1)` lands in [0, 1] and keeps values already inside. |
| LeniaEngine.KernelBuildsIsGeneration | Javascript/src/core/KernelGen.js:103-131 | For a positive radius, the engine's condition for `generateKernel` not throwing holds exactly when the kernel generation over the distance grid succeeds. |
| LeniaEngine.NegativeDistanceThrows | Javascript/src/core/KernelGen.js:119-131 | A negative distance, which a negative R produces off the centre, makes the shell index negative and kernel generation fail. |
| LeniaEngine.Dims | Javascript/src/core/LeniaEngine.js:58 | The shape `assign` compares: the three axis lengths of the held grid, in order. |
| LeniaEngine.GenShape | Javascript/src/core/LeniaEngine.js:25 | ⌊0.8·n⌋ per axis, between 0 and n. |
| LeniaEngine.Zeros | Javascript/src/core/LeniaEngine.js:28 | `tf.zeros(shape)` has that shape and holds only 0. |
| LeniaEngine.Fit | Javascript/src/core/LeniaEngine.js:39 | `resize` yields the requested shape. |
| LeniaEngine.ToGrid | Javascript/src/core/LeniaEngine.js:58-61 | A decoded pattern becomes a grid with the same cells. |
| LeniaEngine.RandomGrid | Javascript/src/core/GridUtils.js:157-163 | The random fill has the requested shape. |
| LeniaEngine.Start | Javascript/src/core/LeniaEngine.js:22-35 | The state a new engine starts in is well formed. |
| LeniaEngine.StartFields | Javascript/src/core/LeniaEngine.js:22-35 | A new engine copies params and shape, has a zero grid, generation 0, time 0 and `isRunning` false, and holds the kernel of its shape and params. |
| LeniaEngine.Engine.constructor | Javascript/src/core/LeniaEngine.js:22-35 | The constructed fields are `Start(params, shape)`. |
| LeniaEngine.AfterSetShape | Javascript/src/core/LeniaEngine.js:36-43 | `setShape` keeps the state well formed. |
| LeniaEngine.SetShapeEffects | Javascript/src/core/LeniaEngine.js:36-43 | The shape and the resized grid are assigned even when the kernel then throws. A grid growing on every axis keeps its data centred with zeros around it. Params and counters are untouched. |
| LeniaEngine.Engine.SetShape | Javascript/src/core/LeniaEngine.js:36-43 | The method's new fields and outcome are `AfterSetShape` of the old fields. |
| LeniaEngine.AfterSetParams | Javascript/src/core/LeniaEngine.js:46-51 | `setParams` keeps the state well formed: params are merged first, then `generateKernel` may throw, then `kernel.assign` throws on a shape mismatch. |
| LeniaEngine.SetParamsMerges | Javascript/src/core/LeniaEngine.js:46-51 | Keys of the argument overwrite and the other keys keep their values, even when a throw follows. Shape, grid, generation and time are untouched. The call completes exactly when the merged params build a kernel and the held kernel already has the current shape, and only then is `onParamChange` raised and the kernel regenerated. |
| LeniaEngine.FailedSetShapeBlocksSetParams | Javascript/src/core/LeniaEngine.js:36-51 | When `setShape` to a new shape throws in `generateKernel`, the kernel keeps its old shape, so a later `setParams` throws at `kernel.assign` whatever its arguments. |
| LeniaEngine.Engine.SetParams | Javascript/src/core/LeniaEngine.js:46-51 | The method's new fields and outcome are `AfterSetParams` of the old fields. |
| Values.Merge | Javascript/src/core/LeniaEngine.js:47 | `{...a, ...b}`: the argument's keys overwrite and the others stay. |
| Values.Divide | Javascript/src/utils/load.js:126 | JavaScript `/`: the exact quotient for a finite nonzero divisor. x/0 is NaN for x = 0 and otherwise Infinity with the sign of x. NaN on either side, or Infinity over Infinity, gives NaN. Finite over Infinity gives 0, and Infinity over a finite number keeps Infinity with the product of the signs. |
| Values.FromExact | Javascript/src/utils/load.js:124 | An exact value becomes a double: Infinity exactly when its magnitude reaches 2^1024 − 2^970, with the value's sign, and otherwise the value itself; never NaN. |
| LeniaEngine.Restarted | Javascript/src/core/LeniaEngine.js:59-61 | Generation 0, time 0, and `onStep` raised exactly when not running. |
| LeniaEngine.Engine.Restart | Javascript/src/core/LeniaEngine.js:59-61 | The method's new fields are `Restarted` of the old fields. |
| LeniaEngine.AfterPattern | Javascript/src/core/LeniaEngine.js:54-62 | Loading a selected pattern keeps the state well formed. |
| LeniaEngine.Engine.LoadPattern | Javascript/src/core/LeniaEngine.js:54-62 | The method's new fields and outcome are `AfterPattern` of the old fields. |
| LeniaEngine.Placed | Javascript/src/core/LeniaEngine.js:58-61 | `grid.assign` of the resized pattern throws and changes nothing when the pattern tensor has rank below 3 (no planes, or planes without rows) or the held grid's shape differs from the engine's shape; otherwise it keeps the state well formed and restarts the counters. |
| LeniaEngine.PrefixOnlyPatternThrows | Javascript/src/core/LeniaEngine.js:58 | The pattern "p" decodes to no planes, and placing it throws with the state unchanged. |
| LeniaEngine.Engine.Place | Javascript/src/core/LeniaEngine.js:58-61 | The method's new fields and outcome are `Placed` of the old fields. |
| LeniaEngine.AfterLoadAnimal | Javascript/src/core/LeniaEngine.js:52-62 | `loadAnimal` keeps the state well formed. |
| LeniaEngine.LoadAnimalEffects | Javascript/src/core/LeniaEngine.js:52-62 | An id the catalogue does not select throws and changes nothing. The load completes exactly when a pattern is selected, the merged params build a kernel, the kernel has the engine's shape, the decoded pattern has rank 3 and the grid has the engine's shape. A completed load sets the id, clears seed and name, zeroes the counters, merges (not replaces) the pattern's params, raises `onStep` exactly when not running, and places the resized pattern. |
| LeniaEngine.Engine.LoadAnimal | Javascript/src/core/LeniaEngine.js:52-62 | The method's new fields and outcome are `AfterLoadAnimal` of the old fields. |
| LeniaEngine.WithRandomArgs | Javascript/src/core/LeniaEngine.js:65-73 | After the arguments are recorded a seed is always present. |
| LeniaEngine.Engine.RecordRandomArgs | Javascript/src/core/LeniaEngine.js:65-73 | The method's new fields are `WithRandomArgs` of the old fields. |
| LeniaEngine.RandomStarted | Javascript/src/core/LeniaEngine.js:76-82 | The kernel is regenerated for the new shape, and id and name are cleared. |
| LeniaEngine.Engine.StartRandom | Javascript/src/core/LeniaEngine.js:76-82 | The method's new fields are `RandomStarted` of the old fields. |
| LeniaEngine.AfterLoadRandom | Javascript/src/core/LeniaEngine.js:64-83 | `loadRandom` keeps the state well formed. |
| LeniaEngine.LoadRandomEffects | Javascript/src/core/LeniaEngine.js:64-83 | A seed is drawn only when none is kept. Shape, bounds, min, max and density are recorded. A completed call clears id and name, zeroes the counters and draws the grid from the seed it now holds. |
| LeniaEngine.Engine.LoadRandomWith | Javascript/src/core/LeniaEngine.js:64-83 | The method's new fields and outcome are `AfterLoadRandom` of the old fields, with any argument possibly undefined. |
| LeniaEngine.Engine.LoadRandom | Javascript/src/core/LeniaEngine.js:64-83 | The same, with every argument given. |
| LeniaEngine.AfterReset | Javascript/src/core/LeniaEngine.js:84-87 | `reset` keeps the state well formed. |
| LeniaEngine.ResetIdZeroIsRandom | Javascript/src/core/LeniaEngine.js:84-87 | Id 0 is falsy, so `reset` takes the random branch with the recorded arguments, drawing a fresh seed when none is kept, exactly as with no id. |
| LeniaEngine.ResetAfterAnimalZeroDrawsSeed | Javascript/src/core/LeniaEngine.js:52-87 | After a completed `loadAnimal(0)` the seed is cleared, so the following `reset` always runs `loadRandom` with a freshly drawn seed. |
| LeniaEngine.Engine.Reset | Javascript/src/core/LeniaEngine.js:84-87 | The method's new fields and outcome are `AfterReset` of the old fields. |
| LeniaEngine.StepGrid | Javascript/src/core/LeniaEngine.js:96-99 | The grid keeps its shape and each cell becomes clamp(old + g(U, m, s)·dt), in [0, 1]. |
| LeniaEngine.AfterStep | Javascript/src/core/LeniaEngine.js:89-104 | `step` keeps the state well formed. It throws in `tf.mul` when kernel and grid do not broadcast, in the growth call when gn selects no runnable growth, and in `grid.assign` when the broadcast result's shape is not the grid's. |
| LeniaEngine.StepEffects | Javascript/src/core/LeniaEngine.js:89-104 | A step completes exactly when the growth runs and the kernel's shape fits the grid's; a throwing step changes nothing. A completed step increases the generation by exactly 1, sets time to `roundTenth(time + 1/T)`, keeps params, shape and kernel, and leaves every cell in [0, 1], equal to x + g·dt whenever that lies in [0, 1]. |
| LeniaEngine.Engine.Step | Javascript/src/core/LeniaEngine.js:89-104 | The method's new fields and outcome are `AfterStep` of the old fields. |
| FftUtils.ValidateTensor | Javascript/src/core/FftUtils.js:9-13 | Accepts exactly tensors and returns them unchanged. |
| FftUtils.ValidateAxis | Javascript/src/core/FftUtils.js:22-28 | Accepts exactly the integers in [0, rank) and throws on anything else. |
| FftUtils.AxisIndexValid | Javascript/src/core/FftUtils.js:22-28 | Every index below the rank is accepted as itself. |
| FftUtils.SwapPerm | Javascript/src/core/FftUtils.js:59-60 | The permutation has one entry per axis. |
| FftUtils.SwapPermProperties | Javascript/src/core/FftUtils.js:59-60 | It is a permutation and its own inverse. It swaps `axis` with rank − 1 and fixes every other axis. |
| FftUtils.BuildPerm | Javascript/src/core/FftUtils.js:59-60 | Building the identity and swapping two entries in place gives `SwapPerm`. |
| FftUtils.Permute | Javascript/src/core/FftUtils.js:38-44 | Entry i of the permuted shape is entry p[i] of the shape. |
| FftUtils.PermuteTwice | Javascript/src/core/FftUtils.js:38-44 | Permuting twice by an involution restores the sequence. |
| FftUtils.Transpose | Javascript/src/core/FftUtils.js:38-44 | The transpose keeps the rank. |
| FftUtils.TransposeIsTransposition | Javascript/src/core/FftUtils.js:38-44 | The shape is permuted, and each entry is read at the permuted index. |
| FftUtils.TransposeTwice | Javascript/src/core/FftUtils.js:62-65 | The second transpose restores the original shape and every entry. |
| FftUtils.AlongAxis | Javascript/src/core/FftUtils.js:53-67 | The transform along an axis keeps the shape. |
| FftUtils.OnAxis | Javascript/src/core/FftUtils.js:53-67 | `fftOnAxis` succeeds exactly for a tensor and a valid axis, and keeps the shape. |
| FftUtils.AxisOrder | Javascript/src/core/FftUtils.js:84-86 | One axis per rank. |
| FftUtils.AxisOrderVisitsEachOnce | Javascript/src/core/FftUtils.js:84-86 | Axes 0..rank − 1 are visited in increasing order, each exactly once. |
| FftUtils.AlongAxes | Javascript/src/core/FftUtils.js:84-86 | Transforming along any sequence of valid axes keeps the shape. |
| FftUtils.AllAxes | Javascript/src/core/FftUtils.js:75-89 | `fftn` throws on a non-tensor and on rank 0; otherwise it keeps the shape. |
| FftUtils.TransformAll | Javascript/src/core/FftUtils.js:75-89 | The loop reassigning `out` computes `AllAxes`. |
| Validation.Prefix | Javascript/src/components/validation.js:40-45 | `slice(0, n)` keeps the first min(n, length) characters. |
| Validation.ValidateData | Javascript/src/components/validation.js:10-48 | The step-by-step rewrite computes `Sanitised` for `int` and `float`, and throws for any other type. |
| Validation.FloatKept | Javascript/src/components/validation.js:26-27 | The float filter keeps digits and dots. The first kept dot follows exactly the digits before the original first dot. |
| Validation.SanitisedChars | Javascript/src/components/validation.js:10-48 | `int` gives only digits and `float` only digits and at most one dot. |
| Validation.SanitisedKeepsOrder | Javascript/src/components/validation.js:10-48 | The result is a subsequence of the input: kept characters stay in order. |
| Validation.SanitisedAtDot | Javascript/src/components/validation.js:30-37 | In float mode only the first dot survives, and the decimal part is cut to `slice` characters. |
| Validation.SanitisedDotForm | Javascript/src/components/validation.js:30-37 | An already clean "a.f" only has its decimal part cut. |
| Validation.SanitisedIdempotent | Javascript/src/components/validation.js:10-48 | Sanitising twice with the same type and slice is sanitising once. |
| Validation.SanitisedDigits | Javascript/src/components/validation.js:10-48 | The result has digits exactly when the input has. |
| Validation.IntExample | Javascript/src/components/validation.js:10-48 | "1a2b3" in int mode with slice 2 gives "12". |
| Validation.FloatExample | Javascript/src/components/validation.js:10-48 | "1.2.3" in float mode gives "1.23". |
| Validation.SecondDotDropped | Javascript/src/components/validation.js:30-37 | In "1.2.3" the second dot is dropped and its digits join the decimal part. |
| Validation.DecimalPlaces | Javascript/src/components/validation.js:53-57 | 0 without a dot, otherwise the whole string's length. |
| Validation.DecimalPlacesCoversFraction | Javascript/src/components/validation.js:53-57 | That count is never smaller than the digits after the dot, and strictly larger when there is a dot. |
| Validation.DecimalPlacesOfHundredth | Javascript/src/components/validation.js:53-57 | "0.01" gives 4, with 2 fraction digits. |
| Validation.Pow10 | Javascript/src/components/validation.js:70-79 | A power of ten is at least 1. |
| Validation.ParseDecimalInt | Javascript/src/components/validation.js:70-79 | `parseInt` is NaN exactly when no digit leads the string, +Infinity exactly when the leading digits reach 2^1024 − 2^970, and otherwise their exact value. |
| Validation.ParseFloat | Javascript/src/components/validation.js:70-79 | `parseFloat` is NaN exactly when neither whole nor fraction digits lead the string, +Infinity exactly when their decimal value reaches 2^1024 − 2^970, and otherwise that exact value. |
| Validation.IntParsesUnlessEmpty | Javascript/src/components/validation.js:70-79 | The int parse is NaN exactly when the input has no digit. |
| Validation.FloatParsesUnlessEmpty | Javascript/src/components/validation.js:70-79 | The float parse is NaN exactly when the input has no digit. |
| Validation.FloatBlank | Javascript/src/components/validation.js:70-79 | `parseFloat` of digits, a dot and digits is NaN exactly when both digit parts are empty. |
| Validation.Snap | Javascript/src/components/validation.js:81-89 | Clamp, round to the step grid and clamp again. The result is NaN exactly when the step is 0. |
| Validation.SnapOnGrid | Javascript/src/components/validation.js:81-89 | With a positive step the result v has min ≤ v ≤ max, and v is max or min + k·step for some k ≥ 0. |
| Validation.SnapGridPoint | Javascript/src/components/validation.js:81-89 | A grid point within range snaps to itself. |
| Validation.SnapSteps | Javascript/src/components/validation.js:81-89 | The snapped value is min + round((clamped − min)/step)·step, capped at max. |
| Validation.SnapIdempotent | Javascript/src/components/validation.js:81-89 | Snapping a snapped value changes nothing. |
| Validation.SnapToGridPoint | Javascript/src/components/validation.js:81-89 | A value whose rounded step lies below max snaps to that grid point, which snaps to itself. |
| Validation.SnapAbove | Javascript/src/components/validation.js:81-89 | A value whose rounded step reaches max or beyond is written as max. |
| Validation.SnapToMax | Javascript/src/components/validation.js:81-89 | Such a value and max itself both snap to max. |
| Validation.ValidateInput | Javascript/src/components/validation.js:67-90 | When a value is written, it is NaN exactly when the step is 0. |
| Validation.ValidateInputOverflow | Javascript/src/components/validation.js:81-88 | An input that parses to Infinity is clamped to max and written as max would be. |
| Validation.ValidateInputBlank | Javascript/src/components/validation.js:67-90 | The input is written as '' exactly when it has no digit. |
| Validation.ValidateInputInRange | Javascript/src/components/validation.js:67-90 | Otherwise the written value v has min ≤ v ≤ max and is max or min + k·step for some k ≥ 0. |
| ParamChange.Updated | src/components/handleParamChange.js:12-53 | No key disappears, and every key other than `path` and the subpath keeps its value. |
| ParamChange.UpdatedNested | src/components/handleParamChange.js:39-46 | With a nested record present, only `prev[subpath][path]` changes. |
| ParamChange.UpdatedTopLevel | src/components/handleParamChange.js:47-51 | Without a subpath, or with a falsy `prev[subpath]`, only `prev[path]` changes. |
| ParamChange.ElementReplaced | src/components/handleParamChange.js:18-35 | Inside an array's bounds only element `index` is replaced, in a copy of the same length. |
| ParamChange.ElementAppended | src/components/handleParamChange.js:18-35 | Past the end the copy grows to index + 1, and the gap reads as `undefined`. |
| ParamChange.IndexWithoutArray | src/components/handleParamChange.js:19-20 | An index with a non-array old value replaces the whole value. |
| ParamChange.ReadBack | src/components/handleParamChange.js:11-54 | Reading the field back gives what was stored. |
| ParamChange.StoredAtTwice | src/components/handleParamChange.js:18-35 | Storing the same element twice is storing it once. |
| ParamChange.UpdatedIdempotent | src/components/handleParamChange.js:12-53 | Repeating an update gives the state of applying it once, outside the two cases below. |
| ParamChange.RepeatNestsUnderOwnName | src/components/handleParamChange.js:12-53 | A field named like its missing subpath is nested again on a repeat. |
| ParamChange.RepeatNestsArray | src/components/handleParamChange.js:12-53 | An array stored at an index over a non-array value ends up inside itself on a repeat. |
| Topbar.SidebarCycle | Javascript/src/components/Topbar.jsx:10-20 | open → reduced → collapsed → open: a cycle of length exactly three. |
| Topbar.SidebarUnknownStays | Javascript/src/components/Topbar.jsx:10-20 | A state not in the table is left unchanged. |
| Topbar.ToggleSidebar | Javascript/src/components/Topbar.jsx:30-38 | The sidebar field becomes the successor of the rendered state's sidebar; every other field keeps its value. |
| Topbar.ToggleLayout | Javascript/src/components/Topbar.jsx:24-29 | Only the layout field changes, and no field disappears. |
| Topbar.ToggleSidebarThrice | Javascript/src/components/Topbar.jsx:30-38 | Three toggles from a table state return the UI state to the start. |
| Topbar.ToggleSidebarStale | Javascript/src/components/Topbar.jsx:30-38 | Two toggles before a re-render read the same stale state and move one step, not two. |
| Topbar.ToggleLayoutInvolution | Javascript/src/components/Topbar.jsx:24-29 | The result is always row-main or col-main. On those two the toggle is its own inverse. |
| Mesh.CubeVertices | mesh.py:30-31 | 8 corners per voxel. |
| Mesh.VertexOfVoxel | mesh.py:30-31 | Vertex 8i + k is voxel i's index plus offset[k] plus 1 (doubled). |
| Mesh.CubeFaces | mesh.py:20-27 | 6 faces per voxel. |
| Mesh.FaceColours | mesh.py:23 | 6 colours per voxel. |
| Mesh.FaceOfVoxel | mesh.py:20-27 | Face 6i + j has vertex ids 8i + offset_faces[j] and voxel i's value as its colour. |
| Mesh.CubeFacesInRange | mesh.py:20-27 | Every face id names one of the 8n corners. |
| Mesh.Permuted | mesh.py:36-37 | `vertices[verts_map]` has one entry per index. |
| Mesh.Reindex | mesh.py:42 | `inv_vert_map[faces]` keeps the face shapes. |
| Mesh.IndexIn | mesh.py:40-41 | The first position of a value: found exactly when present. |
| Mesh.Inverse | mesh.py:40-41 | The scatter gives one entry per position. |
| Mesh.InverseProperties | mesh.py:40-41 | `inv_vert_map` is the two-sided inverse of `verts_map`. |
| Mesh.InversePermutation | mesh.py:40-41 | The in-place scatter computes `Inverse`. |
| Mesh.ReindexKeepsCorners | mesh.py:36-42 | After re-indexing, each face still names the same vertex coordinates. |
| Mesh.Push | mesh.py:45-48 | Coalescing one more point extends the last run or starts a new one. |
| Mesh.Runs | mesh.py:45-48 | Run-length grouping of a point list: no more runs than points, and it ends at the last point. |
| Mesh.RunPoints | mesh.py:45-48 | One point per run. |
| Mesh.ExpandPush | mesh.py:51 | `repeat_interleave` of the counts gains one entry per pushed point. |
| Mesh.RunsCover | mesh.py:45-51 | Every corner belongs to a run of its own point. |
| Mesh.RunsOfSorted | mesh.py:45-48 | On sorted corners the merged vertices are distinct and strictly sorted, and each count is the point's multiplicity. |
| Mesh.RunsCoverOnto | mesh.py:45-48 | Every merged vertex is one of the corners. |
| Mesh.RunPointsMembers | mesh.py:45-48 | The merged vertices are exactly the corners, as a set. |
| Mesh.Insert | mesh.py:55 | Inserting keeps all ids plus one. |
| Mesh.InsertAscending | mesh.py:55 | Insertion keeps an ascending list ascending. |
| Mesh.SortAsc | mesh.py:55 | The face row sort keeps the length. |
| Mesh.SortAscSorts | mesh.py:55 | `torch.sort(faces, dim=1)` gives an ascending permutation of each face. |
| Mesh.Keys | mesh.py:59 | One key (the three smallest ids) per face. |
| Mesh.KeyLe | mesh.py:55-57 | Faces in lexsort order have keys in order. |
| Mesh.SortedKeys | mesh.py:55-57 | After `faces[index_map]` the keys are ascending. |
| Mesh.Unshared | mesh.py:59-64 | The mask has one flag per face. |
| Mesh.UnsharedIff | mesh.py:59-64 | On sorted keys a face is kept exactly when no other face has its key. |
| Mesh.Masked | mesh.py:64-66 | Masking never adds entries. |
| Mesh.KeptAt | mesh.py:64-66 | The kept positions are no more than the positions. |
| Mesh.KeptAtPositions | mesh.py:64-66 | The kept positions are exactly the flagged ones, in increasing order. |
| Mesh.MaskedAtKept | mesh.py:64-66 | `s[mask]` holds the entries at the kept positions, in order. |
| Mesh.Origins | mesh.py:55-66 | One original face per kept face. |
| Mesh.DropShared | mesh.py:55-66 | The kept faces and kept colours are equally many, and no more than the input faces. |
| Mesh.DropSharedKept | mesh.py:55-66 | An input face survives exactly when no other face has the same three smallest vertex ids. |
| Mesh.DropSharedColours | mesh.py:55-66 | As written: kept faces come from the reordered list, and colours from the original order at the kept positions. |
| Mesh.DropSharedAlignedOrigins | mesh.py:55-66 | Corrected: each kept face keeps its own colour, and no face is kept twice. |
| Mesh.MisalignedColour | mesh.py:55-66 | A two-face input where the first kept face gets the other face's colour. |
| Mesh.TwoFacesSwapped | mesh.py:55-57 | For faces [[2,3,4,5],[0,1,2,3]] the order [1, 0] sorts them, with keys (0,1,2) and (2,3,4). |
| Mesh.UniqueKeyMoves | mesh.py:55-64 | A key is unique among the sorted faces exactly when it is unique among the original faces. |
| Mesh.Merge | mesh.py:40-52 | Re-indexing through both maps keeps the face shapes. |
| Mesh.MergeKeepsCorners | mesh.py:51-52 | After merging, each face entry names the merged vertex with the corner's coordinates. |
| Mesh.MergedFaces | mesh.py:20-52 | 6 polygons per voxel on the merged vertices. |
| Mesh.MergedFacesNameCorners | mesh.py:51-52 | Each merged face names the corners of its cube face. |
| Mesh.CubeFaceCorners | mesh.py:20-31 | Cube face f lists the corners of face f mod 6 of voxel f div 6, all among the cube vertices. |
| Mesh.GenerateVoxel | mesh.py:9-68 | `generate_voxel` returns as many colours as faces, and at most six faces per voxel. |
| Mesh.GenerateVoxelVertices | mesh.py:34-48 | The output vertices are distinct, strictly sorted, and exactly the cube corners. |
| Mesh.GenerateVoxelFaces | mesh.py:9-68 | Every output face is a distinct cube face and names its cube's corners among the output vertices. |
| Mesh.GenerateVoxelKept | mesh.py:55-66 | A cube face is output exactly when no other face shares its key, i.e. it is not shared by two adjacent cubes. |
| Mesh.GenerateVoxelColours | mesh.py:55-66 | As written: output colour r is the value of the voxel at kept position r of the presorted order. |
| Mesh.GenerateVoxelAlignedColours | mesh.py:55-66 | Corrected: the same faces, and every face's colour is its own voxel's value. |
| Mesh.Fan | mesh.py:70-83 | A k-gon gives k − 2 triangles. |
| Mesh.Triangles | mesh.py:70-83 | F faces of k vertices give F·(k − 2) triangles. |
| Mesh.TrianglesAreFans | mesh.py:70-83 | The triangle tensor is the fans of the faces, in face-major order. |
| Mesh.FanCoversBoundary | mesh.py:70-83 | Triangle t of a face is (f[0], f[t+1], f[t+2]), using only the face's vertices. |
| Mesh.QuadFan | mesh.py:70-83 | A quad (a, b, c, d) gives (a, b, c) and (a, c, d). |
| Mesh.TrianglesSnoc | mesh.py:70-83 | One more face appends exactly its fan. |
| Mesh.EmptyFans | mesh.py:70-83 | Faces of two vertices give no triangles. |
| Cluster.Translate | Python/cluster.py:27-28 | Translating keeps the vertex count. |
| Cluster.Shift | Python/cluster.py:29 | Shifting keeps the face shapes. |
| Cluster.GlobalVoxelMesh | Python/cluster.py:22-32 | The loop stacks translated vertices, shifted faces and values in cluster order. The empty list gives empty outputs. |
| Cluster.VerticesPrefix | Python/cluster.py:27-31 | The joined vertices of the first j clusters begin those of the first k. |
| Cluster.FacesPrefix | Python/cluster.py:27-31 | The same for the faces. |
| Cluster.ValuesPrefix | Python/cluster.py:27-31 | The same for the face values. |
| Cluster.JoinedVertices | Python/cluster.py:27-28 | The joined vertex list is at least as long as every joined cluster's. |
| Cluster.JoinedFaces | Python/cluster.py:29-31 | When every cluster has 4-vertex faces, so does every joined face. |
| Cluster.JoinedVertexBlock | Python/cluster.py:27-28 | Cluster k's vertices, translated by its `local`, sit right after those of clusters 0..k − 1. |
| Cluster.JoinedFaceBlock | Python/cluster.py:29-31 | Cluster k's faces are offset by the vertex count of clusters 0..k − 1. |
| Cluster.JoinedValues | Python/cluster.py:30 | With one value per face in every cluster, the joined values are as many as the joined faces. |
| Cluster.JoinedValueBlock | Python/cluster.py:30 | Face values are concatenated unchanged, at their faces' positions. |
| Cluster.JoinedFacesNameSamePoints | Python/cluster.py:27-31 | A merged face index is below the total and points to the translated copy of the same vertex. |
| Cluster.JoinedFacesValid | Python/cluster.py:27-31 | If every cluster's faces index its own vertices, every merged face index is below the total vertex count. |

## Left out

- The FFT and the convolution (`Javascript/src/core/FftUtils.js:63`, `Javascript/src/core/LeniaEngine.js:91-95`): foreign floating-point code. `FftUtils` takes the 1-D transform as a shape-keeping parameter, and `step` takes `U` as an input.
- The exponential kernel core (`Javascript/src/core/KernelGen.js:29-36`) is `exp`-based floating point; it is the `bump` parameter.
- The gaussian growth (`Javascript/src/core/LeniaEngine.js:11-13`) is also `exp`-based. As written it calls `tf.mul` with one argument; the model records the throw.
- `createDistanceField`'s square root and division by R (`Javascript/src/core/KernelGen.js:110`) are floating point: `KernelGen.SquaredDistance` stops at the squared distance, and `KernelShell` takes the distance grid as input.
- The random number generators (`Javascript/src/core/GridUtils.js:157-163`, `Math.random` for seeds, and torch in Python) are not modelled. The fill reads a supplied stream `unit(seed, t)`, and a fresh seed is a parameter.
- `toFixed(1)` for `time` (`Javascript/src/core/LeniaEngine.js:103`) is IEEE rounding; it is the supplied `roundTenth`.
- `tf.pad` with negative padding is library behaviour. Only the padding amounts and growing axes are modelled; shrinking is the supplied `shrink`.
- GridUtils' `det`, `invertMatrix`, `Condense` and `updateVariable` are floating-point or tf `assign` helpers outside the core.
- Grids have rank 3 throughout, which is the shape every caller uses. A decoded pattern of lower rank (`tf.tensor` of no planes, or of planes without rows) is not represented as a tensor: `LeniaEngine.Placed` throws for it, as `resize` and `grid.assign` do.
- LeniaEngine.Engine.constructor: requires that the kernel builds, because a throwing constructor leaves no object.
- LeniaEngine.Engine.Step: requires `StepComputable`. Whenever the growth runs, that excludes a growth that is NaN on some cell, and a `T` that is 0, NaN, absent or not a number. There `1 / T` is Infinity or NaN (`Javascript/src/core/LeniaEngine.js:98`), so the source completes the step with NaN cells (`clipByValue` keeps NaN) and an Infinity or NaN `time` (`Javascript/src/core/LeniaEngine.js:103`). The model's grid holds reals and its time is a real, so that branch is not modelled.
- LeniaEngine.AfterStep: carries the same `StepComputable` requirement, with the same excluded branch of a NaN growth or a `T` that is 0, NaN, absent or not a number.
- LeniaEngine.StepEffects: carries the same `StepComputable` requirement, and so says nothing about a step with a NaN growth or a `T` that is 0, NaN, absent or not a number.
- LeniaEngine.GrowthRuns: an `m`, `s`, `R` or `T` that is a string or an array is taken as a throw (or, for `T`, excluded), and the string coercion of `gn` and `kn` is not modelled.
- LeniaEngine.KernelBuildsIsGeneration: covers positive R only. A non-finite R would yield non-finite distances, which the real-valued distance grid cannot hold.
- Values.Divide: the quotient of two finite numbers is exact, neither rounded nor overflowed to Infinity.
- PatternCodec.FractionField: requires both sides below `Values.Overflow`, so that both parse to finite numbers.
- The sign of zero (−0) is not modelled: a negative number divided by Infinity is 0, not −0.
- FftUtils.Transpose: covers involutive permutations only, which is the only kind the source builds.
- `String(value)` is not modelled: validation inputs are strings.
- The floating-point rounding in `validateInput`'s snap is not modelled; `Snap` is exact.
- `parseInt`/`parseFloat` are modelled on the cleaned strings `validateData` produces only.
- Writing `input.value` to the DOM is the returned `Written` value.
- Validation.ValidateInputInRange: assumes min ≤ max and step > 0, as the form's inputs provide.
- Property lookup on non-object values, non-integer array indices and prototype keys in the sidebar table are outside the model.
- ParamChange.UpdatedIdempotent: excludes the two cases `RepeatNestsUnderOwnName` and `RepeatNestsArray` show not to be idempotent.
- KernelGen.KernelShell: follows tf.js's checked `gather` (the CPU backend, or WebGL in debug mode), which throws on a negative or out-of-range index, so an empty `b` or a negative distance is an error. The engine never selects a backend. On the unchecked WebGL default an out-of-range index need not throw, and the kernel may then become NaN after `K.div(K.sum())`; that behaviour is not modelled. `LeniaEngine.NegativeDistanceThrows` and `LeniaEngine.KernelBuilds` share this reading.
- `np.lexsort` and the face sort are parameters (`verts_map`, `index_map`), with predicates saying they sort. `coalesce` is modelled as run-length grouping of the sorted corners.
- The sparse tensor size bound, the final halving of the vertices and the torch dtypes are not modelled: vertices stay in doubled coordinates. The bound `2 * grid.shape + 1` (mesh.py:45) would reject some inputs: with the half-cell offsets and the `+ 1`, a voxel at index n − 1 has its upper corner at doubled coordinate 2(n − 1) + 1 + 2 = 2n + 1, one past the last index the size allows.
- Mesh.GenerateVoxelFaces: requires 8 offsets and a 6-row face table with ids below 8, which is the table the callers pass.
- Mesh.Triangles: requires k ≥ 2 vertices per face.
- `generate_cluster_array` (`Python/cluster.py:7-14`) is scipy's `find_objects`.
- `cluster_obj` calls `generate_voxel` with one argument, against its three-parameter signature, so each cluster's mesh is taken as given.
- Cluster.GlobalVoxelMesh: requires 4-vertex faces, since the source stacks them onto an empty `(0, 4)` tensor.
- Rendering, the React UI, plotting and the Python numerics are outside the core.

## Findings

| source | as written | input that shows it | evidently intended | confidence | as-written member | corrected member |
|---|---|---|---|---|---|---|
| mesh.py:55-66 | The faces are reordered by `index_map` before the mask, but `face_colors` is masked in the original voxel order. | Faces [[2,3,4,5],[0,1,2,3]] with colours [1.0, 2.0]: `index_map` is [1, 0], so the first kept face (input face 1) gets colour 1.0, which belongs to face 0. | Each kept face keeps its own voxel's colour (`face_colors[index_map][mask]`). | not executed | Mesh.MisalignedColour | Mesh.GenerateVoxelAlignedColours |
