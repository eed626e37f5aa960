# PAR2 verification and repair, modelled in Dafny

This project models the engine that checks and repairs PAR2 recovery sets and proves what it promises: that a repair
gives back the missing slices, that the fast paths compute what the simple ones do, and that bookkeeping spread over
many calls stays right whatever order things happen in. `dafny verify dfyconfig.toml` checks all of it.

| part | files |
|---|---|
| Field and matrix algebra | `Fields`, `Linear`, `Elimination`, `SingularRows`, `Inversion`, `Tiled`, `Polynomials`, `Arithmetic`, `Divisors` |
| GF(2^16) and its tables | `Gf16`, `Gf16Tables`, `Totient` |
| Building and solving the repair system | `Matrix`, `Vandermonde`, `Repair` |
| The transform repair arm | `Geometry`, `Stripes`, `Completion`, `TransformArm`, `TransformBand`, `TransformRun`, `TransformGate`, `Folds` |
| The fast transform and the closed-form solve | `Sums`, `Residues`, `Dft`, `Locators`, `SolvePlan`, `Convolution`, `PrimeFactor`, `GroupedSolve`, `FastSolve` |
| Checksums | `Bytes`, `Words`, `BitMatrices`, `Crc`, `CrcValues`, `Md5Spec`, `Md5Rounds`, `Md5Block`, `Md5Lanes`, `Md5Multi`, `Md5Stream`, `Md5Values`, `Checksum` |
| The packed repair controller | `Controller`, `Lifecycle` |
| Packets, names and budgets | `Names`, `NamesOrder`, `Inventory`, `InventoryFirsts`, `Loader` |
| Putting misnamed files in place | `Placement`, `Plans`, `Rings` |

How the model stands to the code:

- The repair algebra is written once for any field of characteristic two. `Gf16.GF16Lawful` shows that the tables over
  0x1100B are such a field, because 2 has order 65535. The checksum algebra is the same theory over GF(2).
- A 32-bit CRC word is its 32 bits, least significant first; exclusive or, shift and bit tests are the only operations
  that code uses. MD5 words are 32-bit vectors with wrapping addition.
- Matrices are two-dimensional arrays updated in place; the offset of a cell in the row-major buffer is not modelled.
- The stripe workers of a band are a state machine: any number of workers, one action at a time, any interleaving. Its
  state carries two history fields that count loads and writes.
- The band loop works on a store of bytes that counts the writes to each. What a band's engine returns is a parameter:
  any function of the right shape, and separately one whose results come from runs of the stripe workers
  (`TransformBand.WorkersSound`).
- The transform and the solve are modelled at one word, as the sums their stages compute; `FastSolve.FastArmIsExact`
  joins them and shows that they repair as the explicit inverse does.
- Renames follow POSIX: an existing target is replaced. Which renames the system refuses is a parameter.

Three promises turned out not to hold as they are written, and are stated with their exact conditions:

- Undoing a half-finished swap can destroy a file: when the third rename is refused, and the first of the two that undo
  the swap is refused too but the second goes through, that second one replaces the other file. `Placement.SwapConserves`
  says this is the only way a swap loses data.
- The test for a swap asks only whether another known file holds the wanted name, not whether that file wants this one's
  name. `Plans.ChainGoesWrong` is a chain of two files where both end at wrong names without any failure.
  `Rings.RightForEveryListing` gives the condition: carrying a plan out puts every file right, however the IDs are
  listed, exactly when following the holders of taken names always comes back in two or three steps.
- A Unicode file name dropped because two packets disagree stays charged to the budget
  (`Inventory.ContradictionStillCharged`). `Inventory.ChargeExactWhen` says that the charge for a scan is the cost of
  what is held exactly when no two of its packets spell one file's name differently.

## Model

| member | source | states |
|---|---|---|
| Gf16.DoubledIsTimes | crates/reedsolomon-rs/src/gf.rs:48-62 | doubling an element k times is multiplying it by the k-th power of 2, for every element |
| Gf16.OrderIs | crates/reedsolomon-rs/src/gf.rs:14-18 | no power of 2 below the 65535th is one |
| Gf16.ExpInjective | crates/reedsolomon-rs/src/gf.rs:45-59 | the table of powers holds no value twice |
| Gf16.EveryElementIsAPower | crates/reedsolomon-rs/src/gf.rs:21-28 | every nonzero 16-bit value is in the table of powers, so every logarithm is defined |
| Gf16.ProductIsDoubled | crates/reedsolomon-rs/src/gf.rs:79-94 | adding logarithms multiplies: it is the linear map that doubles log(a) times |
| Gf16.GF16Lawful | crates/reedsolomon-rs/src/gf.rs:71-109 | table addition, product and inverse obey every law of a field of characteristic two |
| Gf16Tables.WideDoubles | crates/reedsolomon-rs/src/gf.rs:55-59 | the 32-bit shift and conditional exclusive or is doubling in the field |
| Gf16Tables.BuildTables | crates/reedsolomon-rs/src/gf.rs:39-69 | the two tables are inverse to each other on all nonzero elements, no entry overwritten by a later one |
| Gf16Tables.Mul | crates/reedsolomon-rs/src/gf.rs:79-94 | one conditional subtraction keeps the sum of logarithms in the table, zero handled apart |
| Gf16Tables.Inv | crates/reedsolomon-rs/src/gf.rs:104-109 | the looked-up value multiplies with a to one, through the extra table slot when log(a) is 0 |
| Gf16Tables.Pow | crates/reedsolomon-rs/src/gf.rs:116-127 | equals repeated multiplication, with 0^0 == 1 |
| Totient.Sieve | crates/reedsolomon-rs/src/gf.rs:160-179 | sieving out a prime leaves p - 1 of every p numbers that were left, over a whole period |
| Gf16Tables.Enough | crates/reedsolomon-rs/src/gf.rs:153-179 | exactly 32768 exponents below 65535 share no factor with it, so there is a constant for every slice a set may have |
| Gf16Tables.InputSliceConstants | crates/reedsolomon-rs/src/gf.rs:160-179 | for any count up to 32768, the first powers of 2 whose exponents avoid 3, 5, 17 and 257, in order |
| Gf16Tables.ConstantsDistinct | crates/reedsolomon-rs/src/gf.rs:153-160 | slice constants are nonzero and pairwise different |
| Gf16Tables.ConstantOrder | crates/reedsolomon-rs/src/gf.rs:155-157 | every slice constant has order exactly 65535 |
| Gf16Tables.ConsecutiveAlwaysSolvable | crates/par2-rs/src/matrix.rs:337-341 | with PAR2's own constants no row of a consecutive selection depends on the rows above it |
| Elimination.PivotedSolves | crates/par2-rs/src/matrix.rs:192-284 | pivoted elimination keeps the solutions and ends with the identity, or the matrix sends a nonzero vector to zero |
| SingularRows.SingularRow | crates/par2-rs/src/matrix.rs:192-284 | the input row a singular matrix is reported for was not used as a pivot and, over the columns reached, is a combination of the independent rows that were |
| Elimination.UnpivotedSolves | crates/par2-rs/src/matrix.rs:309-431 | elimination without pivoting, when it finishes, keeps the solutions and ends with the identity |
| Inversion.PivotedExact | crates/par2-rs/src/matrix.rs:192-284 | pivoted elimination finishes exactly when the matrix is invertible |
| Inversion.SolvedProduct | crates/par2-rs/src/matrix.rs:295-431 | the matrix times the reduced right block is the right block it started from, column by column |
| Inversion.UnpivotedAgrees | crates/par2-rs/src/matrix.rs:295-431 | whenever elimination without pivoting finishes, pivoted elimination leaves the same matrices |
| Inversion.UnpivotedFailsAt | crates/par2-rs/src/matrix.rs:309-345 | elimination without pivoting names row k exactly when k is the first row that depends on the rows above it |
| Inversion.UnpivotedSucceeds | crates/par2-rs/src/matrix.rs:309-431 | it finishes exactly when no row depends on those above |
| Matrices.Matrix.SwapRows | crates/par2-rs/src/matrix.rs:144-157 | two rows trade places and no other cell changes |
| Matrices.ScheduleTiles | crates/par2-rs/src/matrix.rs:420-428 | batches of row_group rows taken in any order visit every row once |
| Matrices.ClearColumn | crates/par2-rs/src/matrix.rs:376-428 | whatever order the batches run in, one column is cleared as row by row elimination clears it |
| Matrices.GaussianEliminateTracked | crates/par2-rs/src/matrix.rs:192-284 | in place equals pivoted elimination on values, with the original row number in the error |
| Matrices.Invert | crates/par2-rs/src/matrix.rs:287-292 | a two-sided inverse exactly when there is one, an error for a matrix that is not square |
| Matrices.GaussianEliminateVandermonde | crates/par2-rs/src/matrix.rs:295-431 | in place, with batched rows, equals elimination without pivoting on values |
| Tiled.RankRow | crates/reedsolomon-rs/src/matrix_tiled.rs:17-31 | all the steps of a group reach an outside row in one pass: the reduced pivot rows, each times the row's entry in its column before the group |
| Tiled.ReduceGroup | crates/reedsolomon-rs/src/matrix_tiled.rs:104-177 | the group's rows end as that many elimination steps would leave them, or the first zero on the diagonal is met where elimination meets it |
| Tiled.ApplyRankK | crates/reedsolomon-rs/src/matrix_tiled.rs:185-263 | with the group reduced, one pass over the other rows completes those steps |
| Tiled.InvertTiled | crates/reedsolomon-rs/src/matrix_tiled.rs:59-98 | elimination eight columns at a time ends in the same rows or names the same bad row as column by column |
| Vandermonde.FillVandermondeRows | crates/par2-rs/src/matrix.rs:441-488 | stepping powers along a run of exponents fills the same matrix as powering every entry |
| Vandermonde.RecoverySplits | crates/par2-rs/src/matrix.rs:434-452 | a recovery word is the present slices' share plus the missing slices' share, for any split of the slices |
| Vandermonde.SolvedRepairs | crates/par2-rs/src/matrix.rs:585-624 | the reduced right block turns present slices and recovery words back into the missing slices, for all data |
| Repair.BuildRepairMatrix | crates/par2-rs/src/matrix.rs:585-624 | builds a matrix that repairs every set and its inverse block, or names the first dependent row, or reports a count mismatch, each exactly when it should |
| Repair.RunAlwaysBuilds | crates/par2-rs/src/matrix.rs:337-341 | consecutive exponents over distinct nonzero constants never fail |
| Polynomials.RunIndependent | crates/par2-rs/src/matrix.rs:337-341 | no row of consecutive powers is a combination of the ones above, since a polynomial has no more roots than its degree |
| Geometry.FitAdmissible | crates/par2-rs/src/repair_transform.rs:491-547 | a fitted band is a whole number of stripes, covers the slice within the pass limit and stays in the byte budget |
| Geometry.FitIsLargest | crates/par2-rs/src/repair_transform.rs:509-536 | whatever whole number of stripes the budget, the least band and the pass limit allow, the fit is at least as large, and no overflow test refuses one |
| Geometry.FitsWhenAny | crates/par2-rs/src/repair_transform.rs:509-536 | a rung fits exactly when some band is allowed there |
| Geometry.FirstStripe | crates/par2-rs/src/repair_transform.rs:507-508 | 16384 for every slice of at least that, otherwise the slice rounded up to 64 |
| Geometry.StripesHalve | crates/par2-rs/src/repair_transform.rs:537-541 | each stripe tried is the least multiple of 64 that is at least half the one before and at least 256, down to a last one of at most 256 |
| Geometry.WorkersHalve | crates/par2-rs/src/repair_transform.rs:542-546 | each worker count tried is half the one before, rounded down, ending at one |
| Geometry.PlanGeometry | crates/par2-rs/src/repair_transform.rs:483-547 | the first rung of the worker and stripe ladders where any band is allowed, with the largest band allowed there; none exactly when no rung allows one |
| Stripes.NextInv | crates/par2-rs/src/repair_transform.rs:979-1098 | every action of every worker keeps the stripe ownership invariant |
| Stripes.RunRepairs | crates/par2-rs/src/repair_transform.rs:979-1098 | any interleaving that ends without failure repairs every stripe once and leaves the whole band repaired and probed |
| Stripes.NotStuck | crates/par2-rs/src/repair_transform.rs:979-1098 | as long as a worker is left, some worker can take a step |
| Completion.RunBounded | crates/par2-rs/src/repair_transform.rs:979-1098 | no interleaving takes more than 2 * rows + 6 steps for each stripe and one for each worker |
| Completion.RunCompletes | crates/par2-rs/src/repair_transform.rs:979-1098 | any run, wherever it has got to, can be carried on until every worker has left |
| TransformBand.CutsTile | crates/par2-rs/src/repair_transform.rs:990-1027 | stripes lie end to end over the band, and all but the last have the full length |
| TransformBand.SolversAgree | crates/par2-rs/src/repair_transform.rs:420-471 | the closed-form solve and the explicit inverse give the same missing words for the same syndromes |
| TransformBand.BandRunExact | crates/par2-rs/src/repair_transform.rs:979-1098 | a band whose workers end without a failure, however they interleave, holds what the exact transform and the inverse would have made of it |
| TransformBand.WorkersSound | crates/par2-rs/src/repair_transform.rs:979-1098 | an engine made of such bands is sound, whichever solver it uses |
| TransformBand.RunWithinArena | crates/par2-rs/src/repair_transform.rs:475-547 | at every moment of every run, tables, workers' buffers and band buffers together stay within the arena bytes of the geometry, and so within the budget |
| TransformArm.SyndromesAreProduct | crates/par2-rs/src/repair_transform.rs:1021-1040 | scattering recovery rows and transforming gives the recovery words less the present slices' share |
| TransformArm.ArmIsDense | crates/par2-rs/src/repair_transform.rs:368-418 | syndromes then the explicit inverse equal one product with the dense repair matrix |
| TransformArm.BandIsDense | crates/par2-rs/src/repair_transform.rs:962-1098 | a finished band of workers holds the dense product at every position |
| TransformArm.BandRestores | crates/par2-rs/src/repair_transform.rs:962-1098 | started from true recovery words, the band ends holding the missing slices |
| TransformRun.FileStore.WriteRange | crates/par2-rs/src/repair_transform.rs:928-938 | a write changes exactly its range and counts one write for each byte of it |
| Folds.DenseRow | crates/par2-rs/src/repair_transform.rs:1105-1128 | batching the nonzero factors adds the same inner product as one term at a time |
| TransformRun.Probe | crates/par2-rs/src/repair_transform.rs:867-918 | passes exactly when the recovery row and the transform's own syndrome both agree with the repaired words everywhere |
| TransformRun.WriteBand | crates/par2-rs/src/repair_transform.rs:921-939 | after a band each due byte is its repaired value, cut at the end of its file, and no other byte moves |
| TransformRun.PassesExact | crates/par2-rs/src/repair_transform.rs:798-802 | a walk over the slice takes exactly the ceiling quotient of passes |
| TransformRun.RunBand | crates/par2-rs/src/repair_transform.rs:800-942 | nothing is written for a band whose probes disagree or whose engine fails |
| TransformRun.Run | crates/par2-rs/src/repair_transform.rs:763-958 | executed exactly when the whole slice is written; every missing byte written once; every word balances a recovery equation, in what was computed and as read back from the files; a sound engine never diverges and all it writes is the dense result |
| TransformRun.ExecutedIsDense | crates/par2-rs/src/repair_transform.rs:619-627 | an executed exact arm leaves the files a dense repair would |
| TransformRun.FallbackSame | crates/par2-rs/src/repair_transform.rs:619-627 | after the arm stops anywhere, a dense run over what it left ends in the files a dense run alone would have |
| TransformGate.ChooseSolver | crates/par2-rs/src/repair_transform.rs:556-619 | the closed solve exactly when it can serve and some rung of the ladders fits it, else the inverse if that fits, else none |
| TransformGate.WorthwhileIs | crates/par2-rs/src/repair_transform.rs:700-713 | saturating at each step decides as the exact counts do: four times the folds and the square of the rows do not exceed the dense product, or that one passes 64 bits |
| TransformGate.GateMonotone | crates/par2-rs/src/repair_transform.rs:700-713 | fewer folds or more present slices never shut the gate |
| TransformGate.Decide | crates/par2-rs/src/repair_transform.rs:628-722 | admitted exactly when every gate is open, with the exact extent of the exponents; declined for the first gate that is shut; the margin gate compares four times the transform's folds with the dense product's |
| TransformGate.TryExecute | crates/par2-rs/src/repair_transform.rs:628-752 | a declined repair leaves every byte untouched; a taken one runs over the range, band and solver the gate settled on, in exactly the passes of its geometry, and with stripe workers all it writes is the dense result |
| Residues.SplitIs | crates/reedsolomon-rs/src/gf16_dft.rs:28-51 | a product of exponents modulo 65535 is one product for each of 257, 17, 5 and 3 |
| Dft.DftIsPowerSum | crates/reedsolomon-rs/src/gf16_dft.rs:480-810 | the bucketed stages, with empty lines and buckets left out, compute the dense sum for every exponent and every list of sources |
| Dft.DftMeetsContract | crates/reedsolomon-rs/src/gf16_dft.rs:460-521 | each output row gains exactly what the repair arm asks of the transform |
| Locators.DerivativeNonZero | crates/reedsolomon-rs/src/vandermonde_solve.rs:33-47 | the locator's derivative is never zero at a root, because the roots are distinct |
| Locators.Isolates | crates/reedsolomon-rs/src/vandermonde_solve.rs:33-47 | weighting the syndromes by the locator over one root isolates that root's unknown |
| Locators.ClosedFormSolves | crates/reedsolomon-rs/src/vandermonde_solve.rs:49-57 | the closed form gives back the unknowns behind any syndromes |
| Locators.ClosedFormIsInverse | crates/reedsolomon-rs/src/vandermonde_solve.rs:5-14 | the closed form is the product with the explicit inverse, for all syndromes |
| SolvePlan.LocatorPolynomial | crates/reedsolomon-rs/src/vandermonde_solve.rs:1007-1017 | multiplying roots in, in place and from the top, builds the product of z + g over all roots |
| SolvePlan.EvaluateDerivative | crates/reedsolomon-rs/src/vandermonde_solve.rs:1025-1039 | one pass over the odd coefficients in the square of the point is the formal derivative |
| SolvePlan.Correlate | crates/reedsolomon-rs/src/vandermonde_solve.rs:514-546 | folding windows of the locator eight sources at a time is stage 1 at every word |
| SolvePlan.SolveStripe | crates/reedsolomon-rs/src/vandermonde_solve.rs:471-586 | the direct form leaves the closed form's answer at every word of the stripe |
| GroupedSolve.GroupedIsStage2 | crates/reedsolomon-rs/src/vandermonde_solve.rs:591-699 | 257 shared buckets and one fold for each unknown are stage 2 |
| Convolution.Orthogonal | crates/reedsolomon-rs/src/vandermonde_solve.rs:717-727 | the powers of a root of order 255 add up to one over a multiple of 255 and to zero otherwise |
| Convolution.TakenBack | crates/reedsolomon-rs/src/vandermonde_solve.rs:704-814 | the inverse transform of a shifted spectrum picks out the shifted value |
| Convolution.BlockedIsStage1 | crates/reedsolomon-rs/src/vandermonde_solve.rs:738-814 | segments of 128 rows, convolved through length-255 spectra and accumulated, are stage 1 row by row, empty windows left out |
| PrimeFactor.NetworkIsSpectrum | crates/reedsolomon-rs/src/vandermonde_solve.rs:859-927 | the radix 17, 5 and 3 stages give every point of a segment's length-255 spectrum |
| PrimeFactor.InverseNetworkIs | crates/reedsolomon-rs/src/vandermonde_solve.rs:931-963 | the inverse stages, read at one row only, are the inverse transform there |
| FastSolve.CorrelatedIsStage1 | crates/reedsolomon-rs/src/vandermonde_solve.rs:738-963 | stage 1 through the radix networks is stage 1 as defined |
| FastSolve.FastIsClosedForm | crates/reedsolomon-rs/src/vandermonde_solve.rs:471-506 | both stages transformed give the closed form, for any constants and syndromes |
| FastSolve.FastArmIsExact | crates/par2-rs/src/repair_transform.rs:420-471 | the transform and the fast solve together repair as the explicit inverse does |
| FastSolve.ScratchHolds | crates/reedsolomon-rs/src/vandermonde_solve.rs:435-494 | every row the stages use has a place of its own inside the scratch charged for |
| FastSolve.ScratchUsed | crates/reedsolomon-rs/src/vandermonde_solve.rs:435-494 | every row of scratch charged for is used by a stage |
| FastSolve.TwoGenerates | crates/reedsolomon-rs/src/gf16_dft.rs:20-31 | 2 generates the nonzero elements of GF(2^16), so all of this holds for PAR2's field |
| Words.MatVec | crates/par2-rs/src/checksum.rs:331-343 | shifting the vector out gives the matrix image of it |
| Words.ImageXor | crates/par2-rs/src/checksum.rs:331-343 | the image of an exclusive or is the exclusive or of the images |
| Words.ImageCompose | crates/par2-rs/src/checksum.rs:345-349 | multiplying column by column is composing the two maps |
| BitMatrices.Invert | crates/par2-rs/src/checksum.rs:352-393 | a two-sided inverse, missing exactly when the matrix sends a nonzero word to zero |
| Crc.CrcConcat | crates/par2-rs/src/checksum.rs:241-247 | the checksum of two pieces is the first shifted past the second, exclusive or the second's |
| Crc.OneShiftImage | crates/par2-rs/src/checksum.rs:254-258 | the starting matrix is one shift of the register |
| Crc.CombineOp | crates/par2-rs/src/checksum.rs:249-286 | repeated squaring gives the matrix of exactly 8 * len2 shifts, and none for no bytes |
| Crc.JoinedConcat | crates/par2-rs/src/checksum.rs:288-293 | combining the checksums of any two strings gives that of their concatenation, the empty suffix included |
| Crc.Combine | crates/par2-rs/src/checksum.rs:395-397 | joins the two checksums through the operator, or returns the first for no bytes |
| Crc.UncombineOp | crates/par2-rs/src/checksum.rs:307-316 | the inverse exists for every positive length and undoes the shifts from both sides |
| Crc.JoinedInjective | crates/par2-rs/src/checksum.rs:296-306 | two different prefixes' checksums never combine to the same one |
| Crc.Uncombine | crates/par2-rs/src/checksum.rs:322-328 | the one checksum that combines with the suffix's to the given one, for every length |
| Crc.Padded | crates/par2-rs/src/checksum.rs:410-420 | feeding zeros in chunks is the checksum of the padded data |
| Crc.ExpectedFileCrc32 | crates/par2-rs/src/par2_set.rs:386-436 | a value exactly for consistent metadata, and then the checksum of any file with those slice checksums, its short last slice unpadded |
| CrcValues.GeneratorIs | crates/par2-rs/src/checksum.rs:241-256 | the constant is x^32 + x^26 + x^23 + x^22 + x^16 + x^12 + x^11 + x^10 + x^8 + x^7 + x^5 + x^4 + x^2 + x + 1 without its first term |
| CrcValues.FeedIsRemainder | crates/par2-rs/src/checksum.rs:241-258 | the register fed from zero holds the remainder of the message times x^32 on long division by that polynomial |
| CrcValues.CrcIsRemainder | crates/par2-rs/src/checksum.rs:241-258 | the checksum is the inverted remainder of the message with its first 32 bits inverted and 32 zeros after it |
| CrcValues.CheckValue | crates/par2-rs/src/checksum.rs:241-258 | the checksum of the nine digits is the published 0xCBF43926 |
| Md5Rounds.AccumulateIsSum | crates/par2-rs/src/md5_simd.rs:426-985 | each instruction set's rewritten sum is section 3.4 of RFC 1321's, for all words |
| Md5Rounds.RotlIsRotate | crates/par2-rs/src/md5_simd.rs:594-605 | shift-insert, halfword swap and byte shuffle are the left rotate |
| Md5Rounds.StepIsRfc | crates/par2-rs/src/md5_simd.rs:186-243 | one step on any instruction set is the RFC's step |
| Md5Block.ScheduleFollowsRfc | crates/par2-rs/src/md5_simd.rs:247-315 | the unrolled steps use the RFC's functions, word order, shifts and constants |
| Md5Block.IsaRoundsAreRfc | crates/par2-rs/src/md5_simd.rs:247-315 | the 64 steps on any instruction set end in the RFC's registers |
| Md5Block.KernelIsMd5 | crates/par2-rs/src/md5_simd.rs:329-418 | every instruction set's digest of every message is MD5 |
| Md5Block.LoadTransposes | crates/par2-rs/src/md5_simd.rs:611-1015 | the shuffles put word w of lane l in element l of vector w, for four and eight lanes |
| Md5Block.KernelLane | crates/par2-rs/src/md5_simd.rs:382-391 | one block in vector registers gives each lane the RFC's rounds of its own block |
| Md5Multi.VectorsAdvance | crates/par2-rs/src/md5_simd.rs:382-398 | loading, the vector steps and the final addition advance every lane by the block function on its own block |
| Md5Lanes.NewPlan | crates/par2-rs/src/md5_simd.rs:100-151 | data, straddle and tail blocks in order are exactly the padded, zero-extended message |
| Md5Lanes.Resolve | crates/par2-rs/src/md5_simd.rs:371-381 | the in-place shortcut reads the same block as the full lookup |
| Md5Lanes.Kernel | crates/par2-rs/src/md5_simd.rs:329-418 | lanes of different lengths each get the digest of their own message, and no other slot is written |
| Md5Multi.Batch | crates/par2-rs/src/md5_simd.rs:1082-1127 | any host's dispatch, with the split for narrow vectors, hashes every message of the batch |
| Md5Multi.BatchScalar | crates/par2-rs/src/md5_simd.rs:1142-1148 | one message per pass gives the same digests |
| Md5Multi.MultiInto | crates/par2-rs/src/md5_simd.rs:1174-1191 | one MD5 digest per input in order, each of its own zero-extended message |
| Md5Stream.FoldAll | crates/par2-rs/src/md5_asm.rs:141-152 | chunking the blocks folds the same state |
| Md5Stream.Md5.constructor | crates/par2-rs/src/md5_asm.rs:50-57 | a fresh chain has been fed nothing |
| Md5Stream.Md5.Update | crates/par2-rs/src/md5_asm.rs:59-78 | however bytes are cut up, the state is that of all of them in order |
| Md5Stream.FoldPair | crates/par2-rs/src/md5_simd.rs:491-514 | two chains block by block fold as each would alone |
| Md5Stream.Md5.UpdatePair | crates/par2-rs/src/md5_asm.rs:83-122 | feeding two chains together leaves each as feeding it alone, at equal and unequal offsets |
| Md5Stream.Md5.Finalize | crates/par2-rs/src/md5_asm.rs:124-138 | the RFC digest of every byte fed, the length taken modulo 2^64 bits |
| Md5Stream.AbsorbPadding | crates/par2-rs/src/md5_asm.rs:124-133 | folding the buffered bytes with the padding is folding the whole padded message |
| Md5Values.LengthBytes | crates/par2-rs/src/md5_asm.rs:125-130 | the last eight bytes of the padded message are the base-256 digits of its length in bits modulo 2^64, lowest first |
| Md5Values.PaddingBytes | crates/par2-rs/src/md5_asm.rs:126-130 | after the message come 0x80 and zeros up to the length |
| Md5Values.LoadWordValue | crates/par2-rs/src/md5_simd.rs:523-525 | a loaded word is its four bytes in base 256, lowest first |
| Md5Values.StoreWordValue | crates/par2-rs/src/md5_asm.rs:132-135 | storing a word and loading it gives it back |
| Md5Values.InitBytes | crates/par2-rs/src/md5_asm.rs:38-38 | the starting registers, written out, are the bytes 01 23 45 67 89 ab cd ef fe dc ba 98 76 54 32 10 |
| Md5Values.AbcDigest | crates/par2-rs/src/checksum.rs:776-776 | the digest of "abc" is 900150983cd24fb0d6963f7d28e17f72, as in appendix A.5 of RFC 1321 |
| Checksum.SliceChecksumState.Update | crates/par2-rs/src/checksum.rs:157-161 | both checksums follow the bytes fed |
| Checksum.SliceChecksumState.UpdateWithFileHash | crates/par2-rs/src/checksum.rs:165-170 | the slice's and the file's chains both take the same bytes |
| Checksum.SliceChecksumState.Finalize | crates/par2-rs/src/checksum.rs:181-196 | CRC-32 and MD5 of everything fed, zero-padded when a longer length is given |
| Checksum.FileHashState.Update | crates/par2-rs/src/checksum.rs:220-223 | the file's chain follows the bytes fed |
| Checksum.FileHashState.Finalize | crates/par2-rs/src/checksum.rs:229-231 | the MD5 digest of the whole file |
| Controller.Bounds | crates/par2-rs/src/cpu_repair_controller.rs:835-846 | rounded shares of a chunk's outputs start at none, end at all and are never empty |
| Controller.SplitChunk | crates/par2-rs/src/cpu_repair_controller.rs:832-849 | one chunk's cells are each given to one share, numbered on from the last worker used |
| Controller.BuildAssignments | crates/par2-rs/src/cpu_repair_controller.rs:813-868 | every (byte, output) cell has exactly one assignment, none empty, at most one share and one run for each worker |
| Controller.AtMostTarget | crates/par2-rs/src/cpu_repair_controller.rs:755-763 | rounding the chunk length up never makes more chunks than aimed for |
| Controller.TargetAims | crates/par2-rs/src/cpu_repair_controller.rs:755-760 | with even shares of at most half the ideal chunk, as many chunks as come nearest to the ideal; otherwise equally many for each worker, nearest to the ideal in its share |
| Controller.AimsOnce | crates/par2-rs/src/cpu_repair_controller.rs:755-760 | that description fits one number only |
| Controller.ChunkIsLeast | crates/par2-rs/src/cpu_repair_controller.rs:761-761 | so many chunks cover the padded slice, and chunks one stride shorter would not |
| Controller.NewLayout | crates/par2-rs/src/cpu_repair_controller.rs:740-776 | one stride of slack beyond the slice, the shortest whole-stride chunks that the number aimed for covers it with, just enough of them, every assignment on stride boundaries and by a worker that exists |
| Lifecycle.TilesCover | crates/par2-rs/src/cpu_repair_controller.rs:548-597 | every input handed over is in exactly one batch |
| Lifecycle.BatchesSum | crates/par2-rs/src/cpu_repair_controller.rs:548-597 | worked through in order, the first batch replacing and the others adding, the batches leave the sum over every input once, whatever the output held before |
| Lifecycle.ControllerLifecycle.constructor | crates/par2-rs/src/cpu_repair_controller.rs:372-388 | starts with both areas free and no batch |
| Lifecycle.ControllerLifecycle.Submit | crates/par2-rs/src/cpu_repair_controller.rs:548-597 | the staged inputs become the next batch in order, areas alternate, and an area being worked on keeps its inputs |
| Lifecycle.ControllerLifecycle.AddInput | crates/par2-rs/src/cpu_repair_controller.rs:440-487 | refused with nothing changed exactly when the area is being worked on; otherwise the input takes the next slot, and a batch is submitted exactly for a flush, a full group, or the least batch with no area at work |
| Lifecycle.ControllerLifecycle.EndInput | crates/par2-rs/src/cpu_repair_controller.rs:503-523 | a partial batch is flushed, so the batches tile every input |
| Lifecycle.ControllerLifecycle.CompleteBatch | crates/par2-rs/src/cpu_repair_controller.rs:525-530 | frees its area only, after which a refused add is accepted |
| Names.UnicodeNames.Add | crates/par2-rs/src/par2_set.rs:89-111 | first spelling kept, the same again a duplicate, a different one a lasting disagreement, none past the set limit |
| Names.UnicodeNames.Apply | crates/par2-rs/src/par2_set.rs:116-137 | in whatever order names are visited each file takes its agreed spelling or gets its own name back |
| NamesOrder.Collect | crates/par2-rs/src/par2_set.rs:461-541 | the names' part of a scan or merge is its packets in turn, then one application |
| NamesOrder.ApplyStep | crates/par2-rs/src/par2_set.rs:116-137 | applying the names gives every file the one translatable spelling its packets agree on, else the description's own |
| NamesOrder.RunInv | crates/par2-rs/src/par2_set.rs:54-66 | over any run of scans and merges within the limit, names end as the packets received say, whatever was applied in between |
| NamesOrder.OrderIndependent | crates/par2-rs/src/par2_set.rs:61-66 | the same packets in any order and any split into merges give every file the same name |
| Inventory.RetainedAsForetold | crates/par2-rs/src/par2_set.rs:681-706 | a packet is retained exactly when would_retain says so, and nothing of any other is kept |
| Inventory.DuplicateStays | crates/par2-rs/src/par2_set.rs:663-679 | a packet bound to be a duplicate stays so whatever arrives later |
| Inventory.StillBooked | crates/par2-rs/src/par2_set.rs:744-837 | the packets retained are one for each key held, and all that is held |
| InventoryFirsts.RetainedFirst | crates/par2-rs/src/par2_set.rs:681-706 | a packet is retained exactly when no packet before it was for the same ID, exponent or set, fewer than 32768 IDs of its kind came before, and the exponent is at most 65535 |
| InventoryFirsts.HeldAreFirsts | crates/par2-rs/src/par2_set.rs:744-837 | after any packets the inventory holds exactly those first ones |
| InventoryFirsts.DuplicateWhen | crates/par2-rs/src/par2_set.rs:744-837 | a packet is a duplicate exactly when one was retained for its key, for a Main the same one and for a spelling if it repeats one or they disagree already; another Main is a conflict |
| Inventory.PacketScanBudget.ChargeBytes | crates/par2-rs/src/packet/budget.rs:261-277 | the byte meter moves exactly when the limit allows |
| Inventory.PacketScanBudget.ChargeRetained | crates/par2-rs/src/packet/budget.rs:282-297 | both meters move or neither does |
| Inventory.Builder.AddPacket | crates/par2-rs/src/par2_set.rs:744-837 | each packet is placed, refused or in conflict as its kind demands, and retained ones are entered once |
| Inventory.Builder.AddPacketBudgeted | crates/par2-rs/src/par2_set.rs:717-742 | charged for exactly the packets retained; a refused charge changes neither builder nor budget |
| Inventory.ScanInto | crates/par2-rs/src/par2_set.rs:596-621 | after the packets before the one refused, or all of them, the holdings are the fold of those packets and both meters have moved by exactly the ones retained; the refused one is a conflict or does not fit, and has changed nothing |
| Inventory.ChargeExactWhen | crates/par2-rs/src/par2_set.rs:708-716 | the charge for a scan is the cost of what is held exactly when no two of its packets spell a file's name differently |
| Inventory.ContradictionStillCharged | crates/par2-rs/src/par2_set.rs:89-111 | scanning two spellings of one file leaves nothing held and the meters at one packet and the first one's cost |
| Loader.InventoryLoader.FlushOne | crates/par2-rs/src/repairer.rs:2066-2097 | handing back a waiting packet's charge always leaves room to charge it again |
| Loader.InventoryLoader.Flush | crates/par2-rs/src/repairer.rs:2066-2097 | every waiting packet of the active set reaches the builder in order, the others are counted, and none is refused |
| Loader.InventoryLoader.Accept | crates/par2-rs/src/repairer.rs:2126-2180 | refused exactly for want of room: to wait before the set is known, or to be retained after |
| Loader.InventoryLoader.Finish | crates/par2-rs/src/repairer.rs:2099-2122 | without a Main packet everything waiting is taken, and never refused |
| Loader.LoadInventory | crates/par2-rs/src/repairer.rs:1930-1953 | a whole load ends as if the active set had been known from the first packet: holdings, charges and counts |
| Placement.Directory.Rename | crates/par2-rs/src/disk.rs:190-228 | moves the entry, replacing any at the target, or changes nothing |
| Placement.Swap | crates/par2-rs/src/placement.rs:351-396 | the files left by every pattern of refused renames |
| Placement.OneRefusalRestores | crates/par2-rs/src/placement.rs:340-346 | with at most one rename refused a swap happens in full or not at all |
| Placement.SwapConserves | crates/par2-rs/src/placement.rs:378-390 | data is lost exactly when the third rename and the first undoing one are refused and the second undoing one is not |
| Plans.Classify | crates/par2-rs/src/placement.rs:250-318 | the loop with its seen set computes the plan of the listed IDs |
| Plans.ClassifiedIs | crates/par2-rs/src/placement.rs:250-318 | every ID found is filed as exact, swapped or renamed, each swap for a file not yet dealt with, and exactly the files in place are called exact |
| Plans.SwapRightWhen | crates/par2-rs/src/placement.rs:281-290 | a swap puts its second file right exactly when that file's own name is where the first was |
| Plans.ChainPlan | crates/par2-rs/src/placement.rs:281-318 | a chain of two puts one ID in both the renames and the swaps |
| Plans.ChainGoesWrong | crates/par2-rs/src/placement.rs:347-433 | carrying that plan out leaves neither file at its own name |
| Plans.ApplyPlan | crates/par2-rs/src/placement.rs:347-433 | ends in the swaps then the renames, counting the files moved; stops only for a refused rename or a missing source, and one refusal loses nothing |
| Rings.ShortRingsComeRight | crates/par2-rs/src/placement.rs:250-433 | when taken names are in rings of two or three, every listing ends with each file at its own name, or where it was because an unknown file has that name |
| Rings.ChainNeverRight | crates/par2-rs/src/placement.rs:250-433 | where a taken name is held by a file whose own name is free of known files, one of the two ends wrong for every listing |
| Rings.LongRingGoesWrong | crates/par2-rs/src/placement.rs:250-433 | in a ring of four or more, listing a file and then the next but one leaves the one between them wrong |
| Rings.RightForEveryListing | crates/par2-rs/src/placement.rs:250-433 | every listing of the IDs puts every file right exactly when all taken names are in rings of two or three |
| Rings.ScanAndApply | crates/par2-rs/src/placement.rs:250-433 | classifying and applying on disk gives that result, so short rings come right |

## Left out

- CPU feature detection: which vector unit the host has is a parameter.
- The vector multiply kernels: the field operation they apply is taken as given.
- Tiled.InvertTiled: works on rows as values; updating the two buffers in place and sharing the outside rows between threads are not modelled.
- Matrices.GaussianEliminateVandermonde: models the row-batched elimination; from 256 rows on the source hands the same system to the tiled inverter, which `Tiled.InvertTiled` shows to end the same way.
- Repair.BuildRepairMatrix: solves with the row-batched elimination at every size, for the same reason.
- The buffers of the fast transform and of the transformed solve: both are modelled at one word as the sums of their stages, so what each arena holds when, batches of sources and the tables that say which rows are wanted are not. Whether a transform plan can be built, its fold count and its sizes are parameters of the gate.
- `build` of the closed-form solve: that it rejects repeated constants is a parameter of the gate, and the order of cancellation checks is not modelled.
- TransformRun.Run: read back from the files, a word is claimed to balance only where no missing slice's file ends inside it.
- Packet parsing, headers and hashes: packets are values. Examined-packet counts, cancellation, progress reports, purge lists and the duplicate count of a load are not modelled.
- The record a loader keeps of a waiting packet the builder already holds: while packets wait the builder is empty, so `Loader.InventoryLoader.Stage` shows that none is ever made.
- The first two passes of `scan_placement`, which read and hash files: the scan's matches are a parameter, with conflicting IDs already removed.
- Files that vanish between a scan and its plan: a swap's two files are taken to be there.
- The CRC and MD5 library and assembly routines: their results are taken to be the standard checksums of the bytes fed.
- Machine-word overflow of sizes, except where the code tests for it: the geometry budget, the gate's saturating products, MD5 lengths and the byte counts named above.
- The MD5 sine constants: the schedule's 64 constants are compared with a table of their own, and `Md5Values.AbcDigest` uses every one of them; that the table holds sines is not proved.
- Md5Lanes.NewPlan: a message leaves room for nine more bytes below 2^64, without which the source's length arithmetic overflows.
- NamesOrder.OrderIndependent: taken within the 32768-file limit and with one description for each file ID, beyond which first arrival decides.
- `merge_packets` outside file names: its checksum and recovery-slice rules differ from the builder's and are not compared.
- `input_grouping` and the staging width of the controller, and its execution trace.
