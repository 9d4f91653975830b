# Verification of the hand-optimised kernels

A Dafny model of the kernels of this repository that are written for speed: the in-place and the
constant-geometry fast Fourier transforms, the register-resident 7x7 convolutions, the dynamic
program, stencil and wavelet transforms that overwrite their own input, the blocked integer matrix
product, a matrix product shared by several cores, and the embedded `printf`. Each kernel is an
imperative method with the loops, strides, registers and pointers of the C code, proved against the
plain definition of what it computes.

`dafny verify dfyconfig.toml` checks everything.

## How it is built

* **Arithmetic.** The float kernels run over an arbitrary commutative ring (`Rings.dfy`; exact reals
  and complex numbers over any such ring are instances) or directly over exact reals. The integer
  convolution and matrix product run over the integers modulo 2^64, which are proved to be such a
  ring, so the same proofs apply. The Q15 transform, the dynamic program and `printf` use explicit
  16-, 32- and 64-bit wrap-around.
* **Vector unit.** A register is a sequence of exactly vl lanes. `vsetvl` returns min(AVL, VLMAX) for an
  arbitrary VLMAX (section 6.3 of the RISC-V "V" Vector Extension 1.0). Slides follow section 16.3 of that
  document; a slide that would bring in lanes from beyond vl must prove that no active lane asks for one.
  Every instruction is a method, so a kernel knows of it exactly what its contract says.
* **Memory.** Matrices are two-dimensional arrays or sequences of rows where the C code indexes
  row-major memory. The matrix product keeps flat memory and running pointers and proves that they
  stay inside. Arrays that the C code requires to be distinct are required to be distinct.
* **Concurrency.** The shared matrix product is a transition system: every shared write, every trip of the
  inner loop and every step of the sense-reversing barrier is one step of one core, and theorems hold
  for every schedule.

| files | what they model |
|---|---|
| `Bits`, `Dft`, `Butterflies`, `FftScalar`, `FftTime`, `FftSwap`, `Fft` | scalar radix-2 transforms, both routes |
| `FftReals` | the transform written out in real numbers |
| `VectorUnit`, `FftVector` | `fft_r2dif_vec` |
| `FftFixed`, `FftError` | the Q15 transform, and its distance from the exact one |
| `Conv`, `ConvSums`, `ConvColumns`, `ConvRows`, `FConv3d`, `IConv2d` | 7x7 convolutions |
| `Pathfinder`, `PathfinderVector` | cheapest paths |
| `Dwt`, `DwtInverse`, `DwtWalsh` | Haar wavelet transform, its inverse and its closed form |
| `Jacobi2d` | five-point stencil |
| `IMatmul` | blocked integer matrix product |
| `Spmd`, `SpmdBarrier`, `SpmdMemory`, `SpmdRuns` | matrix product on several cores |
| `PrintfNumber`, `PrintfDigits`, `Printf` | `printf` |
| `PrintfNumeral`, `PrintfMeaning`, `PrintfParse`, `PrintfFormats` | what its output says: numerals, conversions, directives, whole formats |

## Where the code does not do what one would expect

* `run` (pathfinder) is right in later runs only if the number of rows is even: line 41 otherwise makes
  source and destination the same buffer. `Pathfinder.RunIsRightIff` gives the exact condition, with a
  wall that fails.
* `run_vector_short_m4` chooses the register to store inside the loop and with unsigned differences.
  It leaves the last row for every wall exactly when there are 2 rows, or 7, 10, 13, ...
  (`PathfinderVector.ShortM4IsRightIff`). The same choice after the loop is right for every number of
  rows (`PathfinderVector.RunVectorShortM4StoreLast`).
* The copy loop of `run_vector` (pathfinder) asks every strip for all columns, so its last store can reach
  behind the row: with 5 columns and VLMAX 4 it stores columns 4 to 7 (`PathfinderVector.CopyLeavesRow`).
  It stays inside the row if and only if the row fits one strip or VLMAX divides the number of columns
  (`PathfinderVector.CopyStaysInRowIff`). Where it does reach behind the row, it leaves cells of the next
  row of the wall there, and the result is right all the same (`PathfinderVector.RunVector`).
* The comment at `apps/common/printf.h:79-80` says that a truncated call returns count. The code returns the
  length of the whole text. A text of less than 2^31 characters keeps the promise if and only if it has at
  most count characters (`Printf.ReturnsCountIff`, and the contract of `Printf.Snprintf`); the format "ab"
  with count 1 returns 2 (`Printf.ReturnsMoreThanCount`).
* `printf` formats a number in a buffer of 32 characters. Zeros up to the width or the precision can fill it and
  leave no room for the sign: `%040d` of -5 prints 32 digits and no minus (`PrintfMeaning.SignIsLost`). The minus
  sign is there if and only if the argument is negative and the - flag is set, or the precision is below 32 and
  a zero-padded width is at most 32 (`PrintfMeaning.MinusIff`).
* The prefix of the # flag overwrites digits when the digits fill the width: `%#4x` of 0x1234 prints 0x34
  (`PrintfMeaning.DigitsAreLost`). For every directive, the number printed is right if and only if it is below
  base^(number of digits printed) (`PrintfMeaning.IntegerIs`); without the # flag that is always so, but for binary
  numbers of more than 32 digits (`PrintfMeaning.NothingLost`).
* The wavelet transform recurses into the differences, which it keeps in front, not into the averages;
  the model does the same.

## Model

| member | source | states |
|---|---|---|
| Bits.RevRev | apps/fft/kernel/fft.c:194-207 | reversing n bits twice gives the number back |
| Dft.EvenOutput | apps/fft/kernel/fft.c:292-337 | output 2q of the transform is output q of the transform of the half sums, for the squared root |
| Dft.OddOutput | apps/fft/kernel/fft.c:292-337 | output 2q + 1 is output q of the transform of the twiddled half differences |
| Dft.LowOutput | apps/fft/kernel/fft.c:247-290 | output j combines the transforms of the even and the odd samples |
| Dft.HighOutput | apps/fft/kernel/fft.c:247-290 | output j + M is the same combination with a minus sign |
| Butterflies.RunLayer | apps/fft/kernel/fft.c:307-320 | the two inner loops, in place with their stepped indices, compute exactly one out-of-place layer |
| Butterflies.RunPairLayer | apps/fft/kernel/fft.c:324-335 | the separate loop for the layer without twiddles is the layer of neighbouring pairs |
| Butterflies.LayerConcat | apps/fft/kernel/fft.c:307-320 | a layer acts on each run of whole blocks by itself |
| FftScalar.RunDif | apps/fft/kernel/fft.c:292-337 | the loop nest, stopped by n_break or not, leaves the layers it let through applied to the old data |
| FftScalar.DifConcat | apps/fft/kernel/fft.c:292-337 | after the first layer both halves are transformed independently |
| FftScalar.DifIsDft | apps/fft/kernel/fft.c:292-337 | for any commutative ring and root with w^(N/2) = -1, all layers leave output k of the discrete Fourier transform at the bit reversal of k |
| FftTime.RunDit | apps/fft/kernel/fft.c:247-290 | the decimation-in-time loop nest computes its layers in place |
| FftTime.DitIsDft | apps/fft/kernel/fft.c:247-290 | on bit-reversed input it leaves the transform in natural order |
| FftSwap.SetupR2SwapTable | apps/fft/kernel/fft.c:194-207 | the table built by doubling is bit reversal, and its 16-bit entries do not overflow up to N = 2^15 |
| FftSwap.RevTableIsInvolution | apps/fft/kernel/fft.c:194-207 | the table undoes itself |
| FftSwap.SwapSamples | apps/fft/kernel/fft.c:180-192 | the in-place swap applies an involution exactly once to every element |
| Fft.DifReordered | apps/fft/kernel/fft.c:180-207 | reordering the result of the frequency route by the table gives the transform |
| Fft.DitReordered | apps/fft/kernel/fft.c:243-290 | reordering the input of the time route gives the transform |
| Fft.RoutesAgree | apps/fft/kernel/fft.c:243-337 | both routes leave the same array, for every input and every power of two |
| Fft.VectorIsDifRoute | apps/fft/kernel/fft.c:180-192 | what fft_r2dif_vec leaves is the array that the in-place frequency route and SwapSamples leave, whatever w is |
| Fft.DifRoute | apps/fft/kernel/fft.c:292-337 | Radix2FFT_DIF_float with n_break >= log2 N, then SwapSamples: y[k] is the sum of x[j]·w^(jk) |
| Fft.DitRoute | apps/fft/kernel/fft.c:247-290 | SwapSamples, then Radix2FFT_DIT_float: the same |
| FftReals.TransformIs | apps/fft/kernel/fft.c:238-241 | over complex numbers with real parts, a transform for w = u + iv is two real sums of products with the powers of w, written out |
| FftReals.RootIs | apps/fft/kernel/fft.c:324-335 | w is a root in the sense of the transforms if and only if its power N/2, by real multiplication, is -1 |
| FftReals.FourSamples | apps/fft/kernel/fft.c:292-337 | the instance of four samples and root -i: all eight real outputs, with their signs |
| FftVector.HalvePosition | apps/fft/kernel/fft.c:646-658 | which lane of which wing holds a sample when the block size is halved |
| FftVector.StageSums | apps/fft/kernel/fft.c:678-721 | sum and twiddled difference of the wings are one in-place layer, in the layout of the stage |
| FftVector.StageRegroup | apps/fft/kernel/fft.c:681-736 | slides, mask and merge move the wings to the layout of the next stage |
| FftVector.RegroupFirst | apps/fft/kernel/fft.c:616-658 | the first permutation, whose slide up needs no mask |
| FftVector.RegroupLater | apps/fft/kernel/fft.c:681-736 | the later permutations; no active lane reads beyond vl |
| FftVector.NextStage | apps/fft/kernel/fft.c:660-737 | a stage advances the state of the in-place transform by one layer |
| FftVector.FirstStage | apps/fft/kernel/fft.c:612-658 | keeps the invariant: lane t of the wings holds positions P and P + S of the in-place transform |
| FftVector.LaterStage | apps/fft/kernel/fft.c:660-737 | keeps the same invariant, without a permutation in the last stage |
| FftVector.RunStages | apps/fft/kernel/fft.c:576-737 | after all stages the wings hold the in-place transform, in bit-reversed order |
| FftVector.StoresUnscramble | apps/fft/kernel/fft.c:739-747 | the indexed stores of the two wings undo the bit-reversed order |
| FftVector.StoredTransform | apps/fft/kernel/fft.c:739-747 | for a root of unity what they leave is the transform |
| FftVector.FftR2DifVec | apps/fft/kernel/fft.c:559-748 | for any table of powers of w it leaves the in-place frequency layers out of bit-reversed order, and for a root of unity the transform, for every power of two N >= 4 with N/2 <= VLMAX |
| FftFixed.ProductInDisc | apps/fft/kernel/fft.c:138-147 | the complex product of vectors of lengths r and q has length at most r·q |
| FftFixed.ButterflyFits | apps/fft/kernel/fft.c:105-108 | inside the disc of radius 16383 no 16- or 32-bit intermediate of the butterfly overflows |
| FftFixed.FixedIsExact | apps/fft/kernel/fft.c:105-108 | where nothing overflows, the wrapping code computes the exact floor of the scaled butterfly |
| FftFixed.ButterflyInDisc | apps/fft/kernel/fft.c:105-108 | a layer widens the disc by at most 2, halving and truncation included |
| FftFixed.BoundAfter | apps/fft/kernel/fft.c:97-115 | after s layers re² + im² <= (r + 2s)² for every sample |
| FftFixed.NoOverflow | apps/fft/kernel/fft.c:87-147 | for 13-bit samples no butterfly of any layer has an intermediate outside its type |
| FftFixed.RunExact | apps/fft/kernel/fft.c:87-127 | the whole 16-bit run equals the run on unbounded integers, unscaled last layer included |
| FftFixed.ExactIsRounded | apps/fft/kernel/fft.c:105-108 | for all inputs: 2·up <= a + b <= 2·up + 1 and 65536·low <= (a - b)·w < 65536·(low + 1) in both parts, the complex product written out |
| FftFixed.FixedIsRounded | apps/fft/kernel/fft.c:105-147 | the same of the wrapping 16-bit butterfly wherever its intermediates fit their types, and plain sum and difference in the last layer |
| FftFixed.Radix2FFTDif | apps/fft/kernel/fft.c:87-127 | for 13-bit samples the in-place 16-bit method leaves the layers of the rounded butterflies on unbounded integers |
| FftError.RootIsUnit | apps/fft/kernel/fft.c:149-161 | every root of the transforms has modulus 1 |
| FftError.DistanceFromDft | apps/fft/kernel/fft.c:87-127 | output k of the rounded layers differs from the discrete Fourier transform of the samples over 2^(n-1) by at most (n - 1)(3 + 32766·delta), delta being the error of the table |
| FftError.DifOfInts | apps/fft/kernel/fft.c:87-127 | what the in-place method leaves for 13-bit samples is that close to the scaled transform, for every power of two |
| Conv.FoldIsBlocks | apps/fconv3d/fconv3d_3x7x7.c:119-213 | an accumulator filled channel by channel, column by column, row by row holds its finished and unfinished filter rows |
| Conv.FoldIsRows | apps/fconv3d/fconv3d_3x7x7.c:119-213 | after all channels the filter rows of the group are complete |
| Conv.RowsIsOut | apps/fconv3d/script/gen_data.py:109-111 | seven complete filter rows are the sum over the channels of the 7x7 convolutions |
| ConvSums.OutIsSum | apps/fconv3d/script/gen_data.py:109-111 | the output is the one sum over all t < 49·C of f[t] times the pixel of channel t / 49 at (r + t % 49 / 7, c + t % 7) |
| ConvSums.ImpulseResponse | apps/fconv3d/script/gen_data.py:109-111 | an image that is one at (p, q) of channel h and zero elsewhere gives f[49h + 7(p - r) + (q - c)] where both differences lie in 0 .. 6, and zero elsewhere |
| ConvSums.SumOfReals | apps/fconv3d/fconv3d_3x7x7.c:155-160 | over the reals it is that sum with + and * of real numbers, every index in range |
| ConvSums.SumOfInt64s | apps/iconv2d/iconv2d_7x7.c:313-327 | over 64-bit integers it is the sum over unbounded integers, wrapped once |
| ConvColumns.Head4Column | apps/fconv3d/fconv3d_3x7x7.c:157-182 | one filter column on output rows 0 to 3, with vfmul only at the very first |
| ConvColumns.Head3Column | apps/fconv3d/fconv3d_3x7x7.c:253-289 | one filter column on all seven accumulators, three input rows |
| ConvColumns.RegimeColumn | apps/iconv2d/iconv2d_7x7.c:305-352 | one filter column of one input row on seven neighbouring output rows, its coefficients loaded at once |
| ConvColumns.RegimeColumnAhead | apps/fconv3d/fconv3d_3x7x7.c:449-487 | the same column while each of f6_buf .. f0_buf is overwritten by the next column once it was used: every use finds the coefficient of the column due, and at the end all seven hold the next column |
| ConvColumns.RegimeLastColumnAhead | apps/fconv3d/fconv3d_3x7x7.c:489-506 | the last column of a channel, the buffers going over to the first column of the next channel |
| ConvColumns.RegimeFinish | apps/fconv3d/fconv3d_3x7x7.c:509-531 | the last column of a row, from fl6 .. fl0, the buffers going back to the first column of channel 0 |
| ConvColumns.Tail4Column | apps/fconv3d/fconv3d_3x7x7.c:692-720 | one filter column of the four input rows before the last three |
| ConvColumns.Tail3Column | apps/fconv3d/fconv3d_3x7x7.c:842-850 | one filter column of the last three input rows |
| ConvRows.RotateSlides | apps/fconv3d/fconv3d_3x7x7.c:512-530 | once an output row is finished, moving the registers up restores the invariant of the regime |
| ConvRows.Store | apps/fconv3d/fconv3d_3x7x7.c:514 | a stored row is the convolution; every other row, and every column outside the strip, stays as it was |
| FConv3d.Channels | apps/fconv3d/fconv3d_3x7x7.c:119-213 | a phase outside the regime over all channels takes every accumulator from what the phase starts with to what it ends with |
| FConv3d.RegimeChannel | apps/fconv3d/fconv3d_3x7x7.c:420-487 | six columns of a channel: the coefficient buffers, reloaded one by one, always hold the coefficient about to be used |
| FConv3d.RegimeRow | apps/fconv3d/fconv3d_3x7x7.c:419-534 | one input row over all channels finishes one output row; the buffers go from column to column, from channel to channel and on to the next row |
| FConv3d.Block | apps/fconv3d/fconv3d_3x7x7.c:78-884 | every output row of the strip becomes the convolution, nothing else changes, and the output pointer has moved down one row a store |
| FConv3d.FConv3dCHx7x7 | apps/fconv3d/fconv3d_3x7x7.c:55-76 | for every channel count, even M >= 8, any N and any VLMAX every output is the sum over all f[t] and their pixels |
| FConv3d.OverReals | apps/fconv3d/fconv3d_3x7x7.c:55-76 | on doubles, taken as exact reals: every output is that sum in real arithmetic |
| IConv2d.PhaseAhead | apps/iconv2d/iconv2d_7x7.c:91-284 | a phase on the rows at hand, the next rows loaded before its last column is used |
| IConv2d.Head | apps/iconv2d/iconv2d_7x7.c:91-284 | after rows 0 to 6 output row 0 is complete and the registers are at the head of the regime |
| IConv2d.UnrollZero | apps/iconv2d/iconv2d_7x7.c:305-352 | one input row, with the next one prefetched into v2 |
| IConv2d.UnrollOne | apps/iconv2d/iconv2d_7x7.c:354-409 | the half with its first column peeled off and a break in the loop |
| IConv2d.Block | apps/iconv2d/iconv2d_7x7.c:72-559 | every output row of the strip becomes the convolution, nothing else changes, and the output pointer has moved down one row a store |
| IConv2d.IConv2d7x7 | apps/iconv2d/iconv2d_7x7.c:49-70 | for even R >= 8, any C and any VLMAX every output is the sum over all f[7a + b] and pixels (r + a, c + b) |
| IConv2d.OverInt64 | apps/iconv2d/iconv2d_7x7.c:49-70 | on 64-bit integers: every output is that sum over unbounded integers, wrapped once |
| Rings.Int64sAreCommRing | apps/iconv2d/iconv2d_7x7.c:117-142 | vmul and vmacc on int64_t, which wrap, satisfy the ring laws |
| Rings.ComplexIsCommRing | apps/fft/kernel/fft.c:238-241 | the complex product of the kernels makes pairs over a commutative ring a commutative ring |
| Rings.RealOps | apps/fconv3d/fconv3d_3x7x7.c:155-160 | the ring of the float kernels has the operations and the units of the real numbers |
| Pathfinder.RunRow | apps/pathfinder/kernel/pathfinder.c:31-38 | one row of the program; with one buffer instead of two, the row that reads overwritten left neighbours |
| Pathfinder.Run | apps/pathfinder/kernel/pathfinder.c:14-44 | which buffer is returned and what it holds, for every number of runs and rows |
| Pathfinder.Recurrence | apps/pathfinder/kernel/pathfinder.c:31-38 | overflow or not, a cell is its cost plus the least of the at most three cells above it, modulo 2^32 in two's complement |
| Pathfinder.CellIsExact | apps/pathfinder/kernel/pathfinder.c:37 | without overflow the 32-bit program is the one on unbounded integers |
| Pathfinder.NoPathIsCheaper | apps/pathfinder/kernel/pathfinder.c:27-39 | no path that ends in a cell costs less than the cell says |
| Pathfinder.SomePathCosts | apps/pathfinder/kernel/pathfinder.c:27-39 | and some path costs exactly that |
| Pathfinder.CellIsCheapest | apps/pathfinder/kernel/pathfinder.c:14-44 | so the program finds the minimum over all row-to-row paths that move by at most one column |
| Pathfinder.SmallCostsDoNotOverflow | apps/pathfinder/kernel/pathfinder.c:37 | a bound on the costs that rules overflow out |
| Pathfinder.BonusLeaks | apps/pathfinder/kernel/pathfinder.c:40-41 | a wall on which a later run with an odd number of rows is wrong |
| Pathfinder.RunIsRightIff | apps/pathfinder/kernel/pathfinder.c:14-44 | run is right for every wall if and only if it runs once, or rows is even, or there is one column |
| PathfinderVector.RunVectorStrip | apps/pathfinder/kernel/pathfinder.c:72-89 | one strip in place, aux carrying the old value that was overwritten |
| PathfinderVector.CopyStaysInRowIff | apps/pathfinder/kernel/pathfinder.c:61-65 | the copy loop stays inside a row of cols cells if and only if cols is at most VLMAX or a multiple of it; it never reaches a whole strip behind the row |
| PathfinderVector.CopyLeavesRow | apps/pathfinder/kernel/pathfinder.c:61-65 | with 5 columns and VLMAX 4 it stores up to cell 7 |
| PathfinderVector.RunVectorOnce | apps/pathfinder/kernel/pathfinder.c:60-91 | one run leaves the last row of the two-buffer program, and behind it exactly the cells of the wall that the copy loop put there |
| PathfinderVector.RunVector | apps/pathfinder/kernel/pathfinder.c:46-92 | for every number of columns, runs and every VLMAX the in-place strips leave the row of the two-buffer program, and change nothing behind the end of the copy loop |
| PathfinderVector.ThreeRows | apps/pathfinder/kernel/pathfinder.c:121-171 | v0, v4 and v16 hold rows t + 1, t + 2 and t + 3 wherever those exist |
| PathfinderVector.RunVectorShortM4 | apps/pathfinder/kernel/pathfinder.c:99-180 | which row the code as written leaves in result_v |
| PathfinderVector.ShortM4IsRightIff | apps/pathfinder/kernel/pathfinder.c:172-177 | it is the last row for every wall if and only if rows is 2, or at least 7 and 1 modulo 3 |
| PathfinderVector.RunVectorShortM4StoreLast | apps/pathfinder/kernel/pathfinder.c:172-177 | with the choice after the loop the last row is left for every number of rows |
| Dwt.MaskIsModulo | apps/dwt/kernel/wavelet.c:46 | masking with n - 1 is reduction modulo n for a power of two |
| Dwt.TapIndex | apps/dwt/kernel/wavelet.c:43-46 | the masked indices of the two taps are i and i + 1 |
| Dwt.DwtStep | apps/dwt/kernel/wavelet.c:25-57 | in place, no sample is overwritten before its last read: one out-of-place level |
| Dwt.WaveletTransform | apps/dwt/kernel/wavelet.c:59-77 | all levels, or only the first |
| Dwt.StripFits | apps/dwt/kernel/wavelet.c:97-101 | for powers of two the doubled strips are even and never run past the samples |
| Dwt.Strip | apps/dwt/kernel/wavelet.c:104-129 | one strip: strided loads ahead of the stores into the same array |
| Dwt.DwtStepVector | apps/dwt/kernel/wavelet.c:82-140 | the strip-mined level leaves what the scalar one leaves |
| Dwt.WaveletTransformVector | apps/dwt/kernel/wavelet.c:143-169 | so does the whole transform, at every level |
| DwtWalsh.HaarStep | apps/dwt/kernel/wavelet.c:25-57 | one level leaves c·(s[2i] - s[2i+1]) in front and c·(s[2i] + s[2i+1]) behind |
| DwtWalsh.TransformIs | apps/dwt/kernel/wavelet.c:59-77 | the closed form of all levels: every output is a power of c times a signed sum of its own stretch of the samples |
| DwtInverse.PairEnergy | apps/dwt/kernel/wavelet.h:27-29 | with 2c² = 1 difference and average of a pair keep its energy |
| DwtInverse.LevelsEnergy | apps/dwt/kernel/wavelet.c:59-77 | the whole transform keeps the sum of squares |
| DwtInverse.LevelsBack | apps/dwt/kernel/wavelet.c:59-77 | an explicit inverse restores every input |
| DwtInverse.LevelsForth | apps/dwt/kernel/wavelet.c:59-77 | and the transform restores every output of the inverse |
| Jacobi2d.J2dScalar | apps/jacobi2d/kernel/jacobi2d.c:78-92 | both grids after any number of time steps |
| Jacobi2d.ThreeRows | apps/jacobi2d/kernel/jacobi2d.c:172-235 | at row i the registers v0, v4, v8 hold rows i - 1, i, i + 1 and izq, der the two cells outside the strip; three rows on, they do so again |
| Jacobi2d.Kernel | apps/jacobi2d/kernel/jacobi2d.c:146-237 | one sweep, strip by strip, boundary cells untouched |
| Jacobi2d.J2dVector | apps/jacobi2d/kernel/jacobi2d.c:94-100 | j2d_v leaves in both grids what j2d_s leaves, for every size, step count and VLMAX |
| Jacobi2d.BoundaryStays | apps/jacobi2d/kernel/jacobi2d.c:80-91 | boundary cells keep their values through all time steps |
| Jacobi2d.StaysWithin | apps/jacobi2d/kernel/jacobi2d.c:80-91 | the maximum principle: no value leaves the range of the initial ones |
| Jacobi2d.Recurrence | apps/jacobi2d/kernel/jacobi2d.c:80-91 | one more time step: every interior cell of B is a fifth of the cell of A and its four neighbours, every interior cell of A the same of the new B, and all other cells stay |
| Jacobi2d.ImpulseResponse | apps/jacobi2d/kernel/jacobi2d.c:80-85 | a single 1.0 leaves 0.2 at exactly the interior cells among it and its four neighbours, 0.0 elsewhere |
| Jacobi2d.SweepIsLinear | apps/jacobi2d/kernel/jacobi2d.c:80-85 | a sweep of x·f + y·g is x times the sweep of f plus y times that of g |
| Jacobi2d.StepsAreLinear | apps/jacobi2d/kernel/jacobi2d.c:80-91 | so are all time steps, in both grids |
| Jacobi2d.PlanesStay | apps/jacobi2d/kernel/jacobi2d.c:80-91 | every grid x + y·i + z·j stays as it is through all time steps |
| IMatmul.IndexInStretch | apps/imatmul/kernel/imatmul.c:58-67 | row-major addresses of different entries differ |
| IMatmul.LoadA | apps/imatmul/kernel/imatmul.c:95-98 | every scalar load is inside A, at the entry meant |
| IMatmul.LoadB | apps/imatmul/kernel/imatmul.c:119-121 | every vector load is inside B |
| IMatmul.Column | apps/imatmul/kernel/imatmul.c:116-128 | one column of A on all accumulators, each scalar replaced by the next one after its use |
| IMatmul.Accumulate | apps/imatmul/kernel/imatmul.c:82-151 | row n of B is always there with column n of A, ping-pong, and nothing beyond N is loaded |
| IMatmul.Kernel | apps/imatmul/kernel/imatmul.c:82-162 | the block of C becomes the product, all other entries stay |
| IMatmul.Blocked | apps/imatmul/kernel/imatmul.c:42-73 | strips of columns, blocks of rows: all of C |
| IMatmul.IMatmul | apps/imatmul/kernel/imatmul.c:24-36 | the dispatcher writes A·B for every even N >= 2 and every M that is a multiple of its block |
| IMatmul.DotIsSum | apps/imatmul/kernel/imatmul.c:116-128 | an accumulator is the sum of a[m·N + k]·b[k·P + p] over flat memory, every index in range |
| IMatmul.OverInt64 | apps/imatmul/kernel/imatmul.c:24-36 | on 64-bit integers every entry of C is that sum over unbounded integers, wrapped once |
| Spmd.SharesDisjoint | apps/riscv-tests/mt/ae_matmul.c:40 | the rows of different cores do not meet |
| Spmd.Owner | apps/riscv-tests/mt/ae_matmul.c:40 | and every row has an owner |
| SpmdBarrier.RoundAfter | apps/riscv-tests/mt/ae_matmul.c:39-107 | the loop headers lead to a place exactly one barrier further on |
| SpmdBarrier.ArriveStep | apps/riscv-tests/benchmarks/common/util.h:50-53 | flipping the own sense and counting the arrival keeps the barrier's invariant |
| SpmdBarrier.ReleaseStep | apps/riscv-tests/benchmarks/common/util.h:55-56 | so does opening the barrier |
| SpmdBarrier.BarrierStep | apps/riscv-tests/benchmarks/common/util.h:44-62 | and every other step of every core |
| SpmdBarrier.AllMeet | apps/riscv-tests/benchmarks/common/util.h:44-62 | nobody is past a barrier before everybody has arrived at it |
| SpmdBarrier.NeverStuck | apps/riscv-tests/benchmarks/common/util.h:44-62 | if no core can move, all are finished |
| SpmdMemory.ReadsAreWritten | apps/riscv-tests/mt/ae_matmul.c:49-98 | no core reads an entry of BB before it is written, and what it reads is the transpose of B |
| SpmdMemory.WritesAreOwn | apps/riscv-tests/mt/ae_matmul.c:41-105 | a step adds its stores to BB and C, and they go to cells that no step has written before, in rows of its own core: no cell is written twice |
| SpmdMemory.WritersApart | apps/riscv-tests/mt/ae_matmul.c:41-105 | whatever two cores are about to store, they store to different cells |
| SpmdMemory.FitsStaticArray | apps/riscv-tests/mt/ae_matmul.c:34 | for lda up to 32 the flat index stays inside BB[1024] |
| SpmdRuns.DotIsInner | apps/riscv-tests/mt/ae_matmul.c:49-98 | what a core accumulates from BB is the inner product of a row of A and a column of B |
| SpmdMemory.RunKeeps | apps/riscv-tests/mt/ae_matmul.c:34-110 | the invariant holds after every schedule |
| SpmdRuns.RunsEnd | apps/riscv-tests/mt/ae_matmul.c:34-110 | no run of moving cores is longer than the work at its start |
| SpmdRuns.RunsEndWithProduct | apps/riscv-tests/mt/ae_matmul.c:34-110 | however the cores interleave, when none can move any more C is A·B |
| SpmdRuns.RunsAreSafe | apps/riscv-tests/mt/ae_matmul.c:34-110 | written before read, and never more than a barrier apart, in every reachable state |
| PrintfNumber.Atoi | apps/common/printf.c:158-164 | reads the digits, stops at the first other character, inside the string |
| PrintfNumber.OutBuffer | apps/common/printf.c:104-109 | writes one cell, and only below maxlen |
| PrintfNumber.PutDigitLoop | apps/common/printf.c:258-264 | the do-while loop leaves the digits, at most 32 of them |
| PrintfNumber.Prepare | apps/common/printf.c:173-219 | padding, prefix and sign never leave the 32-character buffer |
| PrintfNumber.NtoaFormat | apps/common/printf.c:167-241 | the formatted number on the output, cell by cell, and nothing else |
| PrintfNumber.NtoaLong | apps/common/printf.c:244-299 | the same for a value in any base |
| PrintfDigits.DigitsDenoteModulo | apps/common/printf.c:258-264 | n characters denote the value modulo base^n |
| PrintfDigits.DigitsDenoteIff | apps/common/printf.c:244-269 | the digits denote the value if and only if it is below base^32 |
| PrintfDigits.AtoiReadsBack | apps/common/printf.c:158-269 | a 32-bit value in decimal, zero-padded or left-aligned with any width, is read back by _atoi |
| PrintfNumeral.DigitCountIs | apps/common/printf.c:244-269 | a number with n digits lies between the powers n - 1 and n of the base |
| PrintfNumeral.NumeralDetermines | apps/common/printf.c:258-264 | a numeral is determined by its length and the number it denotes |
| PrintfNumeral.NtoaIs | apps/common/printf.c:167-299 | the text of a number is padding, sign, prefix, a numeral that denotes the number modulo base^length, padding, with the length of each |
| Printf.EvalFlags | apps/common/printf.c:472-505 | the flag loop ends at the first character that is no flag |
| Printf.EvalDirective | apps/common/printf.c:468-572 | the directive parser moves forward and stays inside the format |
| Printf.OutStringArg | apps/common/printf.c:686-708 | %s with width, precision and alignment |
| Printf.OutDirective | apps/common/printf.c:574-742 | every conversion but %f writes its text, cell by cell |
| Printf.OutFormat | apps/common/printf.c:460-743 | the loop ends for every well-formed format, with the whole text below maxlen |
| Printf.OutNul | apps/common/printf.c:745-746 | the terminating NUL: behind the text, or in the last cell, or nowhere for count 0 |
| Printf.VsnprintfBuffer | apps/common/printf.c:450-750 | the buffer after the call, and the untruncated length as the return value |
| Printf.ReturnsCountIff | apps/common/printf.h:79-80 | a text of less than 2^31 characters makes the comment on the return value true if and only if it has at most count characters |
| Printf.ReturnsMoreThanCount | apps/common/printf.h:79-80 | the format "ab" with count 1, where the comment promises 1 and the code returns 2 |
| Printf.Snprintf | apps/common/printf.c:771-777 | never touches a cell from count on, and returns what the comment says exactly under that condition |
| Printf.Sprintf | apps/common/printf.c:763-769 | the whole text and NUL, in a buffer with room |
| Printf.SnprintfTruncates | apps/common/printf.c:763-777 | snprintf_ leaves the first min(len, count - 1) characters of what sprintf_ leaves, NUL, and no other change |
| PrintfMeaning.ArgumentIs | apps/common/printf.c:612-660 | the argument of a conversion is the slot read as its type: 64, 32, 16 or 8 bits, two's complement for %d and %i, plain char unsigned |
| PrintfMeaning.IntegerIs | apps/common/printf.c:574-660 | %d, %i, %u in base 10, %x and %X in base 16, %o in base 8, %b in base 2, capitals for %X only: the digits denote the magnitude modulo base^length, so the right number if and only if it is below that |
| PrintfMeaning.NothingLost | apps/common/printf.c:167-299 | without the # flag no digit is ever lost, but for binary numbers of more than 32 digits |
| PrintfMeaning.MinusIff | apps/common/printf.c:210-219 | the exact condition under which %d prints the minus sign of a negative number |
| PrintfMeaning.SignIsLost | apps/common/printf.c:175-219 | %040d of -5: 32 digits that denote 5, no sign |
| PrintfMeaning.DigitsAreLost | apps/common/printf.c:188-208 | %#4x of 0x1234: prefix 0x and two digits that denote 0x34 |
| PrintfMeaning.OthersAre | apps/common/printf.c:667-742 | %c, %s and %% as texts, padded with spaces on the side the flags ask for |
| PrintfMeaning.PointerIs | apps/common/printf.c:710-730 | %p: capital hexadecimal digits of the pointer, zeros up to a width of 16, sign and prefix as the flags ask |
| PrintfMeaning.PlainPointer | apps/common/printf.c:710-730 | %p alone: 16 digits that denote the pointer |
| PrintfParse.DirectiveReads | apps/common/printf.c:468-572 | every directive of the grammar %[flags][width][.precision][length] is read as written: its flags in any order, its numbers in decimal, * from the arguments with a negative width as the - flag and a negative precision as zero |
| PrintfFormats.FormatPrints | apps/common/printf.c:460-743 | for every list of plain texts and directives, the format that spells the list prints their texts in order, each directive with its own arguments |
| PrintfFormats.HexOf255 | apps/common/printf.c:584-594 | "%x" of 255 is "ff" |

## Left out

- FftVector.FftR2DifVec: the twiddle table is given as one row per stage (the code walks one contiguous table by vl), and lanes beyond vl, which the code leaves undisturbed, are not modelled.
- FftScalar.RunDif: the doubly nested vector type of the C code is one ring element per sample.
- ConvColumns.Head4Column: in the columns outside the double-buffered regime the instructions are ordered by output row; the C code interleaves the rows to hide latency. The same holds for Head3Column, Tail4Column and Tail3Column.
- FConv3d.Block: the second half of the unrolled regime calls the same method as the first; in the code the two differ in the names v0 and v2 only. The register moves of the rotation come after the last column, not between its instructions, and the first four stores of the tail come after the last three rows.
- Pathfinder.Run: signed overflow, undefined in C, wraps as on the hardware; the two buffers have exactly cols elements.
- PathfinderVector.RunVector: the memory of the wall and of the result must reach as far as the copy loop does; what an access beyond it would do is not modelled.
- Dwt.DwtStep: only two taps and no offset, which is all the callers set up; with more taps the in-place loop would read overwritten samples.
- Jacobi2d.J2dVector: loop counters are unbounded (the C code compares 32-bit counters with 64-bit sizes).
- Spmd.Step: the eight products per accumulator of one trip of the inner loop are one step, and so are the four stores into C; no other core writes what they read. Memory is sequentially consistent (the code fences in the barrier).
- Printf.Formatted: arguments that are missing or of the wrong kind read as zero or as the empty string; in C they are undefined. Lengths of strings are not truncated to 32 bits.
- PrintfFormats.FormatPrints: formats that are not composed of plain text and directives with a known conversion (an unknown conversion is copied to the output).
- PrintfNumber.NtoaLong: widths and precisions are unbounded naturals; the parser keeps those it reads below 2^32.
- Floating-point rounding, NaN and similarity thresholds.
- `%f` and `_ftoa`: double arithmetic.
- `Radix2FFT_DIT` on Q15 samples, the table setups with sin and cos, and `cmplx2reim`.
- `j2d_kernel_v`, the smaller convolution sizes, `fmatmul`, and the other `riscv-tests/mt` kernels: simpler variants of members above.
- `printf_`, `fctprintf` and a NULL buffer: output to a device.
- The exp, log and cos kernels: numeric approximation on bit patterns.
- Drivers, timers, event triggers, encodings and build scripts.
