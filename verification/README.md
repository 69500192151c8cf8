# Verified kernels of the Mavryk protocol

A Dafny model of six components of the Mavryk protocol repository, with proofs about all their inputs, all
runs and all reachable states.

- **Fourier transforms** over the scalar field of BLS12-381 and over G1 and G2: in-place radix-2 transform with
  its shortcut for short polynomials, naive transform, prime-factor (Good-Thomas) transform, and their inverses.
  Each computes the same sum, and each inverse undoes its forward transform.
- **Dense polynomials**: product, division and multiplication by X^n + c, evaluation, combinations with powers,
  and arithmetic on evaluations with sub-sampling and rotation.
- **Hash permutations**: Poseidon with batched partial rounds equals plain Poseidon; Rescue, Anemoi and Griffin are
  bijections for any number of rounds (Griffin exactly when its quadratics have no roots); the addition chain is
  exactly a fifth root.
- **The MIR interpreter of Michelson**: type soundness over whole runs, gas as an exact price, locality on the
  stack, and conservation of tickets, for a fragment with loops, nested blocks, closures, recursive lambdas,
  tickets, combs and amounts of mumav.
- **Base58 version bytes**: the search is right for every payload exactly where its rounding is.
- **Shifts of byte strings**: the C, JavaScript and Rust loops agree and multiply or divide by 2^n.

## How it is built

Code that updates arrays or objects is modelled by methods on arrays and by classes; each is proved against a
function of its inputs, and the theorems are about those functions.

The field, group and curve primitives are foreign code. They are fields of a record (`Algebra.Ring`,
`Algebra.Module`) and the laws they are trusted for are predicates on it (`CommRing`, `IsField`, `IsModule`). Every
theorem holds for any structure with these laws. What is special about the scalar field enters as a stated
assumption: `PrimitiveRoot` for the root behind a domain, `Fermat` for the order in section 4.2.1 of
draft-irtf-cfrg-pairing-friendly-curves, `SmallNonZero` for the small numbers the inverse layers divide by.

| files | content |
|---|---|
| Algebra, Sums, NumberTheory, Sizes, ByteStrings, IntegerForms | structures, sums, remainders, sizes of tables, values of byte strings, linear forms |
| Fourier, Fft, PrimeFactor | the transform as a sum, the in-place routines, the prime-factor algorithm |
| Polynomial, PolynomialDivision, PolynomialEval, PolynomialSums, Evaluations | the polynomial kernels and what they mean at points |
| Poseidon, PoseidonBatch, PoseidonPlain, PoseidonContext, Layers | specification, existence of batch constants, equality with plain rounds, in-place code |
| PoseidonForms, RescueForms, AnemoiForms, GriffinForms | the layers entry by entry and the permutations as runs of textbook rounds |
| AdditionChain, Rescue, Anemoi, AnemoiContext, Griffin, GriffinContext | the fifth root and the other three permutations |
| Michelson, MichelsonOps, MichelsonRun, MichelsonTyping | values and instructions, single instructions, runs, typing rules |
| MichelsonValues, MichelsonControl | what each instruction leaves, and the equations between programs, gas aside |
| MichelsonSoundness, MichelsonSafety, MichelsonRejection, MichelsonGas, MichelsonFrame, MichelsonTickets, MichelsonLedger, MichelsonLimits, MichelsonLaws | theorems about all runs |
| MichelsonMachine | the interpreter that mutates a gas counter and a stack |
| Base58, ByteShifts | the version-byte search and the shifts |

## Where the code differs from what is expected of it

- The typechecker lets TICKET take a content that is not comparable, although JOIN_TICKETS compares contents, and
  lets APPLY capture a value that is not duplicable. Soundness is proved for the rules as they are, with that
  comparison as the one panic that remains (`strict = false`); the full guarantees are proved for the rules with both
  conditions added (`strict = true`). `MichelsonLimits` shows that the two conditions are exactly what is missing.
- The correction in `compute_version_bytes` rounds the version up when the already shifted number is no multiple of
  2^shift, while its comment describes rounding up the number before the shift. `Base58.FitExactly` gives the exact
  condition for the result to be right, `Base58.UnsoundStop` an input where it is not. After an exact division the
  version is right but one higher than the least (`Base58.LeastExactly`, `Base58.LateStop`).
- `blst_fr_pow` gives 0 for zero raised to an exponent of value zero and positive bit length.
- `poseidon_apply_permutation` performs an even number of full rounds; with an odd `nb_full_rounds` the last row of
  the announced constants is never read.
- The shift right of bytes in the interpreter subtracts lengths before comparing them, and panics when more bytes
  are dropped than there are; the C and JavaScript versions return the empty string.
- MUL of an amount of zero and a natural number beyond 63 bits overflows.
- Griffin has no linear layer for states other than three or four entries.

## Model

| member | source | states |
|---|---|---|
| `Fft.RevInvolution` | src/lib_bls12_381_polynomial/bls12_381_polynomial_fft.c:29-36 | reversing the low l bits of any number below 2^l twice gives the number back |
| `Fft.BitReverse` | src/lib_bls12_381_polynomial/bls12_381_polynomial_fft.c:29-36 | the shift loop returns the l low bits in reverse order, for every n and l |
| `Fft.Reorganize` | src/lib_bls12_381_polynomial/bls12_381_polynomial_fft.c:38-49 | every cell ends with the cell at its bit-reversed index, so each pair is swapped exactly once; cells outside the slice are untouched |
| `Fourier.Radix2` | src/lib_bls12_381_polynomial/bls12_381_polynomial_fft.c:62-79 | a transform of length 2n is the transform of the even terms plus a twiddle factor times that of the odd terms |
| `Fourier.Radix2Upper` | src/lib_bls12_381_polynomial/bls12_381_polynomial_fft.c:62-79 | with v^n = -1 the upper half of the outputs is the difference of the same two transforms |
| `Fourier.HalfIsMinusOne` | src/lib_bls12_381_polynomial/bls12_381_polynomial_fft.c:82-107 | in a field a primitive 2h-th root of unity has h-th power -1, which is what the subtraction in the butterfly needs |
| `Fft.ButterflyStep` | src/lib_bls12_381_polynomial/bls12_381_polynomial_fft.c:62-79 | one butterfly turns two entries of a stage of half transforms into the two entries of the next stage |
| `Fft.FftStage` | src/lib_bls12_381_polynomial/bls12_381_polynomial_fft.c:62-79 | one pass over all blocks turns a whole stage of block transforms into the next one, in place |
| `Fft.FftAux` | src/lib_bls12_381_polynomial/bls12_381_polynomial_fft.c:52-80 | from any stage of block transforms on, the remaining stages leave every cell equal to the sum over j of c[j]*w^(i*j), with w inverted for the inverse flag |
| `Fft.ShortBlock` | src/lib_bls12_381_polynomial/bls12_381_polynomial_fft.c:57-61 | the blocks of a zero-padded short polynomial are constant: the skipped stages would only have copied the coefficient |
| `Fft.Replicate` | src/lib_bls12_381_polynomial/bls12_381_polynomial_fft.c:91-100 | the descending in-place copy fills each block with its own coefficient: no source cell is overwritten before it is read |
| `Fft.FftInplace` | src/lib_bls12_381_polynomial/bls12_381_polynomial_fft.c:82-107 | for every log size and every smaller log degree the array ends as the transform by w of the input padded with zeros; the rest of the array is untouched |
| `Fft.IfftInplace` | src/lib_bls12_381_polynomial/bls12_381_polynomial_fft.c:109-126 | the array ends as the transform by the inverse root divided by its length |
| `Fft.DftInplace` | src/lib_bls12_381_polynomial/bls12_381_polynomial_fft.c:128-154 | the naive transform gives the same function of the input as the fast ones, for every length and both directions |
| `PolynomialSums.TransformEvaluates` | src/lib_bls12_381_polynomial/bls12_381_polynomial_fft.c:82-154 | the transform of the coefficients of a polynomial is its values at the powers of the root |
| `Fourier.DftInverse` | src/lib_bls12_381_polynomial/bls12_381_polynomial_fft.c:109-154 | transforming by w and then by its inverse multiplies every entry by the length (orthogonality of the powers of a primitive root) |
| `Fourier.TransformInverts` | src/lib_bls12_381_polynomial/bls12_381_polynomial_fft.c:109-154 | for both flags, the transform with the other flag undoes the transform, on every sequence whose length is not zero in the field |
| `Fft.FftRoundTrip` | src/lib_bls12_381_polynomial/bls12_381_polynomial_fft.c:82-126 | running the forward and then the inverse in-place transform leaves every array as it was |
| `Fft.DftRoundTrip` | src/lib_bls12_381_polynomial/bls12_381_polynomial_fft.c:128-154 | running the naive transform with one flag and then the other leaves every array as it was |
| `NumberTheory.ScatterInjective` | src/lib_bls12_381_polynomial/bls12_381_polynomial_fft.c:223-225 | for coprime lengths no two inputs are scattered to the same cell |
| `PrimeFactor.GatherCovers` | src/lib_bls12_381_polynomial/bls12_381_polynomial_fft.c:237-242 | every output index is written by exactly one pair of row and column |
| `PrimeFactor.GoodThomas` | src/lib_bls12_381_polynomial/bls12_381_polynomial_fft.c:204-245 | a transform of length n1*n2 read at (n1*j + n2*i) mod n1*n2 is a transform of length n1 over transforms of length n2 of the scattered input |
| `PrimeFactor.IsPowerOfTwo` | src/lib_bls12_381_polynomial/bls12_381_polynomial_fft.c:156-158 | the bit test holds exactly when the number is a power of two |
| `PrimeFactor.IntegerLog2` | src/lib_bls12_381_polynomial/bls12_381_polynomial_fft.c:160-166 | the shift loop returns l with 2^l <= n < 2^(l+1) |
| `PrimeFactor.TransformRow` | src/lib_bls12_381_polynomial/bls12_381_polynomial_fft.c:179-201 | both branches of a row compute the same transform, so the choice by power of two does not change the result |
| `PrimeFactor.FftRound` | src/lib_bls12_381_polynomial/bls12_381_polynomial_fft.c:179-201 | after a round every row is the transform of what it was and nothing else has changed |
| `PrimeFactor.ScatterInput` | src/lib_bls12_381_polynomial/bls12_381_polynomial_fft.c:222-225 | after the loop each input sits in the cell of its two remainders, none having been overwritten by another |
| `PrimeFactor.TransposeHalf` | src/lib_bls12_381_polynomial/bls12_381_polynomial_fft.c:168-175 | the loops fill the second half with the transpose of the first, which stays intact |
| `PrimeFactor.ScratchLength` | src/lib_bls12_381_polynomial/bls12_381_polynomial_fft.c:207-212 | the scratch buffer is long enough for every row that takes the naive branch |
| `PrimeFactor.GatherOutput` | src/lib_bls12_381_polynomial/bls12_381_polynomial_fft.c:237-242 | the output loops restore the whole result from the cells they read, whatever the array held before |
| `PrimeFactor.BothRounds` | src/lib_bls12_381_polynomial/bls12_381_polynomial_fft.c:204-245 | after scatter, rows, transpose and rows, the cell (j, i) holds the entry of the long transform that the gather writes from it |
| `PrimeFactor.PrimeFactorFft` | src/lib_bls12_381_polynomial/bls12_381_polynomial_fft.c:204-245 | for coprime n1 and n2 the array ends as its transform of length n1*n2 by w, in both directions |
| `PrimeFactor.PrimeFactorRoundTrip` | src/lib_bls12_381_polynomial/bls12_381_polynomial_fft.c:204-245 | the prime-factor transform with one flag and then the other leaves every array as it was |
| `PrimeFactor.CommonRoot` | src/lib_bls12_381_polynomial/bls12_381_polynomial_fft.c:204-245 | any two primitive roots of coprime orders n1 and n2 are the powers w^n2 and w^n1 of one primitive root of order n1*n2, so the assumption on the two domains loses nothing |
| `Algebra.SelfModuleIsModule` | src/lib_bls12_381_polynomial/bls12_381_polynomial_fft.c:52-80 | the scalar field acting on itself is an instance of the module the transforms are proved over; G1 and G2 are two others |
| `Polynomial.HornerEvaluates` | src/lib_bls12_381_polynomial/bls12_381_polynomial_polynomial.c:196-205 | Horner evaluation from the top coefficient equals the sum of coefficient times power |
| `Polynomial.Evaluate` | src/lib_bls12_381_polynomial/bls12_381_polynomial_polynomial.c:196-205 | the loop returns the value of the polynomial at the point |
| `Polynomial.LinearWithPowersHorner` | src/lib_bls12_381_polynomial/bls12_381_polynomial_polynomial.c:117-141 | the result is the combination of the polynomials with the powers of the scalar, with polynomials of any lengths, in any order of lengths |
| `Polynomial.LinearWithPowersNaive` | src/lib_bls12_381_polynomial/bls12_381_polynomial_polynomial.c:143-164 | the same combination, so both kernels agree |
| `Polynomial.LinearWithPowers` | src/lib_bls12_381_polynomial/bls12_381_polynomial_polynomial.c:166-187 | the choice between the two kernels does not change the result |
| `PolynomialSums.EvalCombination` | src/lib_bls12_381_polynomial/bls12_381_polynomial_polynomial.c:117-187 | at every x the combination takes the sum over j of s^j * P_j(x) |
| `PolynomialDivision.Multiply` | src/lib_bls12_381_polynomial/bls12_381_polynomial_polynomial.c:68-80 | every coefficient of the result is the convolution of the two inputs |
| `PolynomialDivision.LongQuotient` | src/lib_bls12_381_polynomial/bls12_381_polynomial_polynomial.c:207-327 | the descending loop solves the quotient from its top coefficients when the input has two blocks or more |
| `PolynomialEval.EvalProduct` | src/lib_bls12_381_polynomial/bls12_381_polynomial_polynomial.c:68-80 | the product takes at every point the product of the values |
| `PolynomialDivision.DivideXn` | src/lib_bls12_381_polynomial/bls12_381_polynomial_polynomial.c:207-327 | the quotient and remainder satisfy p = q*(X^n + c) + r with r shorter than n, through the paths for 1, -1 and any other scalar and for both size cases |
| `PolynomialDivision.DivisionUnique` | src/lib_bls12_381_polynomial/bls12_381_polynomial_polynomial.c:207-327 | no other quotient and remainder do, so the specialised paths agree with the general one |
| `PolynomialEval.EvalDivision` | src/lib_bls12_381_polynomial/bls12_381_polynomial_polynomial.c:276-327 | at every x the value of p is that of q times (x^n + c) plus that of r |
| `PolynomialDivision.MultiplyXn` | src/lib_bls12_381_polynomial/bls12_381_polynomial_polynomial.c:330-433 | the result has the coefficients of p shifted by n plus c times p, through all paths |
| `PolynomialDivision.ShiftedProductIsProduct` | src/lib_bls12_381_polynomial/bls12_381_polynomial_polynomial.c:389-433 | which is the product of p and X^n + c as the general multiplication defines it |
| `PolynomialDivision.DivideProduct` | src/lib_bls12_381_polynomial/bls12_381_polynomial_polynomial.c:207-433 | every division of such a product by X^n + c has quotient p and remainder zero |
| `PolynomialDivision.MultiplyThenDivide` | src/lib_bls12_381_polynomial/bls12_381_polynomial_polynomial.c:207-433 | multiplying and then dividing returns the polynomial, for every polynomial, n and c |
| `Evaluations.AllBits` | src/lib_bls12_381/blst_wrapper.c:50-79 | reading all bits of a little-endian byte string gives its value |
| `Evaluations.ExactExponent` | src/lib_bls12_381/blst_wrapper.c:50-79 | reading only the n low bits gives the whole value when the bits above them are zero |
| `Evaluations.SquareAndMultiply` | src/lib_bls12_381/blst_wrapper.c:50-79 | the descending bit loop returns x to the power of the exponent |
| `Evaluations.FrPow` | src/lib_bls12_381/blst_wrapper.c:50-79 | status 2 is returned exactly for a positive bit length whose top bit is unset (and a base other than 0 and 1); otherwise the result is the power exactly unless zero is raised to a zero exponent of positive length, where the code gives 0 |
| `Evaluations.ComputeDomain` | src/lib_bls12_381_polynomial/caml_bls12_381_polynomial_polynomial_stubs.c:69-90 | the table is filled with the powers of w, for even and odd lengths from 2 |
| `Evaluations.Sampled` | src/lib_bls12_381_polynomial/bls12_381_polynomial_polynomial.c:455-534 | the cell read for index i and shift c holds the value of the polynomial at g^c * g^i, g generating the small domain |
| `Evaluations.LinearArrays` | src/lib_bls12_381_polynomial/bls12_381_polynomial_polynomial.c:490-534 | each result cell is the constant plus the sum over j of l_j * P_j(g^c_j * g^i), through the paths for the coefficients 1, -1 and any other |
| `Evaluations.LinearSelects` | src/lib_bls12_381_polynomial/bls12_381_polynomial_polynomial.c:490-534 | with coefficient k one and all others zero the sum is the k-th polynomial at its own rotated point: coefficients, polynomials and rotations are paired in order |
| `Evaluations.MulArrays` | src/lib_bls12_381_polynomial/bls12_381_polynomial_polynomial.c:455-488 | each result cell is the product over j of P_j(g^c_j * g^i)^e_j |
| `Evaluations.PowerSelects` | src/lib_bls12_381_polynomial/bls12_381_polynomial_polynomial.c:455-488 | with exponent k one and all others zero the product is the k-th polynomial at its own rotated point |
| `Poseidon.ConstantsAccounted` | src/lib_bls12_381_hash/poseidon.c:3-25 | the announced number of constants is what a permutation reads, plus one row when the number of full rounds is odd |
| `PoseidonBatch.Substituted` | src/lib_bls12_381_hash/poseidon.c:91-142 | replacing the last entry of a vector of linear forms by a fresh variable keeps every value it takes |
| `PoseidonBatch.BatchExists` | src/lib_bls12_381_hash/poseidon.c:91-142 | for every matrix, batch size and round constants there are batch constants for which one batched round equals that many plain partial rounds on every state |
| `PoseidonPlain.BatchingIsSound` | src/lib_bls12_381_hash/poseidon.c:144-167 | for every plain Poseidon instance there is a table of constants, of exactly the length the permutation reads, for which the whole batched permutation equals the plain one on every state |
| `PoseidonForms.PlainIsRun` | src/lib_bls12_381_hash/poseidon.c:144-167 | the plain permutation is where a run of textbook rounds ends: fifth powers of all entries, or of the last in the middle rounds, sums over matrix rows, next row of constants |
| `PoseidonForms.RunUnique` | src/lib_bls12_381_hash/poseidon.c:144-167 | every state has one such run |
| `PoseidonForms.BatchedIsRun` | src/lib_bls12_381_hash/poseidon.c:144-167 | so for suitable constants the batched permutation of every state is where its textbook run ends |
| `Layers.ApplySbox` | src/lib_bls12_381_hash/poseidon.c:45-58 | the entries from the given index on become their fifth powers, the others stay |
| `Layers.ApplyMatrix` | src/lib_bls12_381_hash/poseidon.c:60-79 | the state becomes the product of the matrix and the old state, although it is overwritten row by row |
| `PoseidonForms.MultiplyIsSum` | src/lib_bls12_381_hash/poseidon.c:60-79 | entry i of the product is the sum over j of mds[i*w + j] * x[j] |
| `PoseidonForms.MultiplyBasis` | src/lib_bls12_381_hash/poseidon.c:60-79 | the product with the j-th unit vector is the j-th column of the row-major matrix |
| `PoseidonForms.MultiplyAdds` | src/lib_bls12_381_hash/poseidon.c:60-79 | the product is additive |
| `PoseidonForms.MultiplyScales` | src/lib_bls12_381_hash/poseidon.c:60-79 | the product is homogeneous |
| `Layers.ApplyConstants` | src/lib_bls12_381_hash/poseidon.c:81-89 | the next row of constants is added and the offset moves on by exactly that row |
| `PoseidonContext.Context.ComputeTemporaries` | src/lib_bls12_381_hash/poseidon.c:111-130 | each temporary is the fifth power of an affine combination of the state and all earlier temporaries; the offset moves by exactly the words read |
| `PoseidonContext.Context.ComputeOutputs` | src/lib_bls12_381_hash/poseidon.c:132-140 | each entry becomes an affine combination of the old state and the temporaries, none of which an earlier output has overwritten |
| `PoseidonForms.TemporaryIs` | src/lib_bls12_381_hash/poseidon.c:111-130 | temporary i is the fifth power of an affine form in the state and the temporaries before it, with its coefficients and constant at their place in the table |
| `PoseidonForms.OutputIs` | src/lib_bls12_381_hash/poseidon.c:132-140 | output i is an affine form in the state and all temporaries, with its coefficients and constant at their place in the table |
| `PoseidonContext.Context.ApplyFullRounds` | src/lib_bls12_381_hash/poseidon.c:149-153 | the loop performs that many full rounds on consecutive constants |
| `PoseidonContext.Context.ApplyBatches` | src/lib_bls12_381_hash/poseidon.c:154-156 | the loop performs that many batches on consecutive constants |
| `PoseidonContext.Context.ApplyPartialRounds` | src/lib_bls12_381_hash/poseidon.c:157-161 | the loop performs the partial rounds that do not fill a batch |
| `PoseidonContext.Context.ApplyBatchedPartialRound` | src/lib_bls12_381_hash/poseidon.c:91-142 | the in-place batch is the batched round of the specification and consumes exactly its share of the constants |
| `PoseidonContext.Context.ApplyPermutation` | src/lib_bls12_381_hash/poseidon.c:144-167 | the state becomes its permutation; constants are read consecutively and never past the end; all of them are read exactly when the number of full rounds is even |
| `AdditionChain.AlphaInv` | src/lib_bls12_381_hash/rescue.c:39-400 | the 300-step chain computes x^20974350070050476191779096203274386335076221000211055129041463479975432473805 in every commutative ring |
| `AdditionChain.Prepare` | src/lib_bls12_381_hash/rescue.c:39-400 | the table of small powers the chain starts from holds those powers |
| `AdditionChain.ChainIsFifthRoot` | src/lib_bls12_381_hash/rescue.c:27-408 | where x^(r-1) = 1 for every x other than zero, r being the scalar order of BLS12-381, this power and the fifth power undo each other on every element, zero included |
| `Rescue.PermutationBijective` | src/lib_bls12_381_hash/rescue.c:440-451 | with an invertible matrix the permutation has a two-sided inverse, for every number of rounds, width and constants |
| `RescueForms.RoundsAreHalfRounds` | src/lib_bls12_381_hash/rescue.c:440-451 | the permutation is where a run of half rounds ends: fifth powers and fifth roots in turn, sums over matrix rows, next row of constants |
| `Rescue.Context.ApplyNonlinearAlpha` | src/lib_bls12_381_hash/rescue.c:27-37 | every entry becomes its fifth power |
| `Rescue.Context.ApplyNonlinearAlphaInv` | src/lib_bls12_381_hash/rescue.c:402-408 | every entry becomes its fifth root |
| `Rescue.Context.ApplyRound` | src/lib_bls12_381_hash/rescue.c:440-451 | the two half rounds of the specification, consuming two rows of constants |
| `Rescue.Context.ApplyPermutation` | src/lib_bls12_381_hash/rescue.c:440-451 | the state becomes its permutation and every constant is read exactly once |
| `Anemoi.Mix2Undone` | src/lib_bls12_381_hash/anemoi.c:87-133 | the mixing of two entries has a two-sided inverse in every commutative ring |
| `Anemoi.Mix3Undone` | src/lib_bls12_381_hash/anemoi.c:136-154 | so has that of three entries, in a field where the small numbers its inverse divides by are not zero |
| `Anemoi.Mix4Undone` | src/lib_bls12_381_hash/anemoi.c:167-189 | inverting the mixing of four entries gives them back |
| `Anemoi.Unmix4Undone` | src/lib_bls12_381_hash/anemoi.c:167-189 | and mixing what the inverse gives returns the input |
| `Anemoi.LinearUndone` | src/lib_bls12_381_hash/anemoi.c:87-199 | the linear layer with its rotation has a two-sided inverse for l = 1 to 4 |
| `AnemoiForms.MixIs` | src/lib_bls12_381_hash/anemoi.c:87-189 | each mixing is the product with the matrix for its size, entry by entry |
| `AnemoiForms.LinearIs` | src/lib_bls12_381_hash/anemoi.c:681-701 | the layer multiplies the first half by the matrix and the second half after rotating it by one |
| `Anemoi.FlystelUndone` | src/lib_bls12_381_hash/anemoi.c:564-594 | the S-box has an explicit two-sided inverse, whatever function stands for the fifth root |
| `AnemoiForms.FlystelExactly` | src/lib_bls12_381_hash/anemoi.c:564-594 | the S-box takes (x, y) to (u, v) if and only if x = beta*y^2 + (y-v)^5 and u = beta*v^2 + (y-v)^5 + delta |
| `Anemoi.PermutationBijective` | src/lib_bls12_381_hash/anemoi.c:703-715 | the permutation has a two-sided inverse for l = 1 to 4, any number of rounds and any constants |
| `AnemoiForms.PermutationIsRun` | src/lib_bls12_381_hash/anemoi.c:703-715 | the permutation is the linear layer of where a run of rounds ends, each of them given by equations: constants at their places, matrix, S-box relation |
| `AnemoiContext.MultiplyByG` | src/lib_bls12_381_hash/anemoi.c:42-55 | the doubling chain multiplies by the generator |
| `Anemoi.TimesGIs` | src/lib_bls12_381_hash/anemoi.c:42-55 | which is multiplication by 7 |
| `AnemoiContext.Context.ApplyConstantsAddition` | src/lib_bls12_381_hash/anemoi.c:59-70 | both halves receive their own constants of the round |
| `AnemoiContext.Context.ApplyShiftState` | src/lib_bls12_381_hash/anemoi.c:72-85 | the second half is rotated by one, the first is untouched |
| `AnemoiContext.MixTwo` | src/lib_bls12_381_hash/anemoi.c:87-133 | in place, two neighbouring entries become their mixing and nothing else changes |
| `AnemoiContext.MixThree` | src/lib_bls12_381_hash/anemoi.c:136-154 | the same for three entries |
| `AnemoiContext.MixFour` | src/lib_bls12_381_hash/anemoi.c:167-189 | the same for four entries |
| `AnemoiContext.Context.ApplyLinearLayer` | src/lib_bls12_381_hash/anemoi.c:681-701 | the in-place layers for l = 1 to 4 compute the linear layer of the specification |
| `AnemoiContext.Context.ApplySbox` | src/lib_bls12_381_hash/anemoi.c:564-594 | the pair becomes its Flystel image and no other entry changes |
| `AnemoiContext.Context.ApplyFlystel` | src/lib_bls12_381_hash/anemoi.c:617-624 | every pair becomes its Flystel image |
| `AnemoiContext.Context.ApplyOneRound` | src/lib_bls12_381_hash/anemoi.c:703-707 | constants, linear layer and S-boxes in that order |
| `AnemoiContext.Context.ApplyPermutation` | src/lib_bls12_381_hash/anemoi.c:709-715 | the state becomes its permutation |
| `Griffin.Linear3Undone` | src/lib_bls12_381_hash/griffin.c:453-467 | the layer on three entries can be undone, in a field where the small numbers its inverse divides by are not zero |
| `Griffin.Linear3BackUndone` | src/lib_bls12_381_hash/griffin.c:453-467 | and the inverse followed by the layer is the identity |
| `Griffin.Linear4Undone` | src/lib_bls12_381_hash/griffin.c:469-503 | the layer on four entries can be undone, in such a field |
| `Griffin.Linear4BackUndone` | src/lib_bls12_381_hash/griffin.c:469-503 | and the inverse followed by the layer is the identity |
| `GriffinForms.LinearIs` | src/lib_bls12_381_hash/griffin.c:453-503 | the layers are the products with the circulant matrices (2,1,1) and (3,2,1,1) |
| `Griffin.NonLinearUndone` | src/lib_bls12_381_hash/griffin.c:399-451 | the nonlinear layer has a two-sided inverse when no quadratic has a root |
| `GriffinForms.NonLinearIs` | src/lib_bls12_381_hash/griffin.c:399-451 | entry i from the third on is x_i * (z*(z + alpha_i) + beta_i) with z = y_1 + (i-1)*y_0 + x_2 + ... + x_(i-1); the first is the fifth root, the second the fifth power |
| `Griffin.PermutationBijective` | src/lib_bls12_381_hash/griffin.c:533-548 | so has the permutation, for any number of rounds and constants |
| `Griffin.PermutationCollides` | src/lib_bls12_381_hash/griffin.c:399-451 | when some quadratic has a root, two different states are exhibited that any positive number of rounds maps to one |
| `Griffin.InjectiveExactly` | src/lib_bls12_381_hash/griffin.c:533-548 | the permutation is injective if and only if there are no rounds or no quadratic has a root |
| `GriffinForms.PermutationIsRun` | src/lib_bls12_381_hash/griffin.c:533-548 | the permutation is where a run ends that starts from the linear layer, each round given by equations: nonlinear layer, circulant matrix, next row of constants |
| `GriffinContext.Context.ApplyNonLinearLayer` | src/lib_bls12_381_hash/griffin.c:399-451 | the loop with its running accumulator computes the nonlinear layer |
| `GriffinContext.Context.ApplyLinearLayer3` | src/lib_bls12_381_hash/griffin.c:453-467 | the in-place sums compute the layer on three entries |
| `GriffinContext.Context.ApplyLinearLayer4` | src/lib_bls12_381_hash/griffin.c:469-503 | the in-place sums compute the layer on four entries |
| `GriffinContext.Context.ApplyLinearLayer` | src/lib_bls12_381_hash/griffin.c:516-531 | the layer is chosen by the size of the state; other sizes are left unchanged |
| `GriffinContext.Context.ApplyOneRound` | src/lib_bls12_381_hash/griffin.c:516-531 | a round of the specification, consuming one row of constants |
| `GriffinContext.Context.ApplyPermutation` | src/lib_bls12_381_hash/griffin.c:533-548 | the state becomes its permutation and every constant is read exactly once |
| `MichelsonMachine.Gas.Consume` | contrib/mir/src/gas.rs:49-66 | gas drops by exactly the cost or is exhausted for good; a cost beyond 32 bits is refused without a charge; it can only be called on gas that is not exhausted |
| `MichelsonMachine.Interpret` | contrib/mir/src/interpreter.rs:121-132 | the machine that mutates gas and stack ends as the run of the block: same result, same gas left, same stack; no gas is touched after exhaustion, and every run ends |
| `MichelsonMachine.InterpretOne` | contrib/mir/src/interpreter.rs:141-170 | the same for every instruction |
| `MichelsonMachine.InterpretOp` | contrib/mir/src/interpreter.rs:171-1576 | an instruction without nested code is charged for before its effect, which is that of its specification |
| `MichelsonMachine.InterpretBranch` | contrib/mir/src/interpreter.rs:834-877 | the four conditionals take the branch and the stack of the specification |
| `MichelsonMachine.InterpretLoop` | contrib/mir/src/interpreter.rs:932-943 | the loop ends as its recursive specification |
| `MichelsonMachine.InterpretLoopLeft` | contrib/mir/src/interpreter.rs:944-960 | the loop ends as its recursive specification |
| `MichelsonMachine.InterpretIter` | contrib/mir/src/interpreter.rs:961-989 | the list is visited in order on the shared stack |
| `MichelsonMachine.InterpretMap` | contrib/mir/src/interpreter.rs:990-1031 | the results are collected in order, the stack below is threaded through |
| `MichelsonMachine.InterpretMapOption` | contrib/mir/src/interpreter.rs:990-1031 | a value inside an option is replaced by what the block leaves on top; nothing runs for an empty option |
| `MichelsonMachine.InterpretDip` | contrib/mir/src/interpreter.rs:772-779 | the protected elements come back in their order, the rest is what the block leaves |
| `MichelsonMachine.InterpretExec` | contrib/mir/src/interpreter.rs:1461-1497 | applied arguments are paired up from the outside in, recursive lambdas find themselves below their argument |
| `MichelsonMachine.NthField` | contrib/mir/src/interpreter.rs:1735-1752 | the walk along a comb finds the field of that number, or stops where the comb is too short |
| `MichelsonControl.Deterministic` | contrib/mir/src/interpreter.rs:121-132 | gas aside, a block takes a stack to one stack at most |
| `MichelsonControl.BlockThenBlock` | contrib/mir/src/interpreter.rs:121-132 | a block followed by a block ends where the second ends on what the first leaves |
| `MichelsonControl.IfRebuilds` | contrib/mir/src/interpreter.rs:834-841 | IF {PUSH true} {PUSH false} leaves every boolean as it was |
| `MichelsonControl.IfNoneRebuilds` | contrib/mir/src/interpreter.rs:842-851 | IF_NONE {NONE} {SOME} leaves every option as it was |
| `MichelsonControl.IfConsRebuilds` | contrib/mir/src/interpreter.rs:852-865 | IF_CONS {CONS} {NIL} leaves every list as it was |
| `MichelsonControl.IfLeftRebuilds` | contrib/mir/src/interpreter.rs:866-879 | IF_LEFT {LEFT} {RIGHT} leaves every union as it was |
| `MichelsonControl.DipEnds` | contrib/mir/src/interpreter.rs:772-779 | DIP n ends exactly where its block ends on the stack below, with the n protected elements back on top |
| `MichelsonControl.LoopUnrolls` | contrib/mir/src/interpreter.rs:932-943 | LOOP b does what IF {b; LOOP b} {} does |
| `MichelsonControl.LoopLeftUnrolls` | contrib/mir/src/interpreter.rs:944-960 | LOOP_LEFT b does what IF_LEFT {b; LOOP_LEFT b} {} does |
| `MichelsonControl.IterExactly` | contrib/mir/src/interpreter.rs:961-989 | ITER ends in a stack if and only if its body takes stack to stack along the list, in order |
| `MichelsonControl.MapExactly` | contrib/mir/src/interpreter.rs:991-1004 | MAP ends if and only if the body does so for every element in order, and leaves the list of the values it left on top, in that order, over the stack threaded through all runs |
| `MichelsonControl.MapNothing` | contrib/mir/src/interpreter.rs:991-1004 | MAP {} that completes leaves the stack as it was |
| `MichelsonControl.MapOptionEnds` | contrib/mir/src/interpreter.rs:1005-1018 | MAP on an option: nothing for NONE, the image of the value for SOME |
| `MichelsonControl.ExecEnds` | contrib/mir/src/interpreter.rs:1461-1497 | EXEC leaves the value on top of what the closure leaves, over the untouched rest |
| `MichelsonControl.ExecAfterApply` | contrib/mir/src/interpreter.rs:1461-1507 | executing what APPLY leaves is executing the lambda on the pair of both arguments |
| `MichelsonControl.ErrorsEscape` | contrib/mir/src/interpreter.rs:121-170 | an error raised by the first block an instruction runs is its own error, with the same gas left |
| `MichelsonControl.ErrorsSkip` | contrib/mir/src/interpreter.rs:121-132 | nothing after a block that fails is run |
| `MichelsonRun.RunSeq` | contrib/mir/src/interpreter.rs:121-132 | defined by recursion on (gas, code), so every run ends; gas never grows and a completed block has paid for returning |
| `MichelsonSoundness.OpSound` | contrib/mir/src/interpreter.rs:171-1576 | an instruction of the fragment without nested code, on a stack its typing rule accepts, neither hits an unreachable state nor the unwrap of a negative quotient, and leaves the predicted types with non-negative amounts |
| `MichelsonSafety.SeqSound` | contrib/mir/src/interpreter.rs:121-170 | every run of code the typechecker accepts, with any gas, ends without an unreachable state or failed match, on a stack of the predicted types with non-negative amounts; with comparable ticket contents and no captured tickets it never panics at all |
| `MichelsonSafety.OneSound` | contrib/mir/src/interpreter.rs:141-1577 | the same for every instruction, with loops, nested blocks and calls |
| `MichelsonSafety.ClosureSound` | contrib/mir/src/interpreter.rs:1461-1507 | a well-typed closure, applied or recursive, leaves exactly one value of its result type |
| `MichelsonSafety.LoopSound` | contrib/mir/src/interpreter.rs:932-943 | the type of the stack is an invariant of the loop, through any number of turns |
| `MichelsonRejection.RejectedExactly` | contrib/mir/src/typechecker.rs:582-1935 | an instruction without nested code is rejected only if it can never complete on values of these types, or for one of the listed conditions on types, each of which does reject it |
| `MichelsonRejection.LoopsAccepted` | contrib/mir/src/typechecker.rs:1237-1273 | LOOP and LOOP_LEFT with the simplest bodies are accepted, at the expected types |
| `MichelsonRejection.MapsAccepted` | contrib/mir/src/typechecker.rs:1318-1358 | so are MAP over lists and options, which may change the element type |
| `MichelsonGas.SeqMoreGas` | contrib/mir/src/interpreter.rs:121-132 | more gas changes nothing but the gas left: same result, same stack, the difference returned in full |
| `MichelsonGas.Price` | contrib/mir/src/gas.rs:49-66 | a run has one exact price: below it every budget runs out, from it on every budget ends the same way with the rest left |
| `MichelsonFrame.SeqFrame` | contrib/mir/src/interpreter.rs:121-170 | a run that does not panic behaves the same on top of any deeper stack, which it returns untouched |
| `MichelsonFrame.TypedFrame` | contrib/mir/src/interpreter.rs:141-170 | well-typed code never touches what lies below the elements its type mentions |
| `MichelsonTickets.TicketExact` | contrib/mir/src/interpreter.rs:1513-1529 | TICKET adds its amount to the supply of the running contract and to no other; amount zero mints nothing |
| `MichelsonTickets.SplitExact` | contrib/mir/src/interpreter.rs:1536-1561 | a successful split conserves the supply (it copies the content); a refused one loses the ticket; success is characterised exactly |
| `MichelsonTickets.JoinExact` | contrib/mir/src/interpreter.rs:1562-1576 | a successful join conserves the supply (one copy of the content is dropped); success is characterised exactly |
| `MichelsonTickets.OpSupply` | contrib/mir/src/interpreter.rs:171-1576 | no instruction of the fragment adds more to the supply of any ticket than TICKET mints and the copying instructions copy |
| `MichelsonLedger.SeqSupply` | contrib/mir/src/interpreter.rs:121-132 | over every run, typed or not, no supply grows by more than was minted and copied |
| `MichelsonLedger.SeqOnlyMints` | contrib/mir/src/interpreter.rs:785-789 | where contents are comparable and captured values duplicable, well-typed code never copies a ticket: DUP, PUSH and reads copy none |
| `MichelsonLedger.TicketsConserved` | contrib/mir/src/interpreter.rs:1513-1576 | then over every run the supply of another contract never grows, and that of the running one grows at most by what TICKET minted |
| `MichelsonLimits.JoinPanicsExactly` | contrib/mir/src/typechecker.rs:1893-1935 | JOIN_TICKETS, as typechecked, runs without a panic on all tickets of a type if and only if the content type is comparable, which the rule for TICKET does not demand |
| `MichelsonLimits.DupConservesExactly` | contrib/mir/src/typechecker.rs:1019-1040 | DUP, as typechecked, conserves every supply at a type if and only if the type has no lambda in it (tickets being refused already) |
| `MichelsonLimits.AppliedTicketDoubles` | contrib/mir/src/typechecker.rs:1872-1888 | a run of accepted code that captures a ticket with APPLY and copies the lambda, after which the supply has doubled |
| `MichelsonLaws.UnpairUndoesPair` | contrib/mir/src/interpreter.rs:1065-1095 | UNPAIR n after PAIR n restores every stack |
| `MichelsonLaws.PairUndoesUnpair` | contrib/mir/src/interpreter.rs:1065-1095 | PAIR n after UNPAIR n restores every stack |
| `MichelsonLaws.DugUndoesDig` | contrib/mir/src/interpreter.rs:790-803 | DUG n after DIG n restores every stack |
| `MichelsonLaws.DigUndoesDug` | contrib/mir/src/interpreter.rs:790-803 | DIG n after DUG n restores every stack |
| `MichelsonLaws.GetAfterUpdate` | contrib/mir/src/interpreter.rs:1327-1332 | UPDATE n succeeds exactly where GET n does, and GET n then returns the new value |
| `MichelsonLaws.UpdateWithItself` | contrib/mir/src/interpreter.rs:1327-1332 | writing back what GET n returned changes nothing |
| `MichelsonLaws.UpdateLeavesOthers` | contrib/mir/src/interpreter.rs:1245-1250 | an update of one leaf leaves every other leaf as it was |
| `MichelsonLaws.UpdateTwice` | contrib/mir/src/interpreter.rs:1327-1332 | only the last of two updates at one place counts |
| `MichelsonLaws.EDivEuclidean` | contrib/mir/src/interpreter.rs:372-486 | for all signs the quotient and remainder satisfy x = q*y + r with 0 <= r < abs(y) |
| `MichelsonLaws.EuclideanUnique` | contrib/mir/src/interpreter.rs:372-486 | and no other pair does |
| `MichelsonValues.SubExactly` | contrib/mir/src/interpreter.rs:240-247 | SUB leaves d exactly when d + y = x, that is, exactly when ADD takes d and y back to x |
| `MichelsonValues.NegTwice` | contrib/mir/src/interpreter.rs:530-534 | NEG twice restores the stack; NEG leaves y exactly when x + y = 0 |
| `MichelsonValues.AbsExactly` | contrib/mir/src/interpreter.rs:880-884 | ABS leaves n exactly when n is x or -x |
| `MichelsonValues.IsNatExactly` | contrib/mir/src/interpreter.rs:885-889 | ISNAT finds n exactly when INT takes n back to x, and NONE exactly for negative numbers |
| `MichelsonValues.Trichotomy` | contrib/mir/src/interpreter.rs:804-833 | exactly one of LT, EQ and GT holds, the other tests are their negations, EQ holds of zero alone and GE of what ISNAT accepts |
| `MichelsonValues.NotTwice` | contrib/mir/src/interpreter.rs:748-753 | NOT twice restores the stack and NOT once never does |
| `MichelsonValues.AndExactly` | contrib/mir/src/interpreter.rs:653-659 | AND leaves true exactly for two true operands |
| `MichelsonValues.AddMumavExactly` | contrib/mir/src/interpreter.rs:202-208 | ADD of amounts leaves the sum, or overflows exactly where it exceeds 63 bits |
| `MichelsonValues.SubMumavExactly` | contrib/mir/src/interpreter.rs:643-652 | SUB_MUMAV finds d exactly when d + y = x with d not negative, and NONE exactly when x < y |
| `MichelsonValues.MulMumavNatExactly` | contrib/mir/src/interpreter.rs:311-324 | MUL leaves the product of an amount and a number, or overflows exactly where it exceeds 63 bits or the number does |
| `MichelsonValues.MulNatMumavExactly` | contrib/mir/src/interpreter.rs:311-324 | the other order of operands does the same |
| `MichelsonValues.EDivNatExactly` | contrib/mir/src/interpreter.rs:373-386 | EDIV of naturals leaves q and r exactly when x = q*y + r with r < y, and NONE exactly for y = 0 |
| `MichelsonValues.EDivIntExactly` | contrib/mir/src/interpreter.rs:436-486 | the same for integers of all signs, with r below the magnitude of y |
| `MichelsonValues.EDivMumavNatExactly` | contrib/mir/src/interpreter.rs:487-508 | the same for an amount and a natural number of any size |
| `MichelsonValues.EDivMumavExactly` | contrib/mir/src/interpreter.rs:509-522 | the same for two amounts |
| `MichelsonValues.TicketThenRead` | contrib/mir/src/interpreter.rs:1513-1535 | READ_TICKET tells exactly what TICKET was given, and the running contract as ticketer |
| `MichelsonValues.NoTicketExactly` | contrib/mir/src/interpreter.rs:1513-1529 | TICKET gives no ticket exactly for amount zero |
| `MichelsonValues.SplitExactly` | contrib/mir/src/interpreter.rs:1536-1561 | the left part carries the left amount and the right part the right one, exactly where the amounts are positive and add up |
| `MichelsonValues.JoinUndoesSplit` | contrib/mir/src/interpreter.rs:1536-1576 | JOIN_TICKETS restores what SPLIT_TICKET took apart |
| `MichelsonValues.DigExactly` | contrib/mir/src/interpreter.rs:790-796 | DIG n brings element n to the top, moves those above it down by one and leaves the others |
| `MichelsonValues.SwapIsDig` | contrib/mir/src/interpreter.rs:1036-1039 | SWAP is DIG 1 and DUG 1 |
| `MichelsonValues.DropExactly` | contrib/mir/src/interpreter.rs:780-784 | DROP n takes off exactly the n elements on top |
| `MichelsonValues.DupExactly` | contrib/mir/src/interpreter.rs:785-789 | DUP n puts what DIG n-1 would find on top of the whole stack |
| `MichelsonValues.PlainForms` | contrib/mir/src/interpreter.rs:1049-1095 | PAIR, UNPAIR, CAR and CDR are PAIR 2, UNPAIR 2, GET 1 and GET 2 |
| `MichelsonValues.PairGrows` | contrib/mir/src/interpreter.rs:1065-1073 | PAIR n+1 pairs the first element with what PAIR n makes of the rest |
| `MichelsonValues.GetOfComb` | contrib/mir/src/interpreter.rs:1245-1250 | GET finds the k-th value of a comb at 2k+1, and the last of n at 2n-2 |
| `Base58.B58Dec` | scripts/b58_prefix/b58_prefix.py:7-20 | the loop returns the number a word denotes in base 58, with -1 for letters outside the alphabet |
| `Base58.FindIs` | scripts/b58_prefix/b58_prefix.py:16-20 | a letter counts as its one place in the alphabet, any other character as -1 |
| `Base58.BytesValue` | scripts/b58_prefix/b58_prefix.py:23-34 | the base-256 digits denote the number, are bytes and have no leading zero |
| `Base58.AsciiDec` | scripts/b58_prefix/b58_prefix.py:23-34 | the loop and the final reversal give these digits, and none for numbers that are not positive |
| `Base58.ComputeVersionBytes` | scripts/b58_prefix/b58_prefix.py:37-83 | the search returns the first digit count with a non-empty interval, or the last one tried, and the bytes of a version that is the least fitting one exactly where the correction is right; at the digit counts it passed over no version fits, where the correction is right there |
| `Base58.FitExactly` | scripts/b58_prefix/b58_prefix.py:53-67 | where the search stops, every payload and checksum lands in the interval of the prefix if and only if the correction did what rounding up asks for; parity excludes the upper end |
| `Base58.LowExactly` | scripts/b58_prefix/b58_prefix.py:56-60 | the version tried is the quotient rounded up exactly where the correction is right, one lower where it is missing, one higher where it is made for an exact division |
| `Base58.LeastExactly` | scripts/b58_prefix/b58_prefix.py:56-67 | where the search stops its version is the least that fits every payload if and only if the correction is right |
| `Base58.NoneFits` | scripts/b58_prefix/b58_prefix.py:56-67 | where the search goes on no version fits, if the correction is right |
| `Base58.LateVersion` | scripts/b58_prefix/b58_prefix.py:56-60 | after an exact division the version below also fits, and is the least |
| `Base58.LateStop` | scripts/b58_prefix/b58_prefix.py:56-67 | such a stop exists |
| `Base58.ZeroVersion` | scripts/b58_prefix/b58_prefix.py:56-60 | a family of stops where the floor is zero: the correction is skipped and not every payload fits |
| `Base58.UnsoundStop` | scripts/b58_prefix/b58_prefix.py:56-67 | such a stop exists |
| `Base58.EveryEncoding` | scripts/b58_prefix/b58_prefix.py:68-81 | at a sound stop every payload with every checksum encodes to a word that starts with the prefix and has the returned length, which the script asserts for two payloads |
| `ByteShifts.CShiftLeft` | src/lib_stdlib/tzBytes_c.c:174-239 | the result has the value a*2^n and the expected length |
| `ByteShifts.CShiftRight` | src/lib_stdlib/tzBytes_c.c:242-295 | the result has the value floor(a/2^n) and the expected length |
| `ByteShifts.JsShiftLeft` | src/lib_stdlib/tzBytes_js.js:97-129 | the result has the value a*2^n and the expected length, also for the empty string |
| `ByteShifts.JsShiftRight` | src/lib_stdlib/tzBytes_js.js:133-163 | the result has the value floor(a/2^n) and the expected length |
| `ByteShifts.RustShiftLeft` | contrib/mir/src/interpreter.rs:564-596 | shifts beyond 64000 are refused, all others have the value a*2^n and the expected length |
| `ByteShifts.RustShiftRight` | contrib/mir/src/interpreter.rs:611-641 | refused exactly beyond 64000, panics exactly when more bytes are dropped than there are, otherwise floor(a/2^n) |
| `ByteShifts.ShiftsUnique` | src/lib_stdlib/tzBytes_c.c:174-295 | value and length determine the bytes of a shifted string |
| `ByteShifts.LeftShiftsAgree` | src/lib_stdlib/tzBytes_c.c:174-239 | the three implementations give identical bytes wherever they all give any |
| `ByteShifts.RightShiftsAgree` | src/lib_stdlib/tzBytes_c.c:242-295 | the three implementations give identical bytes wherever they all give any |
| `ByteShifts.RightUndoesLeft` | src/lib_stdlib/tzBytes_c.c:174-295 | shifting left and then right by n restores the value |
| `ByteShifts.ShiftRoundTrip` | src/lib_stdlib/tzBytes_c.c:174-295 | so do the two loops one after the other |

## Left out

- Field, curve and pairing primitives, and Pippenger's algorithm: foreign code; the transforms over G1 and G2 are instances of one theorem over modules.
- Sizes beyond 32 bits, allocation, freeing, out-of-memory and the OCaml and WASM stubs: sizes are unbounded here.
- The prime-factor transform's scratch buffers: the two halves of one buffer are kept, the naive transform's scratch is a separate array.
- Polynomial addition, subtraction, negation, scaling, derivative and plain linear combinations: single loops without branching.
- PolynomialDivision.DivideXn: the inputs are sequences, so a result array that aliases an input is not described.
- Polynomial.Evaluate: needs one coefficient at least, as the code reads the last one.
- Evaluations.MulArrays: exponents have an exact bit length (no bits, or the top one set); for others blst_fr_pow reports an error that the loop ignores. Rotations are not negative.
- Evaluations.LinearArrays: rotations are not negative.
- The generic linear layer of Anemoi: contexts are refused for l above 4.
- AdditionChain.AlphaInv: the order of the two factors of a product is not kept; the ring is commutative.
- The copies of the addition chain in anemoi.c and griffin.c are the same chain as in rescue.c and are modelled once.
- The allocation, setters and getters of the hash contexts.
- Michelson instructions on strings, sets, maps, big maps, keys, signatures, hashes, operations and pairings, UNPACK and CONTRACT: the fragment holds the control flow, stack, combs, lists, options, unions, numbers, mumav, lambdas and tickets.
- MichelsonMachine.InterpretOp: the effect of an instruction without nested code is taken from its specification as one update of the stack; the order of its single pops and pushes is not described.
- MichelsonMachine.Gas.Consume: reading gas after exhaustion panics in the code; here it is a precondition that every caller is proved to meet.
- Costs of instructions are those of the fragment; gas of the typechecker is not modelled.
- Micheline parsing, and typechecking as a translation: the rules give a judgement on already typed instructions.
- Base58.ComputeVersionBytes: the two sample assertions at a stop are not steps of the model; Base58.EveryEncoding proves them for every payload at sound stops.
- Base58.EveryEncoding: the checksum is any four bytes, SHA-256 is not modelled; the prefix has letters of the alphabet and does not begin with 1.
- ByteShifts.CShiftLeft: the empty string is excluded where the code would read its first byte; negative shifts, which all versions reject, are not modelled.
- ByteShifts.JsShiftLeft: numbers are mathematical, not 32-bit.
- Bitwise and, or, xor and not on byte strings.
