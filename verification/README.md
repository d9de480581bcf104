# Rivide: a verified model of the cryptographic core

Rivide is a C99 library for ML-KEM (FIPS 203), ML-DSA (FIPS 204), SHA-3 and SHAKE (FIPS 202) and AES-GCM
(SP 800-38D). This project models its core in Dafny and proves that the optimised, in-place, machine-integer code
computes what the mathematics of those standards says. Check it with `dafny verify dfyconfig.toml`.

The main theorems, each for all inputs:

- The butterflies of both number-theoretic transforms, with their tables, Montgomery factors and bounds, compute the
  product of Z_q[X]/(X^256 + 1) (`DsaNtt.MultiplyPolys`, `KemProducts.MultiplyPolys`). The layer induction is done
  once for an abstract tower of roots. The two tables are shown to be such towers, and their entries to be the powers of
  1753 and 17 in bit-reversed order, so the arrays hold the transforms of the standards entry by entry.
- Transforming there and back at once restores every coefficient (`DsaNtt.ThereAndBack`, `KemNtt.ThereAndBack`). For
  ML-DSA nothing overflows if and only if the constant coefficient lies in [-2^23, 2^23) (`DsaLayers.ImageFitsExactly`).
- Every ML-DSA signature that leaves the rejection loop verifies (`MlDsa.SignedVerifies`), and the loop returns exactly
  the first attempt that passes, or fails after 10000.
- A signature that is valid for two messages under one key is a collision of SHAKE256 (`DsaLayout.MessageBinding`).
- The bytes of keys, ciphertexts and signatures are described part by part, with hash inputs, nonces, matrix indices and
  offsets written out (`DsaLayout`, `KemLayout`), apart from the functions that the methods share.
- ML-KEM decryption returns the message if and only if the noise is readable (`KemCorrect.DecryptCorrect`). So under a
  generated key every readable encapsulation is accepted with its secret, while a ciphertext that is not the encapsulation
  of the message it decrypts to, or of no message at all, is answered with the rejection hash
  (`MlKem.DecapsulationDecides`).
- GHASH is multiplication in GF(2^128), where the product is the unique remainder of the polynomial product; an AES-GCM
  round trip restores the plaintext in place or not; counters never repeat, exactly up to the permitted length.
- The incremental sponge is independent of how input and output are cut (`Keccak.InPieces`).
- The samplers return the first accepted candidates of the flat stream, however it is buffered, and the challenge has
  weight tau for every stream.
- The initialisation protocol is safe and cannot get stuck for any number of threads.

## How the model is built

- Bytes, 16-, 32- and 64-bit integers are range-checked subset types (`machine_ints.dfy`), so a method that verifies
  performs no wrapping arithmetic except where a cast is written out. GHASH, AES-GCM and the sponge work on bit-vectors.
- Polynomials that the code overwrites are arrays; the methods refine functions on integer sequences, and the ring theory
  (`congruence`, `poly_ring`, `ntt_tower`, `ntt_transform`, `ntt_remainder`, `ring_vectors`) is about those.
- Hash functions, the Keccak permutation and the AES block function are arbitrary functions passed as parameters, so
  every theorem holds for whatever they are. In `ml_dsa` and `ml_kem` the samplers are parameters too, with the ranges
  that `dsa_sampling` and `kem_sampling` prove of them. Those two files run the samplers on the sponge context itself: the
  stream they select from is the SHAKE output of the seed (`ShakeStream.Xof`). Random seeds are parameters, `None` where
  the source fails.
- AES-GCM buffers are ranges of one memory array, so overlapping and in-place calls are covered.
- Initialisation is a state machine over atomic steps; a thread stands for one call.

## Where the code differs from its comments

- `barrett_reduce` returns the centred residue in [-1664, 1664], not [0, q-1] (`KemReduce.BarrettIsCentred`,
  `KemReduce.BarrettCanonicalExactly`).
- `dsa_reduce32` returns a value in [-6283009, 6283008], not the centred residue. The norm test built on it is exact if
  and only if the bound is at most 2097408, while the code accepts bounds up to (q-1)/2
  (`DsaReduce.NormTestThreshold`); all bounds that signing and verification use are smaller.
- `dsa_decompose` returns a0 = -gamma2 with a1 = 0 for exactly one residue (`DsaRounding.LowPartReachesMinusGamma2`); the hint
  functions account for it.
- The payload limit of AES-GCM is 2^36 - 16 bytes, one block more than section 5.2.1.1 of SP 800-38D allows. It is
  still the exact limit up to which the counter blocks are distinct and avoid J0 (`GcmSpec.CountersFreshExactly`).
- AES-GCM does not check whether the additional data overlaps the output. If it does, the tag covers the bytes that
  encryption has written there, as the contract of `AesGcm.Encrypt` says.
- The nonce of the masking polynomials is cast to 16 bits. The nonces of n attempts are pairwise distinct if and only if
  n l is at most 65536 (`DsaSpec.NoncesFreshExactly`), so ML-DSA-87 would repeat masks from its 9363rd attempt on, before
  the limit of 10000 attempts; ML-DSA-65 never does (`DsaSpec.NonceLimits`).
- An inverse transform applied to the output of the forward one can leave its integer type: for ML-DSA on every input whose
  constant coefficient is outside [-2^23, 2^23) (`DsaLayers.ImageFitsExactly`), for ML-KEM exactly if one of the 128
  coefficients that the last forward layer adds to leaves [-2^14, 2^14) (`KemNtt.ImageFitsExactly`), which input below 3743
  in magnitude never causes (`KemNtt.ImageFits`). Residues in [0, q) are safe for both, and the pipelines never do this.
- `poly_basemul` overwrites the low coefficient of a block before its last use. Over one of its own factors its result is
  the product if and only if every block meets a congruence (`KemNtt.InPlaceExactly`); X times X does not
  (`KemNtt.InPlaceGoesWrong`). All uses have a separate result.
- Verification takes eta from the number of rows k, so it agrees with signing only if eta is 2 exactly for k = 8; both
  parameter sets satisfy this, and the model asks for it.

## Model

| member | source | states |
|---|---|---|
| PolyRing.MulIsConvolution | src/pqc/ml_dsa/dsa_ntt.c:73-142 | The ring product used as the reference is the schoolbook negacyclic convolution, coefficient by coefficient. |
| NttTransform.InvNttOfNtt | src/pqc/ml_dsa/dsa_ntt.c:73-124 | For any tower of roots whose squares and mirrored products fit, the layered inverse transform undoes the forward one. |
| NttTransform.NttOfInvNtt | src/pqc/ml_kem/kem_ntt.c:50-112 | And the forward transform undoes the inverse on every set of blocks, so the transform is a bijection. |
| NttTransform.TimesIsNegacyclic | src/pqc/ml_dsa/dsa_ntt.c:73-142 | Multiplying through the transform is multiplication modulo X^n + 1, for every depth of the tower. |
| DsaNtt.TowerIsGood | src/pqc/ml_dsa/dsa_ntt.c:37-70 | The 255 table entries form such a tower modulo 8380417: every square is the parent root and mirrored entries cancel. |
| KemNtt.TowerIsGood | src/pqc/ml_kem/kem_ntt.c:35-48 | The 128 table entries form such a tower modulo 3329; which one is what the next rows say. |
| DsaZetas.ZetaIsPower | src/pqc/ml_dsa/dsa_ntt.c:37-70 | Entry k of the table is 2^32 times 1753 to the power of the bit-reversed k, modulo 8380417. |
| KemZetas.ZetaIsPower | src/pqc/ml_kem/kem_ntt.c:35-48 | Entry k of the table is 2^16 times 17 to the power of the bit-reversed k, modulo 3329. |
| NttRemainder.ForwardIsRemainder | src/pqc/ml_dsa/dsa_ntt.c:73-92 | In any tower, every block on every level of the forward transform is the remainder of the polynomial by X^len minus the root of its node. |
| DsaReduce.MontgomeryReduce | src/pqc/ml_dsa/dsa_reduce.c:39-44 | On the full input range the result times 2^32 is congruent to the input and lies strictly between -q and q, without wrap-around. |
| DsaReduce.Reduce32 | src/pqc/ml_dsa/dsa_reduce.c:52-57 | Congruent result in [-6283009, 6283008]; not the centred residue that the comment promises. |
| DsaReduce.Reduce32Rounds | src/pqc/ml_dsa/dsa_reduce.c:52-57 | The multiple of q that it subtracts is the input divided by 2^23, rounded to the nearest integer. |
| DsaReduce.CaddQ | src/pqc/ml_dsa/dsa_reduce.c:65-68 | Canonical residue of everything in [-q, q). |
| DsaReduce.Reduce32DetectsSmall | src/pqc/ml_dsa/dsa_poly.c:102-120 | Up to bound 2097408 comparing the non-canonical residue decides the norm of the centred one. |
| DsaReduce.NormTestThreshold | src/pqc/ml_dsa/dsa_poly.c:102-120 | The test is right on all coefficients if and only if the bound is at most 2097408, although bounds up to (q-1)/2 are accepted. |
| DsaNtt.PolyNtt | src/pqc/ml_dsa/dsa_ntt.c:73-92 | In place: every butterfly stays in 32 bits from any bound that leaves room for 8q, and entry i becomes the value of the old polynomial at 1753^(2 rev(i) + 1), with rev reversing 8 bits. |
| DsaNtt.PolyInvNtt | src/pqc/ml_dsa/dsa_ntt.c:99-124 | In place, on every input of which no sum leaves 32 bits: 2^32 times the inverse transform, every coefficient below 4211198. |
| DsaLayers.BoundedFits | src/pqc/ml_dsa/dsa_ntt.c:99-124 | No sum does if the input leaves room for a factor of 256. |
| DsaLayers.ImageFitsExactly | src/pqc/ml_dsa/dsa_ntt.c:73-124 | No sum does on the output of the forward transform if and only if the constant coefficient before it lies in [-2^23, 2^23). |
| DsaNtt.ThereAndBack | tests/pqc/test_ntt.c:120-147 | Forward, inverse, Montgomery reduction and normalisation restore the canonical residue of every coefficient, under that condition. |
| DsaNtt.PolyPointwise | src/pqc/ml_dsa/dsa_ntt.c:133-142 | Products divided by 2^32 modulo q, also when the result array is an operand. |
| DsaNtt.PolyTimes | src/pqc/ml_dsa/dsa_ntt.c:99-142 | Pointwise product followed by the inverse transform gives the ring product with all Montgomery factors cancelled. |
| DsaNtt.TransformMultiplies | src/pqc/ml_dsa/dsa_ntt.c:73-142 | Transform, multiply, transform back: the negacyclic product modulo q. |
| DsaNtt.MultiplyPolys | src/pqc/ml_dsa/dsa_ntt.c:73-142 | For all polynomials with coefficients below q in magnitude the four calls compute the ring product, every coefficient below 4211198. |
| DsaRounding.Power2Round | src/pqc/ml_dsa/dsa_rounding.c:37-46 | a = a1 2^13 + a0 with a0 in (-2^12, 2^12]. |
| DsaRounding.DecomposeMatchesSpec | src/pqc/ml_dsa/dsa_rounding.c:56-76 | The multiply-and-shift form equals the centred-remainder Decompose of section 7.4 of FIPS 204, on canonical residues and up to gamma2 outside them, for both gamma2. |
| DsaRounding.DecomposeIntervalIsTight | src/pqc/ml_dsa/dsa_rounding.c:56-76 | Just outside that interval the two differ. |
| DsaRounding.LowPartReachesMinusGamma2 | src/pqc/ml_dsa/dsa_rounding.c:56-76 | On canonical residues the low part is -gamma2 for q - gamma2 and for nothing else, against the range its comment gives. |
| DsaRounding.DecomposeRebuilds | src/pqc/ml_dsa/dsa_rounding.c:56-76 | High and low part rebuild the residue. |
| DsaRounding.MakeHintMeaning | src/pqc/ml_dsa/dsa_rounding.c:86-94 | The bit is set if and only if the correction moves the residue out of the bucket of its high part. |
| DsaRounding.UseHintMatchesSpec | src/pqc/ml_dsa/dsa_rounding.c:104-129 | The branchy form is UseHint of section 7.4 of FIPS 204 modulo the number of buckets. |
| DsaRounding.HintRecovers | src/pqc/ml_dsa/dsa_rounding.c:56-129 | The hint recovers the high part for every correction below 2 gamma2, including the wrap at q-1. |
| DsaPoly.PolyAdd | src/pqc/ml_dsa/dsa_poly.c:38-46 | Coefficientwise sum when it fits 32 bits; the result array may be an operand. |
| DsaPoly.PolySub | src/pqc/ml_dsa/dsa_poly.c:55-63 | Coefficientwise difference, likewise. |
| DsaPoly.PolyReduce | src/pqc/ml_dsa/dsa_poly.c:70-78 | Congruent coefficients of small magnitude. |
| DsaPoly.PolyCaddQ | src/pqc/ml_dsa/dsa_poly.c:85-93 | Negative coefficients go up by q; [-q, q) becomes canonical. |
| DsaPoly.PolyChkNorm | src/pqc/ml_dsa/dsa_poly.c:102-120 | Returns 0 exactly if every centred residue is below the bound, for every bound up to 2097408. |
| GroupCodecs.Pack13IsPacking | src/pqc/ml_dsa/dsa_packing.c:332-364 | One representative of eleven: the byte expressions of a 13-bit group write the same bit string as the numbers they pack. |
| GroupCodecs.Unpack13IsReading | src/pqc/ml_dsa/dsa_packing.c:402-430 | And the reading expressions read that bit string back. |
| GroupCodecs.Pack20IsPacking | src/pqc/ml_dsa/dsa_packing.c:160-194 | The same for the 20-bit groups of z. |
| GroupCodecs.Unpack20IsReading | src/pqc/ml_dsa/dsa_packing.c:203-245 | The same for reading them. |
| GroupCodecs.Pack11IsPacking | src/pqc/ml_kem/kem_compress.c:76-132 | The same for the 11-bit groups of the ciphertext. |
| GroupCodecs.Unpack11IsReading | src/pqc/ml_kem/kem_compress.c:141-212 | The same for reading them. |
| PolyCoding.DecodeEncode | src/pqc/ml_dsa/dsa_packing.c:37-245 | Every codec of whole polynomials reads back what it wrote, plain or as a distance below a bound. |
| PolyCoding.EncodeDecode | src/pqc/ml_dsa/dsa_packing.c:37-245 | And writes back every buffer it read. |
| PolyCoding.EncodedBit | src/pqc/ml_dsa/dsa_packing.c:37-245 | Bit b of the stored form of coefficient i is bit d i + b of the bytes, the lowest bit of a byte first, as in section 7.1 of FIPS 204. |
| PolyCoding.DecodedBit | src/pqc/ml_dsa/dsa_packing.c:60-245 | And a coefficient is read from these bits. |
| DsaPacking.PackT1 | src/pqc/ml_dsa/dsa_packing.c:37-52 | Writes the encoding at the offset and nothing else. |
| DsaPacking.UnpackT1 | src/pqc/ml_dsa/dsa_packing.c:60-75 | Reads the decoding. |
| DsaPacking.PackEta | src/pqc/ml_dsa/dsa_packing.c:84-110 | Writes eta - a in 3 or 4 bits. |
| DsaPacking.UnpackEta | src/pqc/ml_dsa/dsa_packing.c:119-151 | Reads it back. |
| DsaPacking.PackZ | src/pqc/ml_dsa/dsa_packing.c:160-194 | Writes gamma1 - a in 18 or 20 bits. |
| DsaPacking.UnpackZ | src/pqc/ml_dsa/dsa_packing.c:203-245 | Reads it back. |
| DsaPacking.PackT0 | src/pqc/ml_dsa/dsa_packing.c:332-364 | Writes 2^12 - a in 13 bits. |
| DsaPacking.UnpackT0 | src/pqc/ml_dsa/dsa_packing.c:402-430 | Reads it back. |
| DsaPacking.W1Bytes | src/pqc/ml_dsa/ml_dsa.c:295-320 | The encoding of the high parts that is hashed into the challenge, 6 or 4 bits each. |
| DsaLayout.CodingTable | src/pqc/ml_dsa/dsa_packing.c:37-245 | The bit widths of all codings, and the values that four of them count down from. |
| DsaPacking.PackPk | src/pqc/ml_dsa/dsa_packing.c:255-267 | Writes the public key bytes. |
| DsaPacking.UnpackPk | src/pqc/ml_dsa/dsa_packing.c:277-289 | Reads both parts. |
| DsaPacking.PublicKeyRoundTrip | src/pqc/ml_dsa/dsa_packing.c:255-289 | Unpacking a packed public key restores it. |
| DsaPacking.PublicKeyCanonical | src/pqc/ml_dsa/dsa_packing.c:255-289 | Packing an unpacked public key restores every byte. |
| DsaPacking.PackSk | src/pqc/ml_dsa/dsa_packing.c:305-365 | Writes all six parts of the secret key. |
| DsaPacking.UnpackSk | src/pqc/ml_dsa/dsa_packing.c:381-431 | Reads all six parts. |
| DsaPacking.SecretKeyRoundTrip | src/pqc/ml_dsa/dsa_packing.c:305-431 | Unpacking a packed secret key restores all six parts. |
| DsaPacking.SecretKeyCanonical | src/pqc/ml_dsa/dsa_packing.c:305-431 | Packing an unpacked secret key restores the bytes, also for the unused code points of the small coefficients. |
| DsaHint.DecodeOfEncode | src/pqc/ml_dsa/dsa_packing.c:442-518 | For every 0/1 vector of weight at most omega: the encoding is accepted and decodes to the vector. |
| DsaHint.EncodeOfDecode | src/pqc/ml_dsa/dsa_packing.c:442-518 | Every accepted buffer decodes to a 0/1 vector of weight at most omega whose encoding is the buffer, byte for byte. |
| DsaHint.DecodedIsBinary | src/pqc/ml_dsa/dsa_packing.c:476-518 | What an accepted buffer decodes to is binary, and its unused positions are zero. |
| DsaHint.PackHint | src/pqc/ml_dsa/dsa_packing.c:442-465 | Writes positions, zero padding and row ends, and returns their number. |
| DsaHint.UnpackHint | src/pqc/ml_dsa/dsa_packing.c:476-518 | Accepts exactly the canonical buffers; every rejection leaves the whole vector zero. |
| DsaProducts.ExpandMatrixMul | src/pqc/ml_dsa/dsa_sampling.c:261-290 | Row sums of pointwise products, reduced: the matrix times the vector in the transform domain, without overflow. |
| DsaProducts.InverseRow | src/pqc/ml_dsa/ml_dsa.c:274-278 | Back in the ring, a row is the sum of the products of its entries with the vector. |
| DsaProducts.SourceIsTransform | src/pqc/ml_dsa/dsa_sampling.c:261-290 | A sampled entry of the matrix is the transform of the polynomial it stands for in these products. |
| DsaProducts.Product | src/pqc/ml_dsa/ml_dsa.c:337-372 | Pointwise product and inverse transform of two transformed polynomials is their ring product. |
| MlDsa.KeyGen | src/pqc/ml_dsa/ml_dsa.c:45-148 | Both keys are the encodings of A s1 + s2 split by Power2Round, with the hash of the public key inside the secret one; a failed random source leaves both buffers. |
| DsaLayout.KeyPairMeans | src/pqc/ml_dsa/ml_dsa.c:66-134 | The bytes of both keys, part by part: the hash of seed, k and l cut into rho, the seed of the secrets and K; nonces of the secrets; matrix entry i, j sampled from rho and 256 i + j; the two parts of A s1 + s2 at their offsets. |
| MlDsa.TryAttempt | src/pqc/ml_dsa/ml_dsa.c:250-416 | One pass of the loop: it reports rejection exactly if one of the three norm bounds or the hint weight fails, and otherwise yields that attempt. |
| MlDsa.RejectionLoop | src/pqc/ml_dsa/ml_dsa.c:249-416 | Ends after at most 10000 attempts, with the first that passes, or because none of the 10000 does. |
| DsaLayout.AttemptMeans | src/pqc/ml_dsa/ml_dsa.c:218-345 | What attempt n hashes: tr, two zero bytes and the message to mu; K, 32 zero bytes and mu to the mask seed; that and the 16-bit nonce n l + i, low byte first, to row i of the mask; mu and the encoded high parts to the challenge seed. |
| DsaLayout.PassesExactly | src/pqc/ml_dsa/ml_dsa.c:374-416 | The bounds of the four checks, as numbers for both parameter sets. |
| DsaLayout.SignatureMeans | src/pqc/ml_dsa/ml_dsa.c:418-435 | A signature is the challenge seed, the encoded rows of z, and the hint. |
| DsaLayout.HintMeans | src/pqc/ml_dsa/dsa_packing.c:442-465 | Row i has its ones exactly at the ascending positions listed between the end of the row before and its own end; the rest is zero. |
| DsaSpec.NoncesFreshExactly | src/pqc/ml_dsa/ml_dsa.c:257-262 | The 16-bit nonces of the first n attempts are pairwise distinct if and only if n l is at most 65536. |
| DsaSpec.NonceLimits | src/pqc/ml_dsa/ml_dsa.c:249-262 | So for all 10000 attempts of ML-DSA-65, but for no more than 9362 of ML-DSA-87. |
| MlDsa.Sign | src/pqc/ml_dsa/ml_dsa.c:153-458 | The exact outcome: a short buffer is refused, the first passing attempt is packed and its exact length returned, otherwise an internal error. |
| MlDsa.Verify | src/pqc/ml_dsa/ml_dsa.c:463-658 | Success if and only if the length, the norm of z, the hint encoding and the recomputed challenge are right. |
| DsaLayout.VerificationMeans | src/pqc/ml_dsa/ml_dsa.c:463-645 | Valid means: z within its bound, a well-formed hint, and the challenge seed is the hash of mu and the recovered commitment, where mu is the hash of the hash of the key, two zero bytes and the message. |
| DsaLayout.MessageBinding | src/pqc/ml_dsa/ml_dsa.c:505-645 | A signature that is valid for two messages is a collision of SHAKE256: of 64 bytes on the two messages behind tr and two zero bytes, or of the challenge seed behind these two hashes. |
| DsaComplete.VerifierResidue | src/pqc/ml_dsa/ml_dsa.c:553-590 | The verifier computes A z - c t1 2^d, which is w - c s2 + c t0 modulo q. |
| DsaComplete.RecoversCoefficient | src/pqc/ml_dsa/ml_dsa.c:553-601 | With the bounds of a passing attempt the hint turns that residue into the signer's high part. |
| DsaComplete.RecoversCommitment | src/pqc/ml_dsa/ml_dsa.c:553-601 | So the verifier recovers the whole commitment. |
| DsaComplete.SignatureParses | src/pqc/ml_dsa/ml_dsa.c:418-435 | The bytes of a passing attempt parse back to its challenge, z and hint. |
| DsaComplete.Completeness | src/pqc/ml_dsa/ml_dsa.c:249-645 | Every attempt that passes the signer's checks under a generated key is a valid signature for its public key. |
| MlDsa.SignedVerifies | src/pqc/ml_dsa/ml_dsa.c:249-645 | Every buffer that signing leaves behind with success is a valid signature for the matching public key, for every seed and message. |
| MlDsa.SignAndVerify | src/pqc/ml_dsa/ml_dsa.c:45-658 | Generating, signing and verifying in sequence: if signing succeeds, so does verification. |
| MlDsa.PublishedSizes | include/rivide/pqc/ml_dsa.h:71-144 | Both parameter sets are instances of the model, with the published lengths of keys and signatures. |
| KemReduce.BarrettReduce | src/pqc/ml_kem/kem_reduce.c:36-42 | Congruent and in [-1664, 1664] for every 16-bit input; not the [0, q-1] of the comment. |
| KemReduce.BarrettIsCentred | src/pqc/ml_kem/kem_reduce.c:36-42 | It is the centred residue. |
| KemReduce.BarrettCanonicalExactly | src/pqc/ml_kem/kem_reduce.c:36-42 | It is the canonical residue if and only if the residue is at most 1664. |
| KemReduce.MontgomeryReduce | src/pqc/ml_kem/kem_reduce.c:50-55 | Wherever the subtraction fits 32 bits the result times 2^16 is congruent to the input; below 2^15 q it lies strictly between -q and q. |
| KemReduce.CondSubQ | src/pqc/ml_kem/kem_reduce.c:63-68 | Canonical residue of everything in (-q, 2q). |
| KemNtt.PolyNtt | src/pqc/ml_kem/kem_ntt.c:50-69 | In place in 16 bits from any bound that leaves room for 7q: entries 2i and 2i + 1 become the old polynomial modulo X^2 - 17^(2 rev(i) + 1), with rev reversing 7 bits. |
| KemNtt.PolyInvNtt | src/pqc/ml_kem/kem_ntt.c:76-112 | In place, on every input whose first sums and differences pass their casts: 2^16 times the inverse transform, every coefficient below q. |
| KemNtt.ImageFitsExactly | src/pqc/ml_kem/kem_ntt.c:50-112 | On the output of the forward transform they do if and only if half of the coefficients before its last layer lie in [-2^14, 2^14). |
| KemNtt.ImageFits | src/pqc/ml_kem/kem_ntt.c:50-112 | All coefficients below 3743 in magnitude meet this. |
| KemNtt.ThereAndBack | tests/pqc/test_ntt.c:93-118 | For them forward, inverse, Montgomery reduction and normalisation restore the canonical residues. |
| KemNtt.PolyBaseMul | src/pqc/ml_kem/kem_ntt.c:121-152 | The products of the 128 blocks, for operands as large as the forward transform leaves them, without wrap-around; over an operand, what the order of the stores makes of them. |
| KemNtt.InPlaceExactly | src/pqc/ml_kem/kem_ntt.c:121-152 | Over an operand the result is the product if and only if in every block a combination of the old coefficients vanishes modulo q. |
| KemNtt.InPlaceGoesWrong | src/pqc/ml_kem/kem_ntt.c:121-152 | X times X fails it over either factor. |
| KemNtt.BaseMulIsBlockProduct | src/pqc/ml_kem/kem_ntt.c:121-152 | They are the blockwise ring products divided by 2^16. |
| KemPoly.PolyReduce | src/pqc/ml_kem/kem_poly.c:66-74 | Centred residues of all coefficients. |
| KemPoly.PolyAdd | src/pqc/ml_kem/kem_poly.c:38-44 | Coefficientwise sum when it fits 16 bits; the result array may be an operand. |
| KemPoly.PolySub | src/pqc/ml_kem/kem_poly.c:53-59 | Coefficientwise difference, likewise. |
| KemPoly.PolyToMont | src/pqc/ml_kem/kem_poly.c:81-91 | Coefficients times 2^16 modulo q. |
| KemPoly.PolyCsubQ | src/pqc/ml_kem/kem_poly.c:98-106 | Canonical residues. |
| KemProducts.PointwiseAcc | src/pqc/ml_kem/kem_poly.c:132-146 | The sum of block products of a row and a vector, accumulated in 16 bits and reduced. |
| KemProducts.InverseRow | src/pqc/ml_kem/ml_kem.c:155-164 | With the inverse transform the row times the vector in the ring, all Montgomery factors cancelled. |
| KemProducts.MultiplyPolys | src/pqc/ml_kem/kem_ntt.c:50-152 | For all polynomials with coefficients below q in magnitude, transform, block product, reduction and inverse compute the ring product modulo 3329. |
| KemProducts.UnhatOfProduct | src/pqc/ml_kem/kem_ntt.c:50-152 | Block products of transforms are transforms of negacyclic products. |
| KemProducts.SourceOfHatSeq | src/pqc/ml_kem/ml_kem.c:76-101 | The polynomial behind a stored transform is the one that was transformed. |
| KemProducts.HatSeqIsTransform | src/pqc/ml_kem/ml_kem.c:76-101 | The stored transform is the transform of the standard, remainder by remainder. |
| KemProducts.SourceIsTransform | src/pqc/ml_kem/ml_kem.c:76-101 | And a stored or sampled transform is that of the polynomial it stands for. |
| KemCompress.CompressRounds | src/pqc/ml_kem/kem_compress.c:39-50 | The division-free form returns the nearest multiple of 2^d / q, for every 16-bit input. |
| KemCompress.DecompressRounds | src/pqc/ml_kem/kem_compress.c:58-67 | The expanded value is x q / 2^d rounded to the nearest integer, halves upwards. |
| KemCompress.CompressDecompress | src/pqc/ml_kem/kem_compress.c:39-67 | Compressing a decompressed value restores it, for d in {1, 4, 5, 10, 11}. |
| KemCompress.CompressionError | src/pqc/ml_kem/kem_compress.c:39-67 | Decompressing a compressed value is off by at most round(q / 2^(d+1)) modulo q. |
| KemPacking.PolyCompress | src/pqc/ml_kem/kem_compress.c:76-132 | Writes the compressed coefficients, nothing for any other width. |
| KemPacking.PolyDecompress | src/pqc/ml_kem/kem_compress.c:141-212 | Overwrites the polynomial with the expanded values, and leaves it alone for any other width. |
| KemPacking.CompressionRoundTrip | src/pqc/ml_kem/kem_compress.c:76-212 | Compressing a decompressed buffer restores every byte, for all four widths. |
| KemPacking.CompressionErrorAll | src/pqc/ml_kem/kem_compress.c:76-212 | The other way round every coefficient moves by at most the rounding error. |
| KemPacking.PolyFromMsg | src/pqc/ml_kem/kem_encode.c:78-89 | Message bits become 0 or 1665. |
| KemPacking.MessageMeans | src/pqc/ml_kem/kem_encode.c:78-89 | Coefficient i is 1665 times bit i of the message, the lowest bit of a byte first. |
| KemPacking.PolyToMsg | src/pqc/ml_kem/kem_encode.c:97-110 | And are read back by rounding. |
| KemPacking.PolyvecToBytes | src/pqc/ml_kem/kem_encode.c:119-128 | Twelve bits per coefficient. |
| KemPacking.PolyvecFromBytesCheck | src/pqc/ml_kem/kem_encode.c:156-175 | Accepts exactly vectors of canonical coefficients and clears the output otherwise. |
| KemPacking.CheckMeansReencodes | src/pqc/ml_kem/kem_encode.c:156-175 | Which is the modulus check of section 7.2 of FIPS 203: re-encoding the coefficients reduced modulo q gives the buffer back. |
| MlKem.KeypairInternal | src/pqc/ml_kem/ml_kem.c:44-113 | Public and secret bytes are the canonical transforms of A s + e and s. |
| MlKem.EncryptInternal | src/pqc/ml_kem/ml_kem.c:118-195 | The ciphertext is the compressed pair of A^T r + e1 and t r + e2 + message. |
| MlKem.DecryptInternal | src/pqc/ml_kem/ml_kem.c:200-231 | The message is the rounding of v - s u. |
| KemLayout.KeyPairMeans | src/pqc/ml_kem/ml_kem.c:44-113 | The bytes of a key pair, row by row: the hash of d and k cut into rho and sigma, the nonces of s and e, matrix entry i, j sampled from rho, j, i, and the transforms of A s + e and s. |
| KemLayout.CiphertextMeans | src/pqc/ml_kem/ml_kem.c:118-195 | The bytes of a ciphertext: the nonces of r, e1 and e2, the transposed matrix, and both compressed parts at their offsets. |
| KemLayout.DecryptionMeans | src/pqc/ml_kem/ml_kem.c:200-231 | Decryption reads u, v and the transform of s at these offsets and rounds v - s u. |
| RingVectors.Exchange | src/pqc/ml_kem/ml_kem.c:118-231 | (A s) . r = s . (A^T r) in the ring: the identity decryption rests on. |
| KemCorrect.RoundedValue | src/pqc/ml_kem/ml_kem.c:200-231 | What decryption rounds is the encoded message plus the total noise e r + e2 + error of v - s (e1 + error of u). |
| KemCorrect.DecryptCorrect | src/pqc/ml_kem/ml_kem.c:118-231 | For all secrets, coins and messages: decryption returns the message if and only if every centred noise coefficient lies in [-832, 832], for a one bit in [-832, 831]. |
| MlKem.KeyGen | src/pqc/ml_kem/ml_kem.c:236-285 | Exactly a k other than 3 and 4 or an eta1 other than 2 and 3 is refused; otherwise the two keys, with hash and rejection secret at their offsets; every failure leaves both buffers. |
| MlKem.Encaps | src/pqc/ml_kem/ml_kem.c:290-339 | Non-canonical keys are refused; otherwise the secret is the first half of SHA3-512 of the message and the hash of the key, and the ciphertext encrypts the message under the second half. |
| MlKem.Decaps | src/pqc/ml_kem/ml_kem.c:344-407 | With the message that the ciphertext decrypts to: the first half of SHA3-512 of it and the stored hash if encrypting it under the second half gives the ciphertext, else the hash of z and the ciphertext. |
| MlKem.Agreement | src/pqc/ml_kem/ml_kem.c:290-407 | With readable noise decapsulation returns the encapsulated secret. |
| MlKem.GenerateAndExchange | src/pqc/ml_kem/ml_kem.c:236-407 | Key generation, encapsulation and decapsulation in sequence: with readable noise both sides hold the same secret. |
| MlKem.ImplicitRejection | src/pqc/ml_kem/ml_kem.c:344-407 | For every decapsulation key: a ciphertext that is the encryption of no message, or not of the message it decrypts to, gives SHAKE256 of z followed by the ciphertext. |
| MlKem.DecapsulationDecides | src/pqc/ml_kem/ml_kem.c:236-407 | Under a generated key: readable encapsulations give their secret, and what is not the encapsulation of its own decryption gives the rejection hash. |
| MlKem.GeneratedKeysPass | src/pqc/ml_kem/ml_kem.c:236-407 | Generated keys always pass the canonicity checks of encapsulation and decapsulation. |
| MlKem.AcceptedParameters | src/pqc/ml_kem/ml_kem.c:301-304 | The sixteen combinations of parameters that encapsulation and decapsulation do not refuse. |
| MlKem.PublishedSizes | include/rivide/pqc/ml_kem.h:70-129 | Both parameter sets are instances of the model, with the published lengths of keys and ciphertexts. |
| Gf128.MulIsRemainder | src/crypto/ghash.c:48-89 | The product is the schoolbook product of polynomials over GF(2) minus a multiple of X^128 + X^7 + X^2 + X + 1. |
| Gf128.RemainderIsUnique | src/crypto/ghash.c:48-89 | Only one element satisfies that. |
| Gf128.MulCommutes | src/crypto/ghash.c:48-89 | Commutative. |
| Gf128.MulAssociates | src/crypto/ghash.c:48-89 | Associative. |
| Gf128.MulDistributes | src/crypto/ghash.c:48-89 | Distributes over XOR on both sides. |
| Ghash.ShiftReduce | src/crypto/ghash.c:72-79 | The byte-wise shift with carry mask is multiplication by X. |
| Ghash.GhashMult | src/crypto/ghash.c:48-89 | x becomes x y in the field, also for x and y the same array. |
| Ghash.GhashUpdate | src/crypto/ghash.c:101-129 | Horner's rule over the zero-padded blocks, for every length. |
| Ghash.HornerIsPolynomial | src/crypto/ghash.c:101-129 | Which is the sum of the blocks times powers of H of section 6.4 of SP 800-38D. |
| AesGcm.IncCounter | src/crypto/aes_gcm.c:77-81 | The last four bytes go up by one modulo 2^32. |
| AesGcm.OverlapMeaning | src/crypto/aes_gcm.c:93-124 | Inside the address space both tests report exactly a shared address, the first one except for equal buffers. |
| AesGcm.RefusedMeans | src/crypto/aes_gcm.c:141-170 | For buffers in memory exactly these arguments are refused: a wrong number of rounds, too long data, input and output that overlap without being equal, and a tag that overlaps input, output or additional data. |
| GcmSpec.CountersFreshExactly | src/crypto/aes_gcm.c:126-237 | The counter blocks of a payload are pairwise distinct and differ from J0 if and only if its length is within the limit the code enforces. |
| GcmSpec.CounterBlockMeans | src/crypto/aes_gcm.c:176-187 | The counter block is the one block that starts with the initialisation vector and ends with the counter, big-endian. |
| GcmSpec.StreamMeans | src/crypto/aes_gcm.c:184-207 | Byte i of the key stream is byte i mod 16 of the cipher of the block with counter 2 + i / 16. |
| AesGcm.Ctr | src/crypto/aes_gcm.c:184-207 | Source and destination equal or disjoint: the destination holds the data under the key stream, nothing else changes. |
| AesGcm.ComputeTag | src/crypto/aes_gcm.c:209-226 | The computed tag is the GHASH polynomial of padded data, padded ciphertext and lengths, plus the cipher of J0. |
| GcmSpec.LengthBlockMeans | src/crypto/aes_gcm.c:218-219 | Byte i of each half weighs 256^(7 - i) in the number of bits, the half of the additional data first. |
| GcmSpec.LengthsRead | src/crypto/aes_gcm.c:218-220 | So the halves read as these two numbers, for the additional data exactly up to the length the code permits. |
| GcmSpec.TagMeans | src/crypto/aes_gcm.c:172-226 | The tag from byte strings: GHASH of the filled data, the filled payload and any block that reads as these two lengths, at the cipher of the zero block, plus the cipher of the initialisation vector and 00000001. |
| AesGcm.Encrypt | src/crypto/aes_gcm.c:126-237 | Refusal changes nothing; otherwise ciphertext and tag, and the rest of memory unchanged. |
| AesGcm.Decrypt | src/crypto/aes_gcm.c:239-366 | Success if and only if the tag is right; a wrong tag leaves the output all zero. |
| AesGcm.EncryptThenDecrypt | src/crypto/aes_gcm.c:126-366 | Decryption of an encryption succeeds and restores the plaintext, in place or not. |
| GcmSpec.BitsInjective | src/crypto/aes_gcm.c:315-329 | Comparing bytes is comparing field elements, so there is exactly one right tag. |
| SpongeSpec.PaddedShape | src/crypto/keccak.c:183-204 | The padding adds the domain byte, zeros and the top bit, up to the next multiple of the rate. |
| SpongeSpec.PartialMore | src/crypto/keccak.c:140-175 | Adding bytes to an incomplete block, with a permutation when it fills up, extends the absorbed message. |
| SpongeSpec.LeftIsRemainder | src/crypto/keccak.c:140-175 | The fill level of the block is the remainder of the message length by the rate. |
| SpongeSpec.LaneIsItsBytes | src/crypto/keccak.c:154-160 | A lane is made of its eight bytes, the least significant first. |
| SpongeSpec.PartialFinal | src/crypto/keccak.c:183-204 | The two XORs and the permutation of finalisation give the state of the padded message absorbed block by block. |
| Keccak.Context.Init | src/crypto/keccak.c:119-131 | A usable rate starts an empty message; any other leaves the context. |
| Keccak.Context.Absorb | src/crypto/keccak.c:140-175 | Extends the message; after finalisation it changes nothing. |
| Keccak.Context.Finalize | src/crypto/keccak.c:183-204 | Leaves the state of the padded message; a second call changes nothing. |
| Keccak.Context.Squeeze | src/crypto/keccak.c:213-246 | The next bytes of the output stream; before finalisation it changes nothing. |
| Keccak.Context.ShakeSqueeze | src/crypto/sha3.c:118-127 | Finalises on the first call, then continues the stream. |
| Keccak.KeccakHash | src/crypto/sha3.c:60-79 | The one-shot hash is the sponge of section 4 of FIPS 202. |
| Keccak.Sha3_256 | src/crypto/sha3.c:81-83 | With rate 136, domain byte 06 and 32 bytes of output. |
| Keccak.Sha3_512 | src/crypto/sha3.c:85-87 | With rate 72, domain byte 06 and 64 bytes. |
| Keccak.Shake128 | src/crypto/sha3.c:89-91 | With rate 168 and domain byte 1F, for any length of output. |
| Keccak.Shake256 | src/crypto/sha3.c:93-95 | With rate 136 and domain byte 1F. |
| Keccak.InPieces | src/crypto/keccak.c:119-246 | However message and output are cut into pieces, the output is that of the sponge on the whole message. |
| ShakeStream.Xof.Squeeze | src/crypto/sha3.c:118-127 | A SHAKE context as the samplers use it: consecutive calls hand out the output stream of the absorbed seed in order. |
| Rejection.SelectedRank | src/pqc/ml_kem/kem_sampling.c:38-80 | Entry k of the selection is the candidate before which exactly k were accepted. |
| Rejection.SelectedSource | src/pqc/ml_kem/kem_sampling.c:38-80 | And every entry comes from such a candidate. |
| Rejection.First256Unique | src/pqc/ml_kem/kem_sampling.c:38-80 | The first 256 accepted values do not depend on how much of the stream is looked at. |
| KemSampling.PolyUniform | src/pqc/ml_kem/kem_sampling.c:38-80 | On SHAKE128 of the seed: the first 256 numbers below 3329 among the 12-bit numbers of the flat stream, whatever the refills; the last group read holds the 256th. |
| KemSampling.UniformMeans | src/pqc/ml_kem/kem_sampling.c:63-67 | Candidate n is the number in bits 12 n to 12 n + 11 of the stream. |
| KemSampling.StreamMeans | src/pqc/ml_kem/kem_sampling.c:45-52 | Byte i of the stream is byte i of SHAKE128 of the seed. |
| DsaSampling.PolyUniform | src/pqc/ml_dsa/dsa_sampling.c:115-154 | On SHAKE128 of seed and nonce: the first 256 numbers below 8380417 among the 23-bit numbers of the flat stream; the last group read holds the 256th. |
| DsaSampling.UniformMeans | src/pqc/ml_dsa/dsa_sampling.c:145-152 | Candidate n is the number in bits 24 n to 24 n + 22 of the stream. |
| DsaSampling.PolyUniformEta | src/pqc/ml_dsa/dsa_sampling.c:45-106 | On SHAKE256 of seed and nonce: the first 256 accepted half bytes, mapped to [-eta, eta]; the last byte read holds the 256th. |
| DsaSampling.NibbleMeaning | src/pqc/ml_dsa/dsa_sampling.c:77-99 | What a half byte is mapped to, through the unsigned subtraction and the cast. |
| DsaSampling.SmallMeans | src/pqc/ml_dsa/dsa_sampling.c:70-99 | Candidate n is 2 - d mod 5 or 4 - d for the number d in bits 4 n to 4 n + 3 of the stream. |
| DsaSampling.StreamsMean | src/pqc/ml_dsa/dsa_sampling.c:45-135 | The streams are SHAKE128 and SHAKE256 of the seed and the nonce, low byte first. |
| DsaSampling.NextIndex | src/pqc/ml_dsa/dsa_sampling.c:234-241 | The buffered reads find the first byte of the stream that is small enough. |
| DsaSampling.PolyChallenge | src/pqc/ml_dsa/dsa_sampling.c:206-250 | SampleInBall on SHAKE256 of the seed; exactly tau entries are 1 or -1, the others 0. |
| DsaSampling.SampleInBallIs | src/pqc/ml_dsa/dsa_sampling.c:206-250 | The weight is tau for every stream. |
| DsaSampling.SampleInBallSteps | src/pqc/ml_dsa/dsa_sampling.c:206-250 | It is Algorithm 29 of FIPS 204 step by step: tau exchanges, the sign of step n being bit n of the first eight bytes. |
| DsaSampling.ChallengeStreamMeans | src/pqc/ml_dsa/dsa_sampling.c:206-222 | On the bytes of SHAKE256 of the challenge seed. |
| DsaSampling.BallUnique | src/pqc/ml_dsa/dsa_sampling.c:206-250 | The challenge does not depend on how much of the stream is looked at. |
| InitProtocol.InvariantHolds | src/core/rivide_init.c:218-243 | In every configuration of every run at most one thread is between winning the exchange and publishing, and the threads fit the state. |
| InitProtocol.DetectionAtMostOnce | src/core/rivide_init.c:225-235 | Detection runs at most once. |
| InitProtocol.StateMoves | src/core/rivide_init.c:218-243 | The state only moves from 0 to 1 to 2. |
| InitProtocol.ReturnedSeesFeatures | src/core/rivide_init.c:218-251 | A returned thread sees state 2 and the features of the one detection, then and ever after. |
| InitProtocol.DetectedIsPublished | src/core/rivide_init.c:225-235 | The features of every configuration with state 2 are the value that the one detection step of the run found. |
| InitProtocol.SpinnersLeave | src/core/rivide_init.c:237-240 | Once the state is 2 every spinning thread returns at its next load. |
| InitProtocol.NeverStuck | src/core/rivide_init.c:218-243 | Unless all calls have returned, some thread can make a step that is not waiting. |
| InitProtocol.ChangesBounded | src/core/rivide_init.c:218-243 | A run of n calls changes its configuration at most 5 n times. |

## Left out

- The vectors of polynomials that signing, key generation and ML-KEM pass around are values, one array per polynomial at
  a time: aliasing between whole vectors is not modelled.
- The Keccak-f permutation, the AES rounds and key schedule: arbitrary functions here.
- `poly_cbd`, the centred binomial distribution: the noise polynomials of ML-KEM are arbitrary small ones.
- The samplers are proved to finish whenever the stream holds enough acceptable candidates; that a hash stream does is
  not a property of the code.
- The range guards of the internal ML-DSA routines on k, l and eta, null-pointer guards, status strings and version
  constants: settled by one branch each; the models ask for valid parameters instead.
- Zeroisation of locals, constant-time behaviour and compiler barriers: no functional content. Constant-time comparison
  and selection are modelled as equality and choice.
- The AVX2 and NEON paths, and `dsa_poly_tomont`, which nothing calls.
- Initialisation is modelled with sequentially consistent atomic steps, without the fallback for compilers that have no
  atomics.
- Bindings, examples, benchmarks, fuzzers, the random source and hardware detection.
