# ltq-nand: GF(256) parity and page/OOB layout, in Dafny

ltq-nand turns a raw dump of NAND pages into the layout a Lantiq
GRX350/GRX550 NAND controller programs. The page size P is configurable.
Each page is followed by an out-of-band (OOB) area of O = P / 32 bytes. That
area is filled with 0x00, filled with 0xFF, or holds Reed-Solomon parity
bytes for each 128-byte chunk of the page. There are four parity bytes per
chunk in ECC4 mode and three in ECC3 mode. This project models the
algorithmic core of `ltq-nand.c` and proves what it computes.

- `gf_tables.dfy` (module `GfTables`) holds the two constant tables
  `g_num2alpha` (the logarithm) and `g_alpha2num` (the antilogarithm).
  Entry by entry, it proves that they list the powers of alpha = x in
  GF(2)[x] modulo x^8 + x^7 + x^2 + x + 1 and the logarithms of those powers.
- `gf.dfy` (module `Gf`) models `g_add` (exclusive or) and `g_mul` (the
  table lookup). Table multiplication is proved equal to repeated
  multiplication by alpha. The field laws follow from that.
- `poly.dfy` (module `Poly`) evaluates polynomials over GF(256) by Horner's
  rule, highest coefficient first. It also covers their sums, scalings and
  concatenations.
- `rs.dfy` (module `ReedSolomon`) models `reed_solomon_128bytes_ecc`. It is
  a method over the caller's four-byte register array, proved against a
  function of the old registers and the 128 data bytes. For both strengths
  it proves two things:
  - the register bytes, stored highest first after the data, make a
    codeword: a polynomial that vanishes at every root of the generator;
  - a chunk of zeros yields zero parity.
- `layout.dfy` (module `Layout`) specifies the output of one block. Each
  page is followed by its OOB area, and the OOB area follows the mode's
  rule. The file proves where each page, OOB area and parity group lands.
- `assembly.dfy` (module `Assembly`) models the page loop of `main` as
  methods over the block and output arrays:
  - `memcpy` of the page;
  - `memset` of the OOB area;
  - the per-chunk parity stores.

  After the loop, the output buffer starts with the specified image and is
  unchanged beyond it.
- `config.dfy` (module `Config`) models what `main` does with the option
  values:
  - its checks, in program order;
  - the choice of OOB mode;
  - the derived sizes, computed with C's truncating `/` and `%`.

  It also shows three kinds of input that get past the checks, and gives a
  checked configuration under which one block goes through the page loop
  with the compiled-in tables. Under that configuration every 128-byte
  chunk of the output, followed by its parity bytes, is a codeword.

The model follows what `main` does, including where it is lax:
- `main` rejects a zero block size but only warns about one larger than
  MAX_BLOCK_SIZE, and it never checks that the block is a whole number of
  pages. `Config.Validate` does what `main` does, and the consequences are
  under "## Findings".
- `main` accepts any nonzero page size that is a multiple of 32. In ECC
  modes a page of 32, 64 or 96 bytes has page_size / 128 == 0 chunks, so
  it gets no parity and an all-0xFF OOB area. The last P mod 128 bytes of
  any other page are not covered by parity. `Layout.OobTail` and
  `Layout.ParityFits` state what happens.
- A failed check jumps to the `exit:` label. It calls `fclose` on both
  file handles before `exit(0)`. Before the two `fopen` calls those
  handles are uninitialised, and after a failed `fopen` one of them is
  NULL, so that `fclose` is undefined behaviour and `exit(0)` is not
  reliably reached. An unknown option ends with `exit(EXIT_FAILURE)`
  instead (ltq-nand.c:210-211). Exit status is not modelled.

## Model

| member | source | states |
|---|---|---|
| GfTables.NandTablesValid | ltq-nand.c:44-72 | The compiled-in tables are a valid log/antilog pair: antilog(0) = antilog(255) = 1, each antilog entry is alpha times the one before, and antilog(log(a)) = a for every nonzero byte a |
| GfTables.AntilogStep | ltq-nand.c:59-72 | Entry e + 1 of g_alpha2num is entry e multiplied by alpha (shifted left, reduced by 0x87), for e in 0 .. 254 |
| GfTables.LogInverse | ltq-nand.c:44-72 | g_alpha2num[g_num2alpha[a]] == a for every a in 1 .. 255 |
| Gf.Add | ltq-nand.c:85-91 | g_add(a, b) is zero exactly when a == b, adding 0 changes nothing, and adding b again gives back a |
| Gf.AddLaws | ltq-nand.c:85-91 | g_add is commutative and associative, 0 is its identity and every element is its own inverse |
| Gf.Mul | ltq-nand.c:74-83 | g_mul returns 0 when either operand is 0 |
| Gf.MulExponentValue | ltq-nand.c:80-82 | For nonzero operands the antilog index is (log a + log b) % 255 and lies in 0 .. 254, so g_alpha2num[255] is never read |
| Gf.MulPow | ltq-nand.c:74-83 | For nonzero operands g_mul(a, b) is alpha to the power log a + log b |
| Gf.MulShift | ltq-nand.c:74-83 | Table multiplication by a nonzero a equals multiplying b by alpha log(a) times, the field's own multiplication |
| Gf.MulByPow | ltq-nand.c:74-83 | Multiplying by alpha^k is k multiplications by alpha |
| Gf.AntilogIsPow | ltq-nand.c:59-72 | Entry e of g_alpha2num is alpha^e for every e in 0 .. 255 |
| Gf.PowLog | ltq-nand.c:44-72 | alpha raised to g_num2alpha[a] is a, for nonzero a |
| Gf.MulComm | ltq-nand.c:74-83 | g_mul(a, b) == g_mul(b, a) for all bytes |
| Gf.MulOne | ltq-nand.c:74-83 | g_mul(1, a) == a == g_mul(a, 1) for every byte a |
| Gf.MulZeroIff | ltq-nand.c:74-83 | g_mul(a, b) is 0 exactly when a or b is 0 (no zero divisors) |
| Gf.MulAdd | ltq-nand.c:74-91 | g_mul distributes over g_add on the right operand |
| Gf.MulAddLeft | ltq-nand.c:74-91 | g_mul distributes over g_add on the left operand |
| Gf.MulAssoc | ltq-nand.c:74-83 | g_mul is associative |
| Gf.MulInverseAlpha | ltq-nand.c:74-83 | 195 is the inverse of alpha: multiplying alpha * w by 195 gives w back |
| ReedSolomon.ReedSolomon128Bytes | ltq-nand.c:93-141 | The registers s after the call are Parity of the old registers and the 128 data bytes at the given strength |
| ReedSolomon.Ecc4Loop | ltq-nand.c:102-120 | The ECC4 loop leaves in s the registers obtained by feeding the 128 bytes one at a time through the ECC4 step |
| ReedSolomon.Ecc3Loop | ltq-nand.c:123-138 | The ECC3 loop leaves in s the registers obtained by feeding the 128 bytes through the ECC3 step, with s[3] untouched |
| ReedSolomon.Parity | ltq-nand.c:93-141 | A strength other than ECC4 (2) and ECC3 (3) leaves the registers as they were, and ECC3 never changes s[3] |
| ReedSolomon.Ecc3Generator | ltq-nand.c:125-128 | The ECC3 generator coefficients computed at run time: three bytes, g[2] = 2 + 4 + 8 = 14; Ecc3GeneratorValue gives all three |
| ReedSolomon.Ecc4Step | ltq-nand.c:110-119 | One ECC4 iteration keeps four registers; Ecc4StepBytes proves it is one step of long division by the generator |
| ReedSolomon.Ecc3Step | ltq-nand.c:130-137 | One ECC3 iteration keeps four registers and leaves s[3] as it was; Ecc3StepBytes proves it is one step of long division by the ECC3 generator |
| ReedSolomon.Ecc4Run | ltq-nand.c:102-120 | The ECC4 loop as a function of the data keeps four registers; Ecc4Remainder and Ecc4RunZeros state what they hold |
| ReedSolomon.Ecc3Run | ltq-nand.c:130-137 | Feeding any number of bytes through the ECC3 step leaves s[3] as it was |
| ReedSolomon.Ecc3GeneratorValue | ltq-nand.c:125-128 | The ECC3 coefficients computed at run time are g[0] = 64, g[1] = 56, g[2] = 14 |
| ReedSolomon.Ecc3Roots | ltq-nand.c:125-128 | x^3 + 14x^2 + 56x + 64 vanishes at 2, 4 and 8 |
| ReedSolomon.Ecc4RootsLow | ltq-nand.c:103-106 | x^4 + 205x^3 + 63x^2 + 92x + 32 vanishes at alpha, alpha^2 and alpha^3 (2, 4 and 8) |
| ReedSolomon.Ecc4RootInverse | ltq-nand.c:103-106 | The ECC4 generator also vanishes at alpha^254 = 195 |
| ReedSolomon.Ecc4StepBytes | ltq-nand.c:110-119 | One ECC4 iteration, read as the bytes s[3], s[2], s[1], s[0], is one step of long division by the generator: shift up and subtract (s[3] + d) times the generator |
| ReedSolomon.Ecc3StepBytes | ltq-nand.c:130-137 | One ECC3 iteration, read as s[2], s[1], s[0], is one step of long division by the ECC3 generator |
| ReedSolomon.Ecc4Remainder | ltq-nand.c:110-119 | At every root x of the generator, the stored ECC4 bytes evaluate to data(x) * x^4: they are the remainder of data * x^4 |
| ReedSolomon.Ecc3Remainder | ltq-nand.c:130-137 | At every root x of the ECC3 generator, the stored ECC3 bytes evaluate to data(x) * x^3 |
| ReedSolomon.Ecc4Codeword | ltq-nand.c:102-120 | Data followed by the ECC4 bytes s[3], s[2], s[1], s[0] vanishes at every root of the generator |
| ReedSolomon.Ecc3Codeword | ltq-nand.c:123-138 | Data followed by the ECC3 bytes s[2], s[1], s[0] vanishes at every root of the ECC3 generator |
| ReedSolomon.Ecc4ParityCodeword | ltq-nand.c:312-317 | For any data, the chunk followed by its ECC4 bytes from zeroed registers vanishes at 2, 4, 8 and 195 |
| ReedSolomon.Ecc3ParityCodeword | ltq-nand.c:324-328 | For any data, the chunk followed by its ECC3 bytes from zeroed registers vanishes at 2, 4 and 8 |
| ReedSolomon.Ecc4RunZeros | ltq-nand.c:110-119 | Zero bytes fed into zeroed ECC4 registers leave them zero |
| ReedSolomon.Ecc3RunZeros | ltq-nand.c:130-137 | Zero bytes fed into zeroed ECC3 registers leave them zero |
| ReedSolomon.ParityOfZeros | ltq-nand.c:93-141 | An all-zero chunk yields all-zero parity from zeroed registers, at every strength |
| Layout.TimesIsProduct | ltq-nand.c:303 | The offsets Times(p, w) used by the model are the C products p * w |
| Layout.OobOffset | ltq-nand.c:307 | The OOB offset (p + 1) * P + p * O equals p * (P + O) + P, the byte right after page p |
| Layout.RegionsDisjoint | ltq-nand.c:300-303 | A region of w bytes at Times(q1, w) ends at or before the one at Times(q2, w) when q1 < q2, so pages and their areas never overlap |
| Layout.Fill | ltq-nand.c:307-308 | memset's result: n bytes, each equal to the fill byte |
| Layout.ParityFits | ltq-nand.c:311-328 | 3 * (P / 128) <= 4 * (P / 128) <= P / 32, so the parity stores never leave the OOB area |
| Layout.ParitySnoc | ltq-nand.c:311-318 | The parity bytes of k + 1 chunks are those of k chunks followed by the parity of chunk k |
| Layout.ParityPlacement | ltq-nand.c:311-318 | The parity group of chunk k sits at Times(k, width) and is the parity of page bytes k * 128 .. k * 128 + 127 |
| Layout.Oob | ltq-nand.c:284-331 | The OOB area of a page has exactly P / 32 bytes |
| Layout.OobFilled | ltq-nand.c:307-308 | In ZEROS mode every OOB byte is 0x00; in ONES mode every OOB byte is 0xFF |
| Layout.OobEcc | ltq-nand.c:309-331 | In ECC modes the OOB area is the parity bytes of the P / 128 chunks followed by 0xFF up to P / 32 bytes |
| Layout.OobParity | ltq-nand.c:311-329 | In ECC modes, OOB bytes width * k .. width * k + width - 1 are the parity bytes of chunk k, highest register first |
| Layout.OobTail | ltq-nand.c:310-322 | In ECC modes every OOB byte beyond width * (P / 128) stays 0xFF |
| Layout.OobCodeword | ltq-nand.c:309-331 | Each 128-byte chunk of a page followed by its bytes of the OOB area vanishes at 2, 4 and 8, and for ECC4 at 195 |
| Layout.ChunkCodeword | ltq-nand.c:309-331 | In either ECC mode, a 128-byte chunk followed by the parity bytes the mode stores for it is a codeword of the mode's code |
| Layout.PageImage | ltq-nand.c:303-331 | A page followed by its OOB area is P + P / 32 bytes long |
| Layout.ImageLength | ltq-nand.c:300-333 | The image of n pages is Times(n, P + O) bytes long |
| Layout.ImageSnoc | ltq-nand.c:300-333 | The image of k + 1 pages is the image of k pages followed by page k and its OOB area |
| Layout.ImagePlacement | ltq-nand.c:300-333 | Page q and its OOB area occupy image bytes Times(q, P + O) .. Times(q, P + O) + P + O - 1 |
| Layout.PagePlacement | ltq-nand.c:303-307 | Within the image of n pages, page q is copied verbatim at Times(q, P + O) and its OOB area follows it immediately, all below Times(n, P + O) |
| Layout.SlicedCodeword | ltq-nand.c:303-317 | In a sequence holding a page and then an OOB area at Times(q, P + O), a chunk of the page and its parity group of the OOB area that form a codeword are still a codeword when read back at their offsets in the sequence |
| Layout.PlacedCodeword | ltq-nand.c:303-331 | In a sequence holding page q and its OOB area at Times(q, P + O), chunk k read at Times(q, P + O) + Times(k, 128) and its parity at Times(q, P + O) + P + Times(k, width) form a codeword |
| Layout.ImageCodeword | ltq-nand.c:300-333 | In the image of n pages, chunk k of page q at q * (P + O) + k * 128 followed by its parity bytes at q * (P + O) + P + k * width is a codeword, for every q < n and k < P / 128 |
| Layout.EmittedLength | ltq-nand.c:334 | With block_size % P == 0 the pages cover the block exactly and pages * (P + O) equals the fwrite length block_size + O * pages |
| Layout.OutputFits | ltq-nand.c:30-31 | A block within MAX_BLOCK_SIZE that is a whole number of pages gives an output within MAX_OOB_BLOCK_SIZE |
| Assembly.SetBytes | ltq-nand.c:307 | memset: out holds len copies of the byte from `at` on and is unchanged elsewhere |
| Assembly.CopyBytes | ltq-nand.c:303 | memcpy: out holds len bytes of src from `at` on and is unchanged elsewhere |
| Assembly.ChunkRound | ltq-nand.c:312-317 | One ei_idx iteration writes the parity of its chunk, from zeroed registers, at the given offset and nothing else |
| Assembly.StoreChunk | ltq-nand.c:314-328 | The register stores put s[3], s[2], s[1], s[0] (ECC4) or s[2], s[1], s[0] (ECC3) at consecutive offsets and change nothing else |
| Assembly.ChunkLoop | ltq-nand.c:311-318 | The ei_idx loop over n chunks writes ParityBytes of those chunks at the OOB offset and nothing else |
| Assembly.StoreParity | ltq-nand.c:311-329 | The ei_idx loop over the P / 128 chunks of a page writes its parity bytes at the start of its OOB area |
| Assembly.WriteOob | ltq-nand.c:306-332 | The switch on oob_mode leaves exactly the OOB area Oob(page, mode) at the OOB offset and touches nothing else |
| Assembly.WritePage | ltq-nand.c:302-332 | One p_idx iteration writes page p followed by its OOB area at Times(p, P + O) and nothing else |
| Assembly.AssemblePages | ltq-nand.c:300-333 | The p_idx loop leaves the image of all pages at the start of out and the rest of out unchanged |
| Assembly.AssembleBlock | ltq-nand.c:297-334 | For a block of whole pages within the buffer, the out buffer starts with the image of all its pages, and that image has exactly the length fwrite writes |
| Config.CDiv | ltq-nand.c:283-285 | C's truncating `/` agrees with floor division for a non-negative dividend and positive divisor |
| Config.CRemBounds | ltq-nand.c:232 | C's `%` is the remainder of the magnitudes carrying the sign of the dividend, and is smaller than the divisor in magnitude |
| Config.CRemZeroIff | ltq-nand.c:269 | The C remainder is zero exactly when the divisor divides the dividend, for every sign |
| Config.DefaultsRun | ltq-nand.c:179-285 | With the default sizes and no flags, main stops for the missing input file; once both files are named it runs exactly when the file size is a multiple of 131072, and then in ECC4 mode with a 64-byte OOB area, 64 pages per block, file size / 131072 blocks and no size warning |
| Config.SelectMode | ltq-nand.c:275-280 | ECC3 exactly when strength is 3; otherwise ONES when -1 was given, ZEROS when only -0 was, and ECC4 when neither was |
| Config.Validate | ltq-nand.c:214-272 | main's check chain: a stop is always for one of main's own eight checks, and a run needs at least four arguments, both files and strength 3 or 4; ValidateRunsIff and ValidateStopsAtFirstFailure give the whole iff and the order |
| Config.OutputLength | ltq-nand.c:334 | fwrite's count block_size + O * pages_in_block; CheckedFitsBuffers proves it equals the image length and fits MAX_OOB_BLOCK_SIZE under the checked configuration |
| Config.Derive | ltq-nand.c:275-285 | The settings keep the option sizes and strength, take the mode from SelectMode, and flag the block-size warning exactly when block_size > MAX_BLOCK_SIZE; its counts are C quotients, see Config.DerivedQuotients |
| Config.DerivedQuotients | ltq-nand.c:283-285 | blocks, O and pages_in_block are C's truncating quotients: quotient times divisor plus the C remainder gives back the dividend, and the remainder is smaller than the divisor in magnitude and never of the opposite sign to the dividend |
| Config.ValidateStopsAtFirstFailure | ltq-nand.c:214-272 | When main stops, the reason is a check the options fail, and no check they fail comes earlier in the program |
| Config.ValidateRunsIff | ltq-nand.c:214-285 | main goes on exactly when the options pass all its checks, and then with nonzero sizes and the derived settings |
| Config.StrengthIsWidth | ltq-nand.c:238-280 | After the checks, an ECC mode writes as many parity bytes per chunk as the strength says, and a plain fill is chosen exactly when strength is 4 and -0 or -1 was given |
| Config.DerivedSizes | ltq-nand.c:283-285 | For positive sizes, O = P / 32, pages_in_block = block_size / P and blocks = file size / block_size |
| Config.OversizedBlockAccepted | ltq-nand.c:224-226 | A 1 MiB block passes main's checks with only the warning |
| Config.UnevenBlockAccepted | ltq-nand.c:285 | A 3072-byte block of 2048-byte pages passes the checks; the page loop fills 2112 bytes but fwrite writes 3136 |
| Config.NegativePageAccepted | ltq-nand.c:228-235 | A page size of -2048 passes the checks and gives -64 pages and a -64-byte OOB area, yet 135168 bytes are written |
| Config.ValidateChecked | ltq-nand.c:220-272 | The checked configuration runs exactly when main's checks pass and the block is within the buffer, both sizes are non-negative and the page divides the block; when it runs it agrees with main, and when main stops it stops for the same reason |
| Config.CheckedFitsBuffers | ltq-nand.c:283-334 | Under the checked configuration both sizes are positive, the block is a whole number of pages within MAX_BLOCK_SIZE, and the fwrite length is the image length within MAX_OOB_BLOCK_SIZE |
| Config.CheckedShape | ltq-nand.c:283-334 | Under the checked configuration the page is positive, O = P / 32, Times(pages_in_block, P) is exactly the block size within MAX_BLOCK_SIZE, and the fwrite length is Times(pages_in_block, P + O) |
| Config.ConvertBlockWith | ltq-nand.c:297-335 | For any valid pair of tables and under the checked configuration, one block iteration leaves the image of every page and its OOB area at the start of out_buffer, and fwrite's byte count is exactly that image's length |
| Config.ConvertBlock | ltq-nand.c:297-335 | The same with the compiled-in g_num2alpha and g_alpha2num: the out buffer starts with the image the program's own tables give, fwrite's count is its length |
| Config.OutputCodewords | ltq-nand.c:297-334 | Under the checked configuration in ECC4 or ECC3 mode and with the compiled-in tables, chunk k of page q, at q * (P + O) + k * 128 of the output, followed by the parity bytes at q * (P + O) + P + k * strength, vanishes at 2, 4 and 8, and at 195 for ECC4, for every page and every chunk of the block |

## Left out

- Option parsing with `getopt` and `atoi` (ltq-nand.c:194-213) is not modelled. Its results are the fields of `Config.Options`, and an unknown option's usage exit is left out.
- `print_usage`, every `printf` and `oob_mode_string` (ltq-nand.c:38, 164-173, 287-295) are not modelled. They only write to the console.
- File I/O is not modelled: `fopen`, `stat`, `fread`, `fwrite`, `fclose` and the `exit:` path (ltq-nand.c:252-272, 299, 334, 337-340).
  - The input file's size is a parameter.
  - Failures to open or stat a file are not modelled.
  - The block arrives as an array.
  - What fwrite would emit is the length `ConvertBlock` returns, applied to the out buffer.
  - The `exit:` path calls `fclose` on handles that may be uninitialised (every check before the `fopen` calls) or NULL (after a failed `fopen`), which is undefined behaviour, before `exit(0)`. An unknown option exits with `EXIT_FAILURE` instead.
- The outer loop over `blocks` (ltq-nand.c:297) is not modelled. It repeats the per-block conversion once per block read, and `ConvertBlock` models one iteration.
- The commented-out kernel fragment (ltq-nand.c:143-161) is dead code. It matches the store order that `Assembly.StoreChunk` proves.
- The program has no decoding or error correction, and neither does the model.
- Integer width is not modelled. All sizes are unbounded integers.
  - Under the checked configuration, every offset and length stays below MAX_OOB_BLOCK_SIZE, so the C's `int` arithmetic cannot overflow there.
  - Under main's own checks, `atoi` overflow and overflow in `block_size + O * pages_in_block` are not modelled.
- Gf.Mul: the table lookup is stated through the `Tables` pair. `GfTables.Antilog` answers 0 outside 0 .. 255 where the C array has no entry. `Gf.MulExponentValue` shows that such an index is never used.
- Config.Options: the input file size is a `nat`. `stat` reports a regular file's size as non-negative.
- Assembly.AssembleBlock: it requires a block size that is a whole number of pages and no larger than MAX_BLOCK_SIZE. main never checks either, so these are the conditions under which the page loop is correct. "## Findings" shows what happens without them.
- Config.DerivedSizes: it is stated for positive sizes only. For negative sizes, `Config.CDiv` and `Config.NegativePageAccepted` give C's truncating quotients.

## Findings

| source | as written | input that shows it | evidently intended | confidence | as-written member | corrected member |
|---|---|---|---|---|---|---|
| ltq-nand.c:224-226 | A block larger than MAX_BLOCK_SIZE only prints "Block size to large" and goes on; fread then writes past the 524288-byte block buffer | -b 1048576 -p 2048 on a 1 MiB input | Reject the block size like the other configuration errors | not executed | Config.OversizedBlockAccepted | Config.CheckedFitsBuffers |
| ltq-nand.c:285 | block_size % page_size is never checked: pages_in_block truncates, the last partial page is never copied, and fwrite emits block_size + O * pages bytes, more than the page loop wrote | -b 3072 -p 2048: the loop fills 2112 bytes, fwrite writes 3136 | Reject a block size that is not a whole number of pages | not executed | Config.UnevenBlockAccepted | Config.ValidateChecked |
| ltq-nand.c:228-235 | A negative page size passes the zero and multiple-of-32 checks; pages_in_block and the OOB size come out negative, the page loop writes nothing, and fwrite still emits 131072 + (-64) * (-64) bytes | -p -2048 with the default block size on a 131072-byte input | Reject non-positive sizes | not executed | Config.NegativePageAccepted | Config.ConvertBlock |
