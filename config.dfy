/** The configuration step of ltq-nand's main: the option values getopt and
    atoi produced are checked in a fixed order, the first failed check stops
    the program, and the survivors determine the OOB mode, the OOB area size
    O = P / 32, the pages per block and the number of input blocks.

    Validate is the checks as main performs them. Three inputs get past it
    that the page loop cannot handle: a block larger than the block buffer
    (only a warning is printed), a block size the page size does not divide,
    and negative sizes (atoi happily returns them). ValidateChecked adds the
    three missing checks; ConvertBlock runs one block through the page loop
    under it. */
module Config {
  import opened Gf
  import opened GfTables
  import opened ReedSolomon
  import opened Layout
  import opened Assembly

  // ---------------------------------------------------------------------
  // C integer division

  function Abs(a: int): nat {
    if a < 0 then -a else a
  }

  /** C's / on int: the quotient truncated toward zero. For a
      non-negative dividend and a positive divisor it is Dafny's. */
  function CDiv(a: int, b: int): (r: int)
    requires b != 0
    ensures a >= 0 && b > 0 ==> r == a / b
  {
    if (a < 0) == (b < 0) then Abs(a) / Abs(b) else -(Abs(a) / Abs(b))
  }

  /** C's % on int: what the truncating division leaves over. */
  function CRem(a: int, b: int): (r: int)
    requires b != 0
  {
    a - b * CDiv(a, b)
  }

  /** A nonzero multiple of b is at least as large as b. */
  lemma MulAbs(b: int, c: int)
    requires c != 0
    ensures Abs(b * c) >= Abs(b)
  {
    var m := Abs(b) * Abs(c);
    assert m == Abs(b) * (Abs(c) - 1) + Abs(b);
    assert Abs(b) * (Abs(c) - 1) >= 0;
    assert Abs(b * c) == m by {
      if b < 0 && c < 0 { assert b * c == (-b) * (-c); }
      else if b < 0 { assert b * c == -((-b) * c); }
      else if c < 0 { assert b * c == -(b * (-c)); }
    }
  }

  /** Euclidean division is the only way to write a as a multiple of b plus
      a remainder in 0 .. |b| - 1. */
  lemma ModUnique(a: int, b: int, q: int, m: int)
    requires b != 0 && a == b * q + m && 0 <= m < Abs(b)
    ensures m == a % b
  {
    var q0, m0 := a / b, a % b;
    assert b * (q - q0) == m0 - m by {
      assert b * q0 + m0 == b * q + m;
      assert b * (q - q0) == b * q - b * q0;
    }
    if q != q0 {
      MulAbs(b, q - q0);
    }
  }

  /** The remainder C defines: |a| % |b| with the sign of a, so smaller
      than the divisor in magnitude. */
  lemma CRemBounds(a: int, b: int)
    requires b != 0
    ensures CRem(a, b) == (if a < 0 then -(Abs(a) % Abs(b)) else Abs(a) % Abs(b))
    ensures Abs(CRem(a, b)) < Abs(b)
  {
    var q := Abs(a) / Abs(b);
    var p := Abs(b) * q;
    var m := Abs(a) % Abs(b);
    assert Abs(a) == p + m && m < Abs(b);
    ProductSign(a, b, q, p);
    assert CRem(a, b) == a - (if a < 0 then -p else p);
  }

  /** b times the truncated quotient is |b| * (|a| / |b|) with the sign of a. */
  lemma ProductSign(a: int, b: int, q: int, p: int)
    requires b != 0 && q == Abs(a) / Abs(b) && p == Abs(b) * q
    ensures b * CDiv(a, b) == if a < 0 then -p else p
  {
    if a >= 0 && b > 0 {
    } else if a < 0 && b < 0 {
      NegMul(Abs(b), q);
    } else if b < 0 {
      NegMul(Abs(b), q);
      var nb: int := -(Abs(b) as int);
      NegMul(nb, q);
    } else {
      var nb: int := -(Abs(b) as int);
      NegMul(nb, q);
    }
  }

  lemma NegMul(x: int, y: int)
    ensures (-x) * y == -(x * y) && x * (-y) == -(x * y)
  {
  }

  /** The C remainder is zero exactly when b divides a, whatever the signs:
      main's divisibility tests mean what they say for negative operands
      too. */
  lemma CRemZeroIff(a: int, b: int)
    requires b != 0
    ensures CRem(a, b) == 0 <==> a % b == 0
  {
    CRemBounds(a, b);
    var q := CDiv(a, b);
    if CRem(a, b) == 0 {
      ModUnique(a, b, q, 0);
    } else if a % b == 0 {
      var k := a / b;
      assert b * (k - q) == CRem(a, b) by {
        assert a == b * k;
        assert b * (k - q) == b * k - b * q;
      }
      MulAbs(b, k - q);
    }
  }

  // ---------------------------------------------------------------------
  // Options and checks

  /** What main knows once getopt is done: the argument count, the numbers
      atoi read from -b, -p and -e (or their defaults), the -0 and -1 flags,
      whether -i and -o were given, and the input file's size from stat. */
  datatype Options = Options(
    argCount: int,
    blockSize: int,
    pageSize: int,
    eccStrength: int,
    paddZero: bool,
    paddOnes: bool,
    hasInput: bool,
    hasOutput: bool,
    fileSize: nat)

  /** The values main starts from before reading any option. */
  function Defaults(argCount: int, fileSize: nat): Options {
    Options(argCount, 131072, 2048, 4, false, false, false, false, fileSize)
  }

  /** Why main stopped. The first eight are the checks of main in order;
      BlockTooLarge, NegativeSize and BlockNotMultipleOfPage are the ones
      only ValidateChecked makes. */
  datatype Reason =
    | TooFewArguments
    | ZeroBlockSize
    | ZeroPageSize
    | PageSizeNotMultipleOf32
    | UnsupportedStrength
    | NoInputFile
    | NoOutputFile
    | FileSizeNotMultipleOfBlock
    | BlockTooLarge
    | NegativeSize
    | BlockNotMultipleOfPage

  /** Position of each of main's checks in the program text. */
  function Rank(e: Reason): nat {
    match e
    case TooFewArguments => 0
    case ZeroBlockSize => 1
    case ZeroPageSize => 2
    case PageSizeNotMultipleOf32 => 3
    case UnsupportedStrength => 4
    case NoInputFile => 5
    case NoOutputFile => 6
    case FileSizeNotMultipleOfBlock => 7
    case BlockTooLarge => 8
    case NegativeSize => 9
    case BlockNotMultipleOfPage => 10
  }

  /** The reasons that are checks main itself makes (the first eight). */
  predicate MainCheck(e: Reason) {
    Rank(e) < 8
  }

  /** o fails the check named e. */
  predicate Violates(o: Options, e: Reason) {
    match e
    case TooFewArguments => o.argCount < 4
    case ZeroBlockSize => o.blockSize == 0
    case ZeroPageSize => o.pageSize == 0
    case PageSizeNotMultipleOf32 => o.pageSize % 32 != 0
    case UnsupportedStrength => o.eccStrength != 3 && o.eccStrength != 4
    case NoInputFile => !o.hasInput
    case NoOutputFile => !o.hasOutput
    case FileSizeNotMultipleOfBlock => o.blockSize != 0 && o.fileSize % o.blockSize != 0
    case BlockTooLarge => o.blockSize > MaxBlockSize
    case NegativeSize => o.blockSize < 0 || o.pageSize < 0
    case BlockNotMultipleOfPage => o.pageSize != 0 && o.blockSize % o.pageSize != 0
  }

  /** What the page loop runs with. tooLarge records the warning main prints
      for a block beyond MAX_BLOCK_SIZE. */
  datatype Settings = Settings(
    blockSize: int,
    pageSize: int,
    strength: int,
    mode: OobMode,
    blocks: int,
    oobSize: int,
    pagesInBlock: int,
    tooLarge: bool)

  datatype Outcome = Run(settings: Settings) | Stop(reason: Reason)

  /** Bytes fwrite writes per block: block_size + O * pages_in_block. */
  function OutputLength(s: Settings): int {
    s.blockSize + s.oobSize * s.pagesInBlock
  }

  // ---------------------------------------------------------------------
  // Mode selection

  /** oob_mode: ECC4 unless -0 picks ZEROS, -1 then picks ONES, and strength
      3 overrides both with ECC3. The later assignment wins, so the flags
      are weighed in reverse order. */
  function SelectMode(paddZero: bool, paddOnes: bool, strength: int): (r: OobMode)
    ensures r == Ecc3 <==> strength == 3
    ensures r == Ones <==> strength != 3 && paddOnes
    ensures r == Zeros <==> strength != 3 && !paddOnes && paddZero
    ensures r == Ecc4 <==> strength != 3 && !paddOnes && !paddZero
  {
    var initial := Ecc4;
    var afterZero := if paddZero then Zeros else initial;
    var afterOnes := if paddOnes then Ones else afterZero;
    if strength == 3 then Ecc3 else afterOnes
  }

  /** The settings main derives once every check has passed. */
  function Derive(o: Options): (s: Settings)
    requires o.blockSize != 0 && o.pageSize != 0
    ensures s.mode == SelectMode(o.paddZero, o.paddOnes, o.eccStrength)
    ensures s.blockSize == o.blockSize && s.pageSize == o.pageSize && s.strength == o.eccStrength
    ensures s.tooLarge <==> o.blockSize > MaxBlockSize
  {
    Settings(o.blockSize, o.pageSize, o.eccStrength,
             SelectMode(o.paddZero, o.paddOnes, o.eccStrength),
             CDiv(o.fileSize, o.blockSize), CDiv(o.pageSize, 32),
             CDiv(o.blockSize, o.pageSize), o.blockSize > MaxBlockSize)
  }

  // ---------------------------------------------------------------------
  // Validation as main performs it

  /** main's checks in program order, with C's % for the divisibility
      tests. A block beyond MAX_BLOCK_SIZE only sets the warning flag. */
  function Validate(o: Options): (r: Outcome)
    ensures r.Stop? ==> MainCheck(r.reason)
    ensures r.Run? ==> o.argCount >= 4 && o.hasInput && o.hasOutput && (o.eccStrength == 3 || o.eccStrength == 4)
  {
    if o.argCount < 4 then Stop(TooFewArguments)
    else if o.blockSize == 0 then Stop(ZeroBlockSize)
    else if o.pageSize == 0 then Stop(ZeroPageSize)
    else if CRem(o.pageSize, 32) != 0 then Stop(PageSizeNotMultipleOf32)
    else if o.eccStrength != 3 && o.eccStrength != 4 then Stop(UnsupportedStrength)
    else if !o.hasInput then Stop(NoInputFile)
    else if !o.hasOutput then Stop(NoOutputFile)
    else if CRem(o.fileSize, o.blockSize) != 0 then Stop(FileSizeNotMultipleOfBlock)
    else Run(Derive(o))
  }

  /** main stops at the first of its checks the options fail: the reason it
      reports is one they fail, and none they fail comes earlier. */
  lemma ValidateStopsAtFirstFailure(o: Options)
    requires Validate(o).Stop?
    ensures MainCheck(Validate(o).reason) && Violates(o, Validate(o).reason)
    ensures forall e :: MainCheck(e) && Violates(o, e) ==> Rank(Validate(o).reason) <= Rank(e)
  {
    if o.blockSize != 0 {
      CRemZeroIff(o.fileSize, o.blockSize);
    }
    CRemZeroIff(o.pageSize, 32);
  }

  /** main goes on exactly when the options pass all its checks, and then
      runs with the settings derived from them. */
  lemma ValidateRunsIff(o: Options)
    ensures Validate(o).Run? <==> forall e :: MainCheck(e) ==> !Violates(o, e)
    ensures Validate(o).Run? ==> o.blockSize != 0 && o.pageSize != 0 && Validate(o).settings == Derive(o)
  {
    if o.blockSize != 0 {
      CRemZeroIff(o.fileSize, o.blockSize);
    }
    CRemZeroIff(o.pageSize, 32);
    if Validate(o).Stop? {
      ValidateStopsAtFirstFailure(o);
    }
  }

  /** Once the checks pass, the ECC strength is the number of parity bytes
      each 128-byte chunk gets whenever an ECC mode was chosen, and the
      mode is an ECC mode unless -0 or -1 asked for a plain fill. */
  lemma StrengthIsWidth(o: Options)
    requires Validate(o).Run?
    ensures var m := Validate(o).settings.mode;
      (m == Ecc4 || m == Ecc3 ==> Width(m) == o.eccStrength)
      && (m == Zeros || m == Ones <==> o.eccStrength == 4 && (o.paddZero || o.paddOnes))
  {
    assert !Violates(o, UnsupportedStrength);
  }

  /** For accepted options with positive sizes, the OOB area is P / 32 bytes
      and the block holds B / P pages, in Dafny's division. */
  lemma DerivedSizes(o: Options)
    requires Validate(o).Run? && o.blockSize > 0 && o.pageSize > 0
    ensures Validate(o).settings.oobSize == o.pageSize / 32
    ensures Validate(o).settings.pagesInBlock == o.blockSize / o.pageSize
    ensures Validate(o).settings.blocks == o.fileSize / o.blockSize
  {
  }

  /** The three counts main derives are C's truncating quotients: each
      times its divisor falls short of the dividend by a remainder smaller
      than the divisor and of the dividend's sign. */
  lemma DerivedQuotients(o: Options)
    requires o.blockSize != 0 && o.pageSize != 0
    ensures var s := Derive(o);
      && 32 * s.oobSize + CRem(o.pageSize, 32) == o.pageSize
      && o.pageSize * s.pagesInBlock + CRem(o.blockSize, o.pageSize) == o.blockSize
      && o.blockSize * s.blocks + CRem(o.fileSize, o.blockSize) == o.fileSize
    ensures Abs(CRem(o.pageSize, 32)) < 32
    ensures o.pageSize >= 0 ==> CRem(o.pageSize, 32) >= 0
    ensures o.pageSize < 0 ==> CRem(o.pageSize, 32) <= 0
    ensures Abs(CRem(o.blockSize, o.pageSize)) < Abs(o.pageSize)
    ensures o.blockSize >= 0 ==> CRem(o.blockSize, o.pageSize) >= 0
    ensures o.blockSize < 0 ==> CRem(o.blockSize, o.pageSize) <= 0
    ensures 0 <= CRem(o.fileSize, o.blockSize) < Abs(o.blockSize)
  {
    CRemBounds(o.pageSize, 32);
    CRemBounds(o.blockSize, o.pageSize);
    CRemBounds(o.fileSize, o.blockSize);
  }

  /** With only -i and -o given, main stops for the missing input file
      until both files are named; then it runs exactly when the file is a
      whole number of 131072-byte blocks, in ECC4 mode with a 64-byte OOB
      area and 64 pages per block. */
  lemma DefaultsRun(argCount: int, fileSize: nat)
    requires argCount >= 4
    ensures Validate(Defaults(argCount, fileSize)) == Stop(NoInputFile)
    ensures var o := Defaults(argCount, fileSize).(hasInput := true, hasOutput := true);
      && (Validate(o).Run? <==> fileSize % 131072 == 0)
      && (Validate(o).Run? ==>
            && Validate(o).settings.mode == Ecc4 && Validate(o).settings.oobSize == 64
            && Validate(o).settings.pagesInBlock == 64
            && Validate(o).settings.blocks == fileSize / 131072
            && !Validate(o).settings.tooLarge)
  {
    assert CRem(2048, 32) == 0;
    CRemZeroIff(fileSize, 131072);
  }

  // ---------------------------------------------------------------------
  // What gets past Validate

  /** A sample command line's options: argc 9 (-i, -o, -b and -p with their
      values), strength 4, no fill flag. */
  function Sample(blockSize: int, pageSize: int, fileSize: nat): Options {
    Options(9, blockSize, pageSize, 4, false, false, true, true, fileSize)
  }

  /** A 1 MiB block is accepted with only the warning, although fread then
      reads twice MAX_BLOCK_SIZE bytes into the block buffer. */
  lemma OversizedBlockAccepted()
    ensures var o := Sample(1048576, 2048, 1048576);
      Validate(o).Run? && Validate(o).settings.tooLarge
      && o.blockSize > MaxBlockSize
  {
    var o := Sample(1048576, 2048, 1048576);
    assert CRem(2048, 32) == 0;
    assert CRem(1048576, 1048576) == 0;
  }

  /** A 3072-byte block of 2048-byte pages is accepted: the page loop fills
      one page and its OOB area, 2112 bytes, but fwrite emits 3136, the last
      1024 of them the never-written, zero-initialised tail of out_buffer,
      and the last 1024 input bytes of each block are never copied. */
  lemma UnevenBlockAccepted()
    ensures var o := Sample(3072, 2048, 3072);
      Validate(o).Run?
      && Validate(o).settings.pagesInBlock == 1
      && Validate(o).settings.pagesInBlock
         * (Validate(o).settings.pageSize + Validate(o).settings.oobSize) == 2112
      && OutputLength(Validate(o).settings) == 3136
  {
    assert CRem(2048, 32) == 0;
    assert CRem(3072, 3072) == 0;
  }

  /** A page size of -2048 is accepted: pages_in_block and the OOB size come
      out as -64, the page loop copies nothing, yet fwrite still emits
      131072 + (-64) * (-64) bytes of a buffer no page was written to. */
  lemma NegativePageAccepted()
    ensures var o := Sample(131072, -2048, 131072);
      Validate(o).Run?
      && Validate(o).settings.pagesInBlock == -64
      && Validate(o).settings.oobSize == -64
      && OutputLength(Validate(o).settings) == 135168
  {
    assert CRem(-2048, 32) == 0;
    assert CRem(131072, 131072) == 0;
  }

  // ---------------------------------------------------------------------
  // Validation with the missing checks

  /** main's checks with the block-size warning turned into a rejection
      and the sign of both sizes and the divisibility of the block by the
      page checked before any buffer is touched. */
  function ValidateChecked(o: Options): (r: Outcome)
    ensures r.Run? <==>
      (Validate(o).Run? && !Violates(o, BlockTooLarge)
       && !Violates(o, NegativeSize) && !Violates(o, BlockNotMultipleOfPage))
    ensures r.Run? ==> r == Validate(o)
    ensures r.Stop? && Validate(o).Stop? ==> r == Validate(o)
  {
    var v := Validate(o);
    if v.Stop? then v
    else if o.blockSize > MaxBlockSize then Stop(BlockTooLarge)
    else if o.blockSize < 0 || o.pageSize < 0 then Stop(NegativeSize)
    else if o.blockSize % o.pageSize != 0 then Stop(BlockNotMultipleOfPage)
    else v
  }

  /** Whatever ValidateChecked lets through meets every demand of the page
      loop: positive sizes, whole pages, a block the buffers hold, and the
      O and page count it was derived with. */
  lemma CheckedFitsBuffers(o: Options)
    requires ValidateChecked(o).Run?
    ensures var s := ValidateChecked(o).settings;
      && 0 < s.pageSize && 0 < s.blockSize <= MaxBlockSize
      && s.blockSize % s.pageSize == 0
      && s.oobSize == s.pageSize / 32
      && s.pagesInBlock == s.blockSize / s.pageSize
      && !s.tooLarge
      && OutputLength(s) == s.pagesInBlock * (s.pageSize + s.oobSize) <= MaxOobBlockSize
  {
    var s := ValidateChecked(o).settings;
    var b, p := s.blockSize, s.pageSize;
    EmittedLength(b, p);
    OutputFits(b, p);
    TimesIsProduct(b / p, p + p / 32);
  }

  /** One block through the page loop under the checked configuration, for
      any GF(256) tables: the output buffer starts with the image of every
      page and its OOB area, and the byte count fwrite uses is exactly its
      length. */
  method ConvertBlockWith(t: Tables, o: Options, block: array<bv8>, out: array<bv8>)
    returns (written: nat)
    requires ValidTables(t) && ValidateChecked(o).Run?
    requires block != out
    requires block.Length == MaxBlockSize && out.Length == MaxOobBlockSize
    modifies out
    ensures var s := ValidateChecked(o).settings;
      && Times(s.pagesInBlock, s.pageSize) == s.blockSize <= block.Length
      && written == OutputLength(s) <= out.Length
      && |Image(t, block[..], s.pageSize, s.pagesInBlock, s.mode)| == written
      && out[..] == Splice(old(out[..]), 0, Image(t, block[..], s.pageSize, s.pagesInBlock, s.mode))
  {
    var s := ValidateChecked(o).settings;
    CheckedFitsBuffers(o);
    var b, p, oob, n := s.blockSize, s.pageSize, s.oobSize, s.pagesInBlock;
    assert OutputLength(s) == n * (p + oob);
    written := AssembleBlock(t, block, out, b, p, oob, n, s.mode);
  }

  /** The same with the program's own tables. */
  method ConvertBlock(o: Options, block: array<bv8>, out: array<bv8>)
    returns (written: nat)
    requires ValidateChecked(o).Run?
    requires block != out
    requires block.Length == MaxBlockSize && out.Length == MaxOobBlockSize
    modifies out
    ensures var s := ValidateChecked(o).settings;
      && Times(s.pagesInBlock, s.pageSize) == s.blockSize <= block.Length
      && written == OutputLength(s) <= out.Length
      && |Image(NandTables, block[..], s.pageSize, s.pagesInBlock, s.mode)| == written
      && out[..] == Splice(old(out[..]), 0, Image(NandTables, block[..], s.pageSize, s.pagesInBlock, s.mode))
  {
    NandTablesValid();
    written := ConvertBlockWith(NandTables, o, block, out);
  }

  /** The page loop's geometry under the checked configuration in terms of
      Times: whole pages fill the block, and fwrite's count is the length
      of the pages with their OOB areas. */
  lemma CheckedShape(o: Options)
    requires ValidateChecked(o).Run?
    ensures var s := ValidateChecked(o).settings;
      && 0 < s.pageSize && 0 <= s.pagesInBlock && s.oobSize == s.pageSize / 32
      && Times(s.pagesInBlock, s.pageSize) == s.blockSize <= MaxBlockSize
      && OutputLength(s) == Times(s.pagesInBlock, s.pageSize + s.oobSize)
  {
    var s := ValidateChecked(o).settings;
    CheckedFitsBuffers(o);
    EmittedLength(s.blockSize, s.pageSize);
  }

  /** In an ECC mode, for options that pass the checks with settings s,
      every 128-byte chunk of every page of the block, read back from the
      output at q * (P + O) + k * 128 and followed by the parity bytes at
      q * (P + O) + P + k * strength, is a codeword of the mode's
      Reed-Solomon code under the program's own tables. */
  lemma OutputCodewords(o: Options, s: Settings, block: seq<bv8>, q: nat, k: nat, from: int, oobFrom: int)
    requires ValidateChecked(o) == Run(s) && |block| == MaxBlockSize
    requires s.mode == Ecc4 || s.mode == Ecc3
    requires q < s.pagesInBlock && k < s.pageSize / ChunkSize
    requires from == q * (s.pageSize + s.oobSize) + k * ChunkSize
    requires oobFrom == q * (s.pageSize + s.oobSize) + s.pageSize + k * Width(s.mode)
    ensures Times(s.pagesInBlock, s.pageSize) == s.blockSize <= |block|
    ensures CodewordAt(NandTables, Image(NandTables, block, s.pageSize, s.pagesInBlock, s.mode), from, oobFrom, s.mode)
  {
    NandTablesValid();
    CheckedShape(o);
    ImageCodeword(NandTables, block, s.pageSize, s.oobSize, s.pagesInBlock, q, k, s.mode, from, oobFrom);
  }
}
