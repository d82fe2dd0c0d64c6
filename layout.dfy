/** The per-block body of ltq-nand's main loop: every page of the input
    block is copied to the output buffer and followed by its OOB (spare)
    area. With page size P the OOB area has O = P / 32 bytes, so page p
    occupies out[p * (P + O) .. p * (P + O) + P] and its OOB area the O bytes
    right after it. Offsets are written Times(p, P + O): the product spelt
    out as repeated addition, which TimesIsProduct equates with p * (P + O).

    The OOB area is all 0x00 (Zeros), all 0xFF (Ones), or 0xFF with the
    parity bytes of each 128-byte chunk of the page written at its start,
    four per chunk for Ecc4 and three for Ecc3, highest register first.

    Both levels have the same shape: a buffer cut into pieces of one size
    (pages of a block, chunks of a page), each piece turned into a frame of
    one width (page and OOB area, parity bytes), the frames laid end to end.
    Frames states that shape once and FramesPlacement proves where each
    frame lands; Image (the assembled pages) and ParityBytes are its two
    instances. Image is the specification Assembly proves the C loop
    over the output array against. */
module Layout {
  import opened Gf
  import opened Poly
  import opened ReedSolomon

  /** oob_mode: ZEROS, ONES, ECC4 and ECC3. */
  datatype OobMode = Zeros | Ones | Ecc4 | Ecc3

  /** Size of the input block buffer (MAX_BLOCK_SIZE). */
  const MaxBlockSize: nat := 524288
  /** Size of the output buffer (MAX_OOB_BLOCK_SIZE): a block of the largest
      size plus one OOB byte per 32 data bytes. */
  const MaxOobBlockSize: nat := 540672

  /** The strength argument each ECC mode passes to the parity generator. */
  function Strength(mode: OobMode): int {
    if mode == Ecc4 then ECC4 else if mode == Ecc3 then ECC3 else 0
  }

  /** Parity bytes stored per 128-byte chunk. */
  function Width(mode: OobMode): nat {
    if mode == Ecc4 then 4 else if mode == Ecc3 then 3 else 0
  }

  /** a * b, as b + ... + b: the offset of part a when every part is b
      bytes wide. */
  function Times(a: nat, b: nat): nat {
    if a == 0 then 0 else Times(a - 1, b) + b
  }

  lemma {:induction false} TimesIsProduct(a: nat, b: nat)
    ensures Times(a, b) == a * b
  {
    if a > 0 {
      TimesIsProduct(a - 1, b);
      assert (a - 1) * b + b == a * b;
    }
  }

  /** Distinct parts of width w occupy disjoint stretches, in order: the one
      at Times(q1, w) ends where the one at Times(q2, w) can start at the
      earliest. */
  lemma {:induction false} RegionsDisjoint(q1: nat, q2: nat, w: nat)
    requires q1 < q2
    ensures Times(q1, w) + w <= Times(q2, w)
    decreases q2
  {
    if q1 < q2 - 1 {
      RegionsDisjoint(q1, q2 - 1, w);
    }
  }

  lemma MulMono(a: nat, b: nat, c: nat)
    requires a <= b
    ensures a * c <= b * c
  {
  }

  // ---------------------------------------------------------------------
  // Frames laid end to end

  /** Piece q of a buffer cut into pieces of `size` bytes: page q of a block,
      chunk q of a page. */
  function Piece(data: seq<bv8>, size: nat, q: nat): (r: seq<bv8>)
    requires Times(q, size) + size <= |data|
    ensures |r| == size
  {
    data[Times(q, size) .. Times(q, size) + size]
  }

  /** The frames of the first n pieces, in order. */
  function Frames(frame: seq<bv8> -> seq<bv8>, data: seq<bv8>, size: nat, n: nat): seq<bv8>
    requires Times(n, size) <= |data|
  {
    if n == 0 then []
    else Frames(frame, data, size, n - 1) + frame(Piece(data, size, n - 1))
  }

  /** Every piece of `size` bytes has a frame of w bytes. */
  ghost predicate FrameWidth(frame: seq<bv8> -> seq<bv8>, size: nat, w: nat) {
    forall piece: seq<bv8> | |piece| == size :: |frame(piece)| == w
  }

  lemma {:induction false} FramesLength(frame: seq<bv8> -> seq<bv8>, data: seq<bv8>, size: nat, n: nat, w: nat)
    requires Times(n, size) <= |data| && FrameWidth(frame, size, w)
    ensures |Frames(frame, data, size, n)| == Times(n, w)
  {
    if n > 0 {
      FramesLength(frame, data, size, n - 1, w);
    }
  }

  /** The frames of n pieces are those of n - 1 pieces followed by the
      frame of piece n - 1. */
  lemma FramesSnoc(frame: seq<bv8> -> seq<bv8>, data: seq<bv8>, size: nat, n: nat)
    requires 0 < n && Times(n, size) <= |data|
    ensures Times(n - 1, size) + size == Times(n, size)
    ensures Frames(frame, data, size, n)
         == Frames(frame, data, size, n - 1) + frame(Piece(data, size, n - 1))
  {
  }

  /** The frame of piece q sits at Times(q, w) among the frames of n
      pieces, and the frames do not overlap. */
  lemma {:induction false} FramesPlacement(frame: seq<bv8> -> seq<bv8>, data: seq<bv8>, size: nat, n: nat,
                                           q: nat, w: nat)
    requires q < n && Times(n, size) <= |data| && FrameWidth(frame, size, w)
    ensures Times(q, size) + size <= |data|
    ensures Times(q, w) + w <= |Frames(frame, data, size, n)|
    ensures Frames(frame, data, size, n)[Times(q, w) .. Times(q, w) + w] == frame(Piece(data, size, q))
    decreases n
  {
    FramesSnoc(frame, data, size, n);
    FramesLength(frame, data, size, n - 1, w);
    var whole := Frames(frame, data, size, n);
    var front := Frames(frame, data, size, n - 1);
    var last := frame(Piece(data, size, n - 1));
    if q < n - 1 {
      FramesPlacement(frame, data, size, n - 1, q, w);
      FrontSlice(whole, front, last, Times(q, w), w, frame(Piece(data, size, q)));
    } else {
      LastSlice(whole, front, last, Times(q, w), w);
    }
  }

  /** FramesSnoc for k + 1 pieces, with the whole, the front and the last
      frame named by the caller. */
  lemma FramesSnocAt(frame: seq<bv8> -> seq<bv8>, data: seq<bv8>, size: nat, k: nat,
                     whole: seq<bv8>, front: seq<bv8>, last: seq<bv8>)
    requires Times(k, size) + size <= |data| && Times(k + 1, size) <= |data|
    requires whole == Frames(frame, data, size, k + 1)
    requires front == Frames(frame, data, size, k)
    requires frame(Piece(data, size, k)) == last
    ensures whole == front + last
  {
    FramesSnoc(frame, data, size, k + 1);
  }

  /** FramesPlacement for a whole and a frame named by the caller. */
  lemma FramesAt(frame: seq<bv8> -> seq<bv8>, data: seq<bv8>, size: nat, n: nat, q: nat, w: nat,
                 whole: seq<bv8>, part: seq<bv8>)
    requires q < n && Times(n, size) <= |data| && Times(q, size) + size <= |data|
    requires FrameWidth(frame, size, w)
    requires whole == Frames(frame, data, size, n)
    requires frame(Piece(data, size, q)) == part
    ensures Times(q, w) + w <= |whole| && whole[Times(q, w) .. Times(q, w) + w] == part
  {
    FramesPlacement(frame, data, size, n, q, w);
  }

  // ---------------------------------------------------------------------
  // The OOB area of one page

  /** The bytes stored for one chunk: the parity registers, computed from
      zero, highest first. */
  function ChunkParity(t: Tables, chunk: seq<bv8>, mode: OobMode): (r: seq<bv8>)
    ensures |r| == Width(mode)
  {
    var s := Parity(t, Zero, chunk, Strength(mode));
    if mode == Ecc4 then Ecc4Bytes(s)
    else if mode == Ecc3 then Ecc3Bytes(s)
    else []
  }

  /** ChunkParity as a function of the chunk. */
  function ParityFrame(t: Tables, mode: OobMode): seq<bv8> -> seq<bv8> {
    chunk => ChunkParity(t, chunk, mode)
  }

  lemma ParityFrameWidth(t: Tables, mode: OobMode)
    ensures FrameWidth(ParityFrame(t, mode), ChunkSize, Width(mode))
  {
  }

  lemma ParityFrameApply(t: Tables, mode: OobMode, chunk: seq<bv8>)
    ensures ParityFrame(t, mode)(chunk) == ChunkParity(t, chunk, mode)
  {
  }

  /** The parity bytes of the first n chunks of a page, in chunk order. */
  function ParityBytes(t: Tables, page: seq<bv8>, n: nat, mode: OobMode): (r: seq<bv8>)
    requires Times(n, ChunkSize) <= |page|
    ensures |r| == Times(n, Width(mode))
  {
    ParityFrameWidth(t, mode);
    FramesLength(ParityFrame(t, mode), page, ChunkSize, n, Width(mode));
    Frames(ParityFrame(t, mode), page, ChunkSize, n)
  }

  /** The parity bytes of k + 1 chunks are those of k chunks followed by
      the parity of chunk k. */
  lemma ParitySnoc(t: Tables, page: seq<bv8>, k: nat, mode: OobMode)
    requires Times(k + 1, ChunkSize) <= |page|
    ensures Times(k, ChunkSize) + ChunkSize == Times(k + 1, ChunkSize)
    ensures ParityBytes(t, page, k + 1, mode)
         == ParityBytes(t, page, k, mode) + ChunkParity(t, Piece(page, ChunkSize, k), mode)
  {
    ParityFrameApply(t, mode, Piece(page, ChunkSize, k));
    FramesSnocAt(ParityFrame(t, mode), page, ChunkSize, k, ParityBytes(t, page, k + 1, mode),
                 ParityBytes(t, page, k, mode), ChunkParity(t, Piece(page, ChunkSize, k), mode));
  }

  /** Chunk k's parity sits at Times(k, Width) among the parity bytes of
      the first n chunks. */
  lemma ParityPlacement(t: Tables, page: seq<bv8>, n: nat, k: nat, mode: OobMode)
    requires k < n && Times(n, ChunkSize) <= |page|
    ensures Times(k, ChunkSize) + ChunkSize <= |page|
    ensures Times(k, Width(mode)) + Width(mode) <= Times(n, Width(mode))
    ensures ParityBytes(t, page, n, mode)[Times(k, Width(mode)) .. Times(k, Width(mode)) + Width(mode)]
         == ChunkParity(t, Piece(page, ChunkSize, k), mode)
  {
    ParityFrameWidth(t, mode);
    FramesPlacement(ParityFrame(t, mode), page, ChunkSize, n, k, Width(mode));
    ParityFrameApply(t, mode, Piece(page, ChunkSize, k));
  }

  /** n copies of byte b (memset). */
  function Fill(b: bv8, n: nat): (r: seq<bv8>)
    ensures |r| == n
    ensures forall i | 0 <= i < n :: r[i] == b
  {
    seq(n, _ => b)
  }

  /** Every chunk's parity fits in the OOB area: 4 * (P / 128) <= P / 32. */
  lemma ParityFits(pageSize: nat)
    ensures 3 * (pageSize / ChunkSize) <= 4 * (pageSize / ChunkSize) <= pageSize / 32
  {
    var q := pageSize / ChunkSize;
    assert 128 * q <= pageSize;
    assert 32 * (4 * q) <= pageSize;
  }

  /** The whole chunks fit the page, and their parity the OOB area. */
  lemma ParityRoom(len: nat, w: nat)
    requires w <= 4
    ensures Times(len / ChunkSize, ChunkSize) <= len && Times(len / ChunkSize, w) <= len / 32
  {
    ParityFits(len);
    TimesIsProduct(len / ChunkSize, ChunkSize);
    TimesIsProduct(len / ChunkSize, w);
    MulMono(w, 4, len / ChunkSize);
  }

  /** The OOB area of a page. */
  function Oob(t: Tables, page: seq<bv8>, mode: OobMode): (r: seq<bv8>)
    ensures |r| == |page| / 32
  {
    var size := |page| / 32;
    if mode == Zeros then Fill(0, size)
    else if mode == Ones then Fill(0xff, size)
    else
      ParityRoom(|page|, Width(mode));
      var p := ParityBytes(t, page, |page| / ChunkSize, mode);
      p + Fill(0xff, size - |p|)
  }

  /** In Zeros mode every OOB byte is 0x00, in Ones mode every OOB byte is
      0xff. */
  lemma OobFilled(t: Tables, page: seq<bv8>, mode: OobMode)
    requires mode == Zeros || mode == Ones
    ensures forall i | 0 <= i < |page| / 32 :: Oob(t, page, mode)[i] == if mode == Zeros then 0 else 0xff
  {
  }

  /** In an ECC mode the OOB area is the parity bytes of every whole chunk,
      padded with 0xff. */
  lemma OobEcc(t: Tables, page: seq<bv8>, mode: OobMode)
    requires mode == Ecc4 || mode == Ecc3
    ensures Times(|page| / ChunkSize, ChunkSize) <= |page|
    ensures |ParityBytes(t, page, |page| / ChunkSize, mode)| <= |page| / 32
    ensures var p := ParityBytes(t, page, |page| / ChunkSize, mode);
      Oob(t, page, mode) == p + Fill(0xff, |page| / 32 - |p|)
  {
    ParityRoom(|page|, Width(mode));
  }

  /** In an ECC mode, OOB bytes Times(k, Width) .. Times(k, Width) + Width
      hold the parity of chunk k. */
  lemma OobParity(t: Tables, page: seq<bv8>, mode: OobMode, k: nat)
    requires mode == Ecc4 || mode == Ecc3
    requires k < |page| / ChunkSize
    ensures Times(k, ChunkSize) + ChunkSize <= |page|
    ensures Times(k, Width(mode)) + Width(mode) <= |page| / 32
    ensures Oob(t, page, mode)[Times(k, Width(mode)) .. Times(k, Width(mode)) + Width(mode)]
         == ChunkParity(t, Piece(page, ChunkSize, k), mode)
  {
    var n := |page| / ChunkSize;
    var w := Width(mode);
    ParityRoom(|page|, w);
    ParityPlacement(t, page, n, k, mode);
    OobEcc(t, page, mode);
    var p := ParityBytes(t, page, n, mode);
    PrefixSlice(p, Fill(0xff, |page| / 32 - |p|), Times(k, w), w);
  }

  /** In an ECC mode every OOB byte after the last chunk's parity stays
      0xff. */
  lemma OobTail(t: Tables, page: seq<bv8>, mode: OobMode)
    requires mode == Ecc4 || mode == Ecc3
    ensures Times(|page| / ChunkSize, Width(mode)) <= |page| / 32
    ensures forall i | Times(|page| / ChunkSize, Width(mode)) <= i < |page| / 32 :: Oob(t, page, mode)[i] == 0xff
  {
    ParityRoom(|page|, Width(mode));
  }

  /** With valid tables every chunk of a page followed by its stored
      parity bytes is a codeword: for Ecc4 it vanishes at 2, 4, 8 and 195,
      for Ecc3 at 2, 4 and 8. */
  lemma OobCodeword(t: Tables, page: seq<bv8>, mode: OobMode, k: nat)
    requires ValidTables(t)
    requires mode == Ecc4 || mode == Ecc3
    requires k < |page| / ChunkSize
    ensures Times(k, ChunkSize) + ChunkSize <= |page|
    ensures Times(k, Width(mode)) + Width(mode) <= |page| / 32
    ensures var w := Width(mode);
      Codeword(t, page[Times(k, ChunkSize) .. Times(k, ChunkSize) + ChunkSize] + Oob(t, page, mode)[Times(k, w) .. Times(k, w) + w], Strength(mode))
  {
    OobParity(t, page, mode, k);
    ChunkCodeword(t, Piece(page, ChunkSize, k), mode);
  }

  /** With valid tables a chunk followed by the parity bytes an ECC mode
      stores for it is a codeword of that mode's code. */
  lemma ChunkCodeword(t: Tables, chunk: seq<bv8>, mode: OobMode)
    requires ValidTables(t)
    requires mode == Ecc4 || mode == Ecc3
    ensures Codeword(t, chunk + ChunkParity(t, chunk, mode), Strength(mode))
  {
    var s := Parity(t, Zero, chunk, Strength(mode));
    if mode == Ecc4 {
      assert ChunkParity(t, chunk, mode) == Ecc4Bytes(s);
      Ecc4ParityCodeword(t, chunk);
      RootsCodeword(t, chunk + Ecc4Bytes(s), ECC4);
    } else {
      assert ChunkParity(t, chunk, mode) == Ecc3Bytes(s);
      Ecc3ParityCodeword(t, chunk);
      RootsCodeword(t, chunk + Ecc3Bytes(s), ECC3);
    }
  }

  // ---------------------------------------------------------------------
  // The pages of a block

  /** A page followed by its OOB area. */
  function PageImage(t: Tables, page: seq<bv8>, mode: OobMode): (r: seq<bv8>)
    ensures |r| == |page| + |page| / 32
  {
    page + Oob(t, page, mode)
  }

  /** PageImage as a function of the page. */
  function PageFrame(t: Tables, mode: OobMode): seq<bv8> -> seq<bv8> {
    page => PageImage(t, page, mode)
  }

  lemma PageFrameWidth(t: Tables, mode: OobMode, pageSize: nat, oobSize: nat)
    requires oobSize == pageSize / 32
    ensures FrameWidth(PageFrame(t, mode), pageSize, pageSize + oobSize)
  {
  }

  lemma PageFrameApply(t: Tables, mode: OobMode, page: seq<bv8>)
    ensures PageFrame(t, mode)(page) == PageImage(t, page, mode)
  {
  }

  /** The first n pages of a block, each followed by its OOB area. */
  function Image(t: Tables, block: seq<bv8>, pageSize: nat, n: nat, mode: OobMode): seq<bv8>
    requires Times(n, pageSize) <= |block|
  {
    Frames(PageFrame(t, mode), block, pageSize, n)
  }

  lemma ImageIsFrames(t: Tables, block: seq<bv8>, pageSize: nat, n: nat, mode: OobMode)
    requires Times(n, pageSize) <= |block|
    ensures Image(t, block, pageSize, n, mode) == Frames(PageFrame(t, mode), block, pageSize, n)
  {
  }

  /** Each page of P bytes contributes P + O bytes to the image. */
  lemma ImageLength(t: Tables, block: seq<bv8>, pageSize: nat, oobSize: nat, n: nat, mode: OobMode)
    requires Times(n, pageSize) <= |block| && oobSize == pageSize / 32
    ensures |Image(t, block, pageSize, n, mode)| == Times(n, pageSize + oobSize)
  {
    PageFrameWidth(t, mode, pageSize, oobSize);
    ImageIsFrames(t, block, pageSize, n, mode);
    FramesLength(PageFrame(t, mode), block, pageSize, n, pageSize + oobSize);
  }

  /** The image of k + 1 pages is the image of k pages followed by page k
      and its OOB area. */
  lemma ImageSnoc(t: Tables, block: seq<bv8>, pageSize: nat, k: nat, mode: OobMode)
    requires Times(k + 1, pageSize) <= |block|
    ensures Times(k, pageSize) + pageSize == Times(k + 1, pageSize)
    ensures Image(t, block, pageSize, k + 1, mode)
         == Image(t, block, pageSize, k, mode) + PageImage(t, Piece(block, pageSize, k), mode)
  {
    ImageIsFrames(t, block, pageSize, k + 1, mode);
    ImageIsFrames(t, block, pageSize, k, mode);
    PageFrameApply(t, mode, Piece(block, pageSize, k));
    FramesSnocAt(PageFrame(t, mode), block, pageSize, k, Image(t, block, pageSize, k + 1, mode),
                 Image(t, block, pageSize, k, mode), PageImage(t, Piece(block, pageSize, k), mode));
  }

  /** The C addresses the OOB area of page p at (p + 1) * P + p * O, which
      is right after the page itself at p * (P + O). */
  lemma OobOffset(p: nat, pageSize: nat, oobSize: nat)
    ensures (p + 1) * pageSize + p * oobSize == p * (pageSize + oobSize) + pageSize
  {
    calc {
      (p + 1) * pageSize + p * oobSize;
      p * pageSize + pageSize + p * oobSize;
      p * (pageSize + oobSize) + pageSize;
    }
  }

  /** Page q of the block and its OOB area of oobSize bytes sit at
      Times(q, P + O) in the image of n pages. */
  lemma ImagePlacement(t: Tables, block: seq<bv8>, pageSize: nat, oobSize: nat, n: nat, q: nat, mode: OobMode)
    requires q < n && Times(n, pageSize) <= |block| && oobSize == pageSize / 32
    ensures Times(q, pageSize) + pageSize <= |block|
    ensures Times(q, pageSize + oobSize) + (pageSize + oobSize) <= |Image(t, block, pageSize, n, mode)|
         && Image(t, block, pageSize, n, mode)[Times(q, pageSize + oobSize) .. Times(q, pageSize + oobSize) + (pageSize + oobSize)]
            == PageImage(t, Piece(block, pageSize, q), mode)
  {
    RegionsDisjoint(q, n, pageSize);
    PageFrameWidth(t, mode, pageSize, oobSize);
    var image := Image(t, block, pageSize, n, mode);
    var page := Piece(block, pageSize, q);
    var part := PageImage(t, page, mode);
    PageFrameApply(t, mode, page);
    FramesAt(PageFrame(t, mode), block, pageSize, n, q, pageSize + oobSize, image, part);
  }

  /** Within the image of n pages, page q sits at Times(q, P + O) and is
      followed directly by its OOB area. */
  lemma PagePlacement(t: Tables, block: seq<bv8>, pageSize: nat, oobSize: nat, n: nat, q: nat, mode: OobMode)
    requires q < n && Times(n, pageSize) <= |block| && oobSize == pageSize / 32
    ensures Times(q, pageSize) + pageSize <= |block|
    ensures |Image(t, block, pageSize, n, mode)| == Times(n, pageSize + oobSize)
    ensures Times(q, pageSize + oobSize) + pageSize + oobSize <= Times(n, pageSize + oobSize)
    ensures Image(t, block, pageSize, n, mode)[Times(q, pageSize + oobSize) .. Times(q, pageSize + oobSize) + pageSize]
            == Piece(block, pageSize, q)
    ensures Image(t, block, pageSize, n, mode)[Times(q, pageSize + oobSize) + pageSize .. Times(q, pageSize + oobSize) + pageSize + oobSize]
            == Oob(t, Piece(block, pageSize, q), mode)
  {
    ImagePlacement(t, block, pageSize, oobSize, n, q, mode);
    var page := Piece(block, pageSize, q);
    SplitPage(Image(t, block, pageSize, n, mode), q, PageImage(t, page, mode), page, Oob(t, page, mode),
              pageSize, oobSize);
    RegionsDisjoint(q, n, pageSize + oobSize);
    ImageLength(t, block, pageSize, oobSize, n, mode);
  }

  /** In `image`, the 128-byte chunk at `from` followed by the parity bytes
      at `oobFrom` that the mode stores for it: the chunk lies before its
      parity bytes, both lie inside the image, and together they form a
      codeword of the mode's code. */
  ghost predicate CodewordAt(t: Tables, image: seq<bv8>, from: int, oobFrom: int, mode: OobMode) {
    && 0 <= from && from + ChunkSize <= oobFrom && oobFrom + Width(mode) <= |image|
    && Codeword(t, ChunkAndParity(image, from, oobFrom, mode), Strength(mode))
  }

  /** The 128 bytes of `image` at `from` followed by the parity bytes of
      `mode` at `oobFrom`. */
  function ChunkAndParity(image: seq<bv8>, from: nat, oobFrom: nat, mode: OobMode): seq<bv8>
    requires from + ChunkSize <= |image| && oobFrom + Width(mode) <= |image|
  {
    image[from .. from + ChunkSize] + image[oobFrom .. oobFrom + Width(mode)]
  }

  /** The offsets of chunk `k` of page `q` and of its parity bytes, written with `Times`. */
  lemma ChunkOffsets(q: nat, pageSize: nat, oobSize: nat, k: nat, mode: OobMode, from: int, oobFrom: int)
    requires from == q * (pageSize + oobSize) + k * ChunkSize
    requires oobFrom == q * (pageSize + oobSize) + pageSize + k * Width(mode)
    ensures from == Times(q, pageSize + oobSize) + Times(k, ChunkSize)
    ensures oobFrom == Times(q, pageSize + oobSize) + pageSize + Times(k, Width(mode))
  {
    TimesIsProduct(q, pageSize + oobSize);
    TimesIsProduct(k, ChunkSize);
    TimesIsProduct(k, Width(mode));
  }

  /** In the image of n pages, chunk k of page q, which starts at
      q * (P + O) + k * 128, followed by the parity bytes page q's OOB area
      holds for it, at q * (P + O) + P + k * strength, is a codeword. */
  lemma ImageCodeword(t: Tables, block: seq<bv8>, pageSize: nat, oobSize: nat, n: nat, q: nat, k: nat,
                      mode: OobMode, from: int, oobFrom: int)
    requires ValidTables(t) && (mode == Ecc4 || mode == Ecc3)
    requires q < n && Times(n, pageSize) <= |block| && oobSize == pageSize / 32
    requires k < pageSize / ChunkSize
    requires from == q * (pageSize + oobSize) + k * ChunkSize
    requires oobFrom == q * (pageSize + oobSize) + pageSize + k * Width(mode)
    ensures CodewordAt(t, Image(t, block, pageSize, n, mode), from, oobFrom, mode)
  {
    ChunkOffsets(q, pageSize, oobSize, k, mode, from, oobFrom);
    PagePlacement(t, block, pageSize, oobSize, n, q, mode);
    PlacedCodeword(t, Image(t, block, pageSize, n, mode), q, Piece(block, pageSize, q), pageSize, oobSize, k,
                   mode, from, oobFrom);
  }

  /** In any sequence holding page q at its offset and the page's OOB area
      right after it, chunk k of the page followed by its parity bytes is a
      codeword. */
  lemma PlacedCodeword(t: Tables, x: seq<bv8>, q: nat, page: seq<bv8>, pageSize: nat, oobSize: nat, k: nat,
                       mode: OobMode, from: int, oobFrom: int)
    requires ValidTables(t) && (mode == Ecc4 || mode == Ecc3)
    requires |page| == pageSize && oobSize == pageSize / 32 && k < pageSize / ChunkSize
    requires Times(q, pageSize + oobSize) + pageSize + oobSize <= |x|
    requires x[Times(q, pageSize + oobSize) .. Times(q, pageSize + oobSize) + pageSize] == page
    requires x[Times(q, pageSize + oobSize) + pageSize .. Times(q, pageSize + oobSize) + pageSize + oobSize]
             == Oob(t, page, mode)
    requires from == Times(q, pageSize + oobSize) + Times(k, ChunkSize)
    requires oobFrom == Times(q, pageSize + oobSize) + pageSize + Times(k, Width(mode))
    ensures CodewordAt(t, x, from, oobFrom, mode)
  {
    OobCodeword(t, page, mode, k);
    SlicedCodeword(t, x, q, page, Oob(t, page, mode), pageSize, oobSize, k, mode, from, oobFrom);
  }

  /** The same, for any OOB area whose stretch for chunk k completes the
      chunk to a codeword. */
  lemma SlicedCodeword(t: Tables, x: seq<bv8>, q: nat, page: seq<bv8>, oob: seq<bv8>, pageSize: nat,
                       oobSize: nat, k: nat, mode: OobMode, from: int, oobFrom: int)
    requires |page| == pageSize && |oob| == oobSize && Times(q, pageSize + oobSize) + pageSize + oobSize <= |x|
    requires x[Times(q, pageSize + oobSize) .. Times(q, pageSize + oobSize) + pageSize] == page
    requires x[Times(q, pageSize + oobSize) + pageSize .. Times(q, pageSize + oobSize) + pageSize + oobSize] == oob
    requires Times(k, ChunkSize) + ChunkSize <= pageSize && Times(k, Width(mode)) + Width(mode) <= oobSize
    requires var w := Width(mode);
      Codeword(t, page[Times(k, ChunkSize) .. Times(k, ChunkSize) + ChunkSize] + oob[Times(k, w) .. Times(k, w) + w],
               Strength(mode))
    requires from == Times(q, pageSize + oobSize) + Times(k, ChunkSize)
    requires oobFrom == Times(q, pageSize + oobSize) + pageSize + Times(k, Width(mode))
    ensures CodewordAt(t, x, from, oobFrom, mode)
  {
    var at, w := Times(q, pageSize + oobSize), Width(mode);
    ChunksOfPart(x, at, page, oob, pageSize, oobSize, Times(k, ChunkSize), Times(k, w), w);
  }

  /** Chunk `off` of a placed page, and the stretch `oobOff` of the OOB area
      placed right after it. */
  lemma ChunksOfPart(image: seq<bv8>, at: nat, page: seq<bv8>, oob: seq<bv8>, pageSize: nat, oobSize: nat,
                     off: nat, oobOff: nat, w: nat)
    requires |page| == pageSize && |oob| == oobSize && at + pageSize + oobSize <= |image|
    requires image[at .. at + pageSize] == page && image[at + pageSize .. at + pageSize + oobSize] == oob
    requires off + ChunkSize <= pageSize && oobOff + w <= oobSize
    ensures image[at + off .. at + off + ChunkSize] == page[off .. off + ChunkSize]
    ensures image[at + pageSize + oobOff .. at + pageSize + oobOff + w] == oob[oobOff .. oobOff + w]
  {
    SubSlice(image, at, page, off, ChunkSize);
    SubSlice(image, at + pageSize, oob, oobOff, w);
  }

  /** A stretch inside a placed part is the matching stretch of the part. */
  lemma SubSlice(x: seq<bv8>, at: nat, u: seq<bv8>, off: nat, len: nat)
    requires at + |u| <= |x| && x[at .. at + |u|] == u && off + len <= |u|
    ensures x[at + off .. at + off + len] == u[off .. off + len]
  {
    var a, b := x[at + off .. at + off + len], u[off .. off + len];
    forall i | 0 <= i < len
      ensures a[i] == b[i]
    {
      assert u[off + i] == x[at .. at + |u|][off + i];
    }
  }

  /** A page image placed at `at` splits into the page and its OOB area. */
  lemma SplitPage(image: seq<bv8>, q: nat, part: seq<bv8>, page: seq<bv8>, oob: seq<bv8>,
                  pageSize: nat, oobSize: nat)
    requires part == page + oob && |page| == pageSize && |oob| == oobSize
    requires Times(q, pageSize + oobSize) + (pageSize + oobSize) <= |image|
    requires image[Times(q, pageSize + oobSize) .. Times(q, pageSize + oobSize) + (pageSize + oobSize)] == part
    ensures image[Times(q, pageSize + oobSize) .. Times(q, pageSize + oobSize) + pageSize] == page
    ensures image[Times(q, pageSize + oobSize) + pageSize .. Times(q, pageSize + oobSize) + pageSize + oobSize] == oob
  {
    SplitPart(image, Times(q, pageSize + oobSize), page, oob);
  }

  // ---------------------------------------------------------------------
  // Slices of concatenations

  /** A stretch within the first part of a concatenation. */
  lemma PrefixSlice(p: seq<bv8>, f: seq<bv8>, at: nat, len: nat)
    requires at + len <= |p|
    ensures (p + f)[at .. at + len] == p[at .. at + len]
  {
  }

  /** A stretch of the front of whole == front + last. */
  lemma FrontSlice(whole: seq<bv8>, front: seq<bv8>, last: seq<bv8>, at: nat, len: nat, part: seq<bv8>)
    requires whole == front + last && at + len <= |front| && front[at .. at + len] == part
    ensures at + len <= |whole| && whole[at .. at + len] == part
  {
    assert whole[at .. at + len] == front[at .. at + len];
  }

  /** The end of whole == front + last. */
  lemma LastSlice(whole: seq<bv8>, front: seq<bv8>, last: seq<bv8>, at: nat, len: nat)
    requires whole == front + last && at == |front| && len == |last|
    ensures at + len <= |whole| && whole[at .. at + len] == last
  {
    assert whole[at .. at + len] == last;
  }

  /** A stretch holding u + v holds u, then v. */
  lemma SplitPart(x: seq<bv8>, at: nat, u: seq<bv8>, v: seq<bv8>)
    requires at + |u| + |v| <= |x| && x[at .. at + |u| + |v|] == u + v
    ensures x[at .. at + |u|] == u && x[at + |u| .. at + |u| + |v|] == v
  {
    assert x[at .. at + |u|] == x[at .. at + |u| + |v|][..|u|];
    assert x[at + |u| .. at + |u| + |v|] == x[at .. at + |u| + |v|][|u|..];
  }

  // ---------------------------------------------------------------------
  // Sizes

  /** When the page size divides the block size, the pages fill the block
      and the pages with their OOB areas fill exactly the
      block_size + O * pages bytes the C writes out. */
  lemma EmittedLength(blockSize: nat, pageSize: nat)
    requires pageSize > 0 && blockSize % pageSize == 0
    ensures Times(blockSize / pageSize, pageSize) == blockSize
    ensures Times(blockSize / pageSize, pageSize + pageSize / 32)
         == blockSize + (pageSize / 32) * (blockSize / pageSize)
  {
    var n := blockSize / pageSize;
    var o := pageSize / 32;
    assert n * pageSize == blockSize;
    TimesIsProduct(n, pageSize);
    TimesIsProduct(n, pageSize + o);
    Distribute(n, pageSize, o);
  }

  lemma Distribute(n: nat, a: nat, b: nat)
    ensures n * (a + b) == n * a + b * n
  {
  }

  /** A block within MAX_BLOCK_SIZE whose size the page size divides fits
      the output buffer with its OOB areas. */
  lemma OutputFits(blockSize: nat, pageSize: nat)
    requires 0 < pageSize && blockSize % pageSize == 0
    requires blockSize <= MaxBlockSize
    ensures blockSize + (pageSize / 32) * (blockSize / pageSize) <= MaxOobBlockSize
  {
    var n := blockSize / pageSize;
    var o := pageSize / 32;
    assert n * pageSize == blockSize;
    assert o * 32 <= pageSize;
    calc {
      32 * (o * n);
      (o * 32) * n;
    <= { MulMono(o * 32, pageSize, n); }
      pageSize * n;
      blockSize;
    }
  }
}
