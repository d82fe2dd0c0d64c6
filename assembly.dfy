/** The per-block loop of ltq-nand's main over its output buffer: memcpy of
    each page, memset of its OOB area and the byte stores of the parity
    registers. Every method is proved against the Layout functions: after
    AssemblePages the buffer starts with Image and is unchanged beyond it. */
module Assembly {
  import opened Gf
  import opened ReedSolomon
  import opened Layout

  /** x with the stretch starting at `at` replaced by y. */
  function Splice(x: seq<bv8>, at: nat, y: seq<bv8>): (r: seq<bv8>)
    requires at + |y| <= |x|
    ensures |r| == |x|
  {
    x[..at] + y + x[at + |y|..]
  }

  /** Inside the stretch the splice holds y, outside it x. */
  lemma SpliceAt(x: seq<bv8>, at: nat, y: seq<bv8>)
    requires at + |y| <= |x|
    ensures forall i | at <= i < at + |y| :: Splice(x, at, y)[i] == y[i - at]
    ensures forall i | 0 <= i < |x| && !(at <= i < at + |y|) :: Splice(x, at, y)[i] == x[i]
  {
  }

  /** Two adjacent splices are one splice of both pieces. */
  lemma SpliceTwice(x: seq<bv8>, at: nat, a: seq<bv8>, b: seq<bv8>)
    requires at + |a| + |b| <= |x|
    ensures Splice(Splice(x, at, a), at + |a|, b) == Splice(x, at, a + b)
  {
    var l := Splice(Splice(x, at, a), at + |a|, b);
    var r := Splice(x, at, a + b);
    assert forall i | 0 <= i < |x| :: l[i] == r[i];
  }

  /** SpliceTwice with the intermediate and final buffers and the second
      offset named by the caller. */
  lemma SpliceNext(x: seq<bv8>, at: nat, a: seq<bv8>, b: seq<bv8>, off: nat, before: seq<bv8>, after: seq<bv8>)
    requires at + |a| + |b| <= |x| && off == at + |a|
    requires before == Splice(x, at, a)
    requires after == Splice(before, off, b)
    ensures after == Splice(x, at, a + b)
  {
    SpliceTwice(x, at, a, b);
  }

  /** Storing u over a freshly filled stretch leaves the fill after u. */
  lemma SpliceOverFill(x: seq<bv8>, at: nat, b: bv8, m: nat, u: seq<bv8>)
    requires at + m <= |x| && |u| <= m
    ensures Splice(Splice(x, at, Fill(b, m)), at, u) == Splice(x, at, u + Fill(b, m - |u|))
  {
    var l := Splice(Splice(x, at, Fill(b, m)), at, u);
    var r := Splice(x, at, u + Fill(b, m - |u|));
    assert forall i | 0 <= i < |x| :: l[i] == r[i];
  }

  /** memset(&out[at], b, len). */
  method SetBytes(out: array<bv8>, at: nat, len: nat, b: bv8)
    requires at + len <= out.Length
    modifies out
    ensures out[..] == Splice(old(out[..]), at, Fill(b, len))
  {
    forall i | at <= i < at + len {
      out[i] := b;
    }
  }

  /** memcpy(&out[at], &src[from], len) between distinct buffers. */
  method CopyBytes(src: array<bv8>, from: nat, out: array<bv8>, at: nat, len: nat)
    requires src != out
    requires from + len <= src.Length && at + len <= out.Length
    modifies out
    ensures out[..] == Splice(old(out[..]), at, src[from .. from + len])
  {
    forall i | at <= i < at + len {
      out[i] := src[from + i - at];
    }
  }

  /** The parity loop of the ECC4 and ECC3 branches of the OOB switch,
      after their memset: for every 128-byte chunk ei the registers start
      from zero, the parity generator runs over the chunk, and the
      registers are stored highest first at ei * 4 (Ecc4) or ei * 3 (Ecc3). */
  method StoreParity(t: Tables, page: seq<bv8>, out: array<bv8>, at: nat, mode: OobMode)
    requires mode == Ecc4 || mode == Ecc3
    requires at + |page| / 32 <= out.Length
    modifies out
    ensures Times(|page| / ChunkSize, ChunkSize) <= |page|
    ensures at + |ParityBytes(t, page, |page| / ChunkSize, mode)| <= out.Length
    ensures out[..] == Splice(old(out[..]), at, ParityBytes(t, page, |page| / ChunkSize, mode))
  {
    var n := |page| / ChunkSize;
    ParityRoom(|page|, Width(mode));
    ChunkLoop(t, page, out, at, n, mode);
  }

  /** The chunk loop over the first n chunks. */
  method ChunkLoop(t: Tables, page: seq<bv8>, out: array<bv8>, at: nat, n: nat, mode: OobMode)
    requires mode == Ecc4 || mode == Ecc3
    requires Times(n, ChunkSize) <= |page| && at + Times(n, Width(mode)) <= out.Length
    modifies out
    ensures out[..] == Splice(old(out[..]), at, ParityBytes(t, page, n, mode))
  {
    ghost var out1 := out[..];
    var ei := 0;
    while ei < n
      invariant 0 <= ei <= n
      invariant Times(ei, ChunkSize) <= |page| && at + Times(ei, Width(mode)) <= |out1|
      invariant out[..] == Splice(out1, at, ParityBytes(t, page, ei, mode))
    {
      ParityRound(t, page, out, at, n, ei, mode, out1);
      ei := ei + 1;
    }
  }

  /** Round ei of the chunk loop: chunk ei's parity goes to ei * 4 or
      ei * 3, after the parity of the chunks before it. */
  method ParityRound(t: Tables, page: seq<bv8>, out: array<bv8>, at: nat, n: nat, ei: nat, mode: OobMode,
                     ghost out1: seq<bv8>)
    requires mode == Ecc4 || mode == Ecc3
    requires ei < n && Times(n, ChunkSize) <= |page| && at + Times(n, Width(mode)) <= |out1| == out.Length
    requires Times(ei, ChunkSize) <= |page| && at + Times(ei, Width(mode)) <= |out1|
    requires out[..] == Splice(out1, at, ParityBytes(t, page, ei, mode))
    modifies out
    ensures Times(ei + 1, ChunkSize) <= |page| && at + Times(ei + 1, Width(mode)) <= |out1|
    ensures out[..] == Splice(out1, at, ParityBytes(t, page, ei + 1, mode))
  {
    var w := Width(mode);
    ChunkBounds(ei, n, |page|, w);
    var chunk := page[ei * ChunkSize .. ei * ChunkSize + ChunkSize];
    ghost var before := out[..];
    ChunkRound(t, chunk, out, at + ei * w, mode);
    ChunkStored(t, page, ei, mode, chunk, out1, at, at + ei * w, before, out[..]);
  }

  /** Chunk k of n lies within the page, its parity within that of n
      chunks, and the C's products are the Times offsets. */
  lemma ChunkBounds(k: nat, n: nat, len: nat, w: nat)
    requires k < n && Times(n, ChunkSize) <= len
    ensures Times(k, ChunkSize) == k * ChunkSize && Times(k, w) == k * w
    ensures Times(k + 1, ChunkSize) <= len && Times(k + 1, w) <= Times(n, w)
  {
    TimesIsProduct(k, ChunkSize);
    TimesIsProduct(k, w);
    RegionsDisjoint(k, n, ChunkSize);
    RegionsDisjoint(k, n, w);
  }

  /** One round of the chunk loop: registers from zero, the parity call on
      the chunk, then the byte stores. */
  method ChunkRound(t: Tables, chunk: seq<bv8>, out: array<bv8>, a: nat, mode: OobMode)
    requires mode == Ecc4 || mode == Ecc3
    requires |chunk| == ChunkSize && a + Width(mode) <= out.Length
    modifies out
    ensures out[..] == Splice(old(out[..]), a, ChunkParity(t, chunk, mode))
  {
    var s := new bv8[4](_ => 0);
    assert s[..] == Zero;
    ReedSolomon128Bytes(t, chunk, s, Strength(mode));
    StoreChunk(out, a, s, mode);
  }

  /** The byte stores of one chunk's registers, highest first. */
  method StoreChunk(out: array<bv8>, a: nat, s: array<bv8>, mode: OobMode)
    requires mode == Ecc4 || mode == Ecc3
    requires s.Length == 4 && s != out && a + Width(mode) <= out.Length
    modifies out
    ensures out[..] == Splice(old(out[..]), a, if mode == Ecc4 then Ecc4Bytes(s[..]) else Ecc3Bytes(s[..]))
  {
    ghost var x := out[..];
    ghost var bytes := if mode == Ecc4 then Ecc4Bytes(s[..]) else Ecc3Bytes(s[..]);
    if mode == Ecc4 {
      out[a] := s[3];
      out[a + 1] := s[2];
      out[a + 2] := s[1];
      out[a + 3] := s[0];
    } else {
      out[a] := s[2];
      out[a + 1] := s[1];
      out[a + 2] := s[0];
    }
    SpliceAt(x, a, bytes);
    assert out[..] == Splice(x, a, bytes);
  }

  /** One round of the chunk loop extends the stored parity by that of
      chunk k. */
  lemma ChunkStored(t: Tables, page: seq<bv8>, k: nat, mode: OobMode, chunk: seq<bv8>, x: seq<bv8>, at: nat,
                    off: nat, before: seq<bv8>, after: seq<bv8>)
    requires mode == Ecc4 || mode == Ecc3
    requires Times(k + 1, ChunkSize) == Times(k, ChunkSize) + ChunkSize <= |page|
    requires Times(k + 1, Width(mode)) == Times(k, Width(mode)) + Width(mode)
    requires at + Times(k + 1, Width(mode)) <= |x|
    requires k * ChunkSize + ChunkSize <= |page| && chunk == page[k * ChunkSize .. k * ChunkSize + ChunkSize]
    requires off == at + k * Width(mode) && off + Width(mode) <= |x|
    requires before == Splice(x, at, ParityBytes(t, page, k, mode))
    requires after == Splice(before, off, ChunkParity(t, chunk, mode))
    ensures after == Splice(x, at, ParityBytes(t, page, k + 1, mode))
  {
    TimesIsProduct(k, ChunkSize);
    TimesIsProduct(k, Width(mode));
    assert chunk == Piece(page, ChunkSize, k);
    ParitySnoc(t, page, k, mode);
    SpliceNext(x, at, ParityBytes(t, page, k, mode), ChunkParity(t, chunk, mode), off, before, after);
  }

  /** The OOB switch for one page: memset to 0x00 or 0xff, and in the ECC
      modes the parity stores over the 0xff. */
  method WriteOob(t: Tables, page: seq<bv8>, out: array<bv8>, at: nat, mode: OobMode)
    requires at + |page| / 32 <= out.Length
    modifies out
    ensures out[..] == Splice(old(out[..]), at, Oob(t, page, mode))
  {
    var oobSize := |page| / 32;
    match mode {
      case Zeros =>
        SetBytes(out, at, oobSize, 0);
      case Ones =>
        SetBytes(out, at, oobSize, 0xff);
      case Ecc4 =>
        ghost var out0 := out[..];
        SetBytes(out, at, oobSize, 0xff);
        StoreParity(t, page, out, at, mode);
        EccOobStored(t, page, mode, out0, at);
      case Ecc3 =>
        ghost var out0 := out[..];
        SetBytes(out, at, oobSize, 0xff);
        StoreParity(t, page, out, at, mode);
        EccOobStored(t, page, mode, out0, at);
    }
  }

  /** Parity stored over a 0xff fill is the ECC OOB area. */
  lemma EccOobStored(t: Tables, page: seq<bv8>, mode: OobMode, x: seq<bv8>, at: nat)
    requires mode == Ecc4 || mode == Ecc3
    requires at + |page| / 32 <= |x|
    ensures Times(|page| / ChunkSize, ChunkSize) <= |page|
    ensures |ParityBytes(t, page, |page| / ChunkSize, mode)| <= |page| / 32
    ensures Splice(Splice(x, at, Fill(0xff, |page| / 32)), at, ParityBytes(t, page, |page| / ChunkSize, mode))
         == Splice(x, at, Oob(t, page, mode))
  {
    OobEcc(t, page, mode);
    SpliceOverFill(x, at, 0xff, |page| / 32, ParityBytes(t, page, |page| / ChunkSize, mode));
  }

  /** The body of the page loop: memcpy of page p to p * (P + O), then its
      OOB area at (p + 1) * P + p * O. The C's products are the Times
      offsets of Layout. */
  method WritePage(t: Tables, block: array<bv8>, out: array<bv8>, p: nat,
                   pageSize: nat, oobSize: nat, mode: OobMode)
    requires block != out && oobSize == pageSize / 32
    requires Times(p, pageSize) + pageSize <= block.Length
    requires Times(p, pageSize + oobSize) + (pageSize + oobSize) <= out.Length
    modifies out
    ensures out[..] == Splice(old(out[..]), Times(p, pageSize + oobSize),
      PageImage(t, Piece(block[..], pageSize, p), mode))
  {
    ghost var out0 := out[..];
    TimesIsProduct(p, pageSize);
    TimesIsProduct(p, pageSize + oobSize);
    OobOffset(p, pageSize, oobSize);
    var at := p * (pageSize + oobSize);
    CopyBytes(block, p * pageSize, out, at, pageSize);
    ghost var copied := out[..];
    var page := block[p * pageSize .. p * pageSize + pageSize];
    assert page == Piece(block[..], pageSize, p);
    var oobAt := (p + 1) * pageSize + p * oobSize;
    WriteOob(t, page, out, oobAt, mode);
    PageWritten(t, page, mode, out0, at, oobAt, copied, out[..]);
  }

  /** The memcpy of a page followed by the OOB stores right after it
      writes the page's image. */
  lemma PageWritten(t: Tables, page: seq<bv8>, mode: OobMode, x: seq<bv8>, at: nat, oobAt: nat,
                    copied: seq<bv8>, after: seq<bv8>)
    requires at + |page| + |page| / 32 <= |x| && oobAt == at + |page|
    requires copied == Splice(x, at, page)
    requires oobAt + |Oob(t, page, mode)| <= |copied|
    requires after == Splice(copied, oobAt, Oob(t, page, mode))
    ensures after == Splice(x, at, PageImage(t, page, mode))
  {
    SpliceTwice(x, at, page, Oob(t, page, mode));
  }

  /** The page loop for one block: page p is copied to p * (P + O) and its
      OOB area written at (p + 1) * P + p * O. */
  method AssemblePages(t: Tables, block: array<bv8>, out: array<bv8>,
                       pageSize: nat, oobSize: nat, pagesInBlock: nat, mode: OobMode)
    requires block != out && oobSize == pageSize / 32
    requires Times(pagesInBlock, pageSize) <= block.Length
    requires Times(pagesInBlock, pageSize + oobSize) <= out.Length
    modifies out
    ensures |Image(t, block[..], pageSize, pagesInBlock, mode)| == Times(pagesInBlock, pageSize + oobSize)
    ensures out[..] == Splice(old(out[..]), 0, Image(t, block[..], pageSize, pagesInBlock, mode))
  {
    ghost var data := block[..];
    ghost var out0 := out[..];
    ImageLength(t, data, pageSize, oobSize, 0, mode);
    var p := 0;
    while p < pagesInBlock
      invariant 0 <= p <= pagesInBlock
      invariant Times(p, pageSize) <= |data|
      invariant |Image(t, data, pageSize, p, mode)| == Times(p, pageSize + oobSize) <= |out0|
      invariant out[..] == Splice(out0, 0, Image(t, data, pageSize, p, mode))
    {
      PageRound(t, block, out, pageSize, oobSize, pagesInBlock, p, mode, data, out0);
      p := p + 1;
    }
  }

  /** Round p of the page loop: page p and its OOB area go to p * (P + O),
      after the pages before it. */
  method PageRound(t: Tables, block: array<bv8>, out: array<bv8>, pageSize: nat, oobSize: nat,
                   n: nat, p: nat, mode: OobMode, ghost data: seq<bv8>, ghost out0: seq<bv8>)
    requires block != out && oobSize == pageSize / 32 && data == block[..]
    requires p < n && Times(n, pageSize) <= |data| && Times(n, pageSize + oobSize) <= |out0| == out.Length
    requires Times(p, pageSize) <= |data|
    requires |Image(t, data, pageSize, p, mode)| == Times(p, pageSize + oobSize) <= |out0|
    requires out[..] == Splice(out0, 0, Image(t, data, pageSize, p, mode))
    modifies out
    ensures Times(p + 1, pageSize) <= |data|
    ensures |Image(t, data, pageSize, p + 1, mode)| == Times(p + 1, pageSize + oobSize) <= |out0|
    ensures out[..] == Splice(out0, 0, Image(t, data, pageSize, p + 1, mode))
  {
    PageBounds(p, n, pageSize, oobSize);
    ghost var before := out[..];
    WritePage(t, block, out, p, pageSize, oobSize, mode);
    PageStored(t, data, pageSize, oobSize, p, mode, out0, before, out[..]);
  }

  /** Page p of n and its OOB area end within n pages. */
  lemma PageBounds(p: nat, n: nat, pageSize: nat, oobSize: nat)
    requires p < n
    ensures Times(p + 1, pageSize) <= Times(n, pageSize)
    ensures Times(p + 1, pageSize + oobSize) <= Times(n, pageSize + oobSize)
  {
    RegionsDisjoint(p, n, pageSize);
    RegionsDisjoint(p, n, pageSize + oobSize);
  }

  /** One round of the page loop extends the assembled image by page p. */
  lemma PageStored(t: Tables, data: seq<bv8>, pageSize: nat, oobSize: nat, p: nat, mode: OobMode,
                   x: seq<bv8>, before: seq<bv8>, after: seq<bv8>)
    requires oobSize == pageSize / 32
    requires Times(p + 1, pageSize) == Times(p, pageSize) + pageSize <= |data|
    requires Times(p + 1, pageSize + oobSize) == Times(p, pageSize + oobSize) + (pageSize + oobSize) <= |x|
    requires |Image(t, data, pageSize, p, mode)| == Times(p, pageSize + oobSize)
    requires before == Splice(x, 0, Image(t, data, pageSize, p, mode))
    requires after == Splice(before, Times(p, pageSize + oobSize), PageImage(t, Piece(data, pageSize, p), mode))
    ensures |Image(t, data, pageSize, p + 1, mode)| == Times(p + 1, pageSize + oobSize)
    ensures after == Splice(x, 0, Image(t, data, pageSize, p + 1, mode))
  {
    ImageSnoc(t, data, pageSize, p, mode);
    ImageLength(t, data, pageSize, oobSize, p + 1, mode);
    SpliceNext(x, 0, Image(t, data, pageSize, p, mode), PageImage(t, Piece(data, pageSize, p), mode),
               Times(p, pageSize + oobSize), before, after);
  }

  /** One block as main handles it: the page loop, then the byte count it
      passes to fwrite, block_size + O * pages_in_block.

      The C checks neither that the page size divides the block size nor,
      beyond a warning, that the block fits its buffers; both are
      preconditions here. */
  method AssembleBlock(t: Tables, block: array<bv8>, out: array<bv8>, blockSize: nat,
                       pageSize: nat, oobSize: nat, pagesInBlock: nat, mode: OobMode)
    returns (written: nat)
    requires block != out
    requires block.Length == MaxBlockSize && out.Length == MaxOobBlockSize
    requires 0 < pageSize && blockSize % pageSize == 0 && blockSize <= MaxBlockSize
    requires oobSize == pageSize / 32 && pagesInBlock == blockSize / pageSize
    modifies out
    ensures Times(pagesInBlock, pageSize) == blockSize
    ensures written == pagesInBlock * (pageSize + oobSize) <= out.Length
    ensures |Image(t, block[..], pageSize, pagesInBlock, mode)| == written
    ensures out[..] == Splice(old(out[..]), 0, Image(t, block[..], pageSize, pagesInBlock, mode))
  {
    EmittedLength(blockSize, pageSize);
    OutputFits(blockSize, pageSize);
    TimesIsProduct(pagesInBlock, pageSize + oobSize);
    AssemblePages(t, block, out, pageSize, oobSize, pagesInBlock, mode);
    written := blockSize + oobSize * pagesInBlock;
  }
}
