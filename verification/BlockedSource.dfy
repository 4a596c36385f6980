/** The source file as the decoder sees it: fixed-size blocks, the last one possibly short, empty beyond the end. */
module BlockedSource {
  import opened Bytes
  import opened Results
  import opened Arithmetic

  /** The bytes of block `n`; the length of the result is the block's `onblk`. */
  function Block(src: seq<byte>, blksize: nat, n: nat): (b: seq<byte>)
    requires blksize > 0
    ensures |b| <= blksize
  {
    var from := Min(n * blksize, |src|);
    src[from..Min(from + blksize, |src|)]
  }

  /** A copy emitted block by block, as the output loop does it: a short block must hold all that is left. */
  function ReadBlocks(src: seq<byte>, blksize: nat, pos: nat, size: nat): (r: Result<seq<byte>>)
    requires blksize > 0
    ensures r.Ok? ==> |r.value| == size
    decreases size
  {
    var blk := Block(src, blksize, pos / blksize);
    var blkoff := pos % blksize;
    if |blk| != blksize && blkoff + size > |blk| then InvalidInput
    else if blkoff + size <= blksize then Ok(blk[blkoff..blkoff + size])
    else
      var take := blksize - blkoff;
      var rest :- ReadBlocks(src, blksize, pos + take, size - take);
      Ok(blk[blkoff..] + rest)
  }

  lemma BlockAt(src: seq<byte>, blksize: nat, pos: nat)
    requires blksize > 0
    ensures var from := pos / blksize * blksize;
            var blk := Block(src, blksize, pos / blksize);
            && from + pos % blksize == pos
            && (from <= |src| ==> blk == src[from..Min(from + blksize, |src|)])
            && (from > |src| ==> blk == [])
  {
  }

  /** What a block says about the `size` bytes at its offset `off`, `pos` in the source. */
  lemma PartOfBlock(src: seq<byte>, blksize: nat, pos: nat, off: nat, size: nat, blk: seq<byte>)
    requires off < blksize && off <= pos && size > 0
    requires blk == if pos - off <= |src| then src[pos - off..Min(pos - off + blksize, |src|)] else []
    ensures |blk| != blksize && off + size > |blk| ==> pos + size > |src|
    ensures (|blk| == blksize || off + size <= |blk|) && off + size <= blksize ==>
              off + size <= |blk| && pos + size <= |src| && blk[off..off + size] == src[pos..pos + size]
    ensures |blk| == blksize && off + size > blksize ==>
              pos + (blksize - off) <= |src| && blk[off..] == src[pos..pos + (blksize - off)]
  {
    if off + size <= |blk| {
      var b, s := blk[off..off + size], src[pos..pos + size];
      forall k | 0 <= k < size ensures b[k] == s[k] {
        assert blk[off + k] == src[pos - off + (off + k)];
      }
    }
  }

  lemma SliceJoins(src: seq<byte>, a: nat, b: nat, c: nat)
    requires a <= b <= c <= |src|
    ensures src[a..b] + src[b..c] == src[a..c]
  {
  }

  /** An empty copy looks at its block all the same. */
  lemma EmptyReadBlocks(src: seq<byte>, blksize: nat, pos: nat)
    requires blksize > 0
    ensures ReadBlocks(src, blksize, pos, 0) == if pos <= |src| || pos % blksize == 0 then Ok([]) else InvalidInput
  {
    hide Block;
    BlockAt(src, blksize, pos);
  }

  /** Reading through blocks is taking a slice: for every block size, it succeeds exactly when the source is long
      enough, and gives exactly the bytes asked for. No bytes at all can also be had from the start of a block behind
      the end. */
  lemma {:induction false} ReadBlocksIsSlice(src: seq<byte>, blksize: nat, pos: nat, size: nat)
    requires blksize > 0
    ensures
      ReadBlocks(src, blksize, pos, size) ==
        if pos + size <= |src| then Ok(src[pos..pos + size])
        else if size == 0 && pos % blksize == 0 then Ok([])
        else InvalidInput
    decreases size
  {
    hide Block, Min;
    if size == 0 {
      EmptyReadBlocks(src, blksize, pos);
      return;
    }
    var blk := Block(src, blksize, pos / blksize);
    var blkoff := pos % blksize;
    BlockAt(src, blksize, pos);
    PartOfBlock(src, blksize, pos, blkoff, size, blk);
    if !(|blk| != blksize && blkoff + size > |blk|) && blkoff + size > blksize {
      var take := blksize - blkoff;
      ReadBlocksIsSlice(src, blksize, pos + take, size - take);
      if pos + size <= |src| {
        SliceJoins(src, pos, pos + take, pos + size);
      }
    }
  }

  /** Block and offset found from a window offset split in advance, as the decoder does once per window. */
  lemma SplitOffset(blksize: nat, cpyoff: nat, addr: nat)
    requires blksize > 0
    ensures var blkoff := cpyoff % blksize + addr;
            && cpyoff / blksize + blkoff / blksize == (cpyoff + addr) / blksize
            && blkoff % blksize == (cpyoff + addr) % blksize
  {
    var q, r := cpyoff / blksize, cpyoff % blksize;
    var blkoff := r + addr;
    assert cpyoff + addr == blksize * q + blkoff;
    DivOfSum(blksize, q, blkoff);
  }

  /** What the application's block callback answers: the block is there, it will come later, or it is gone for good. */
  datatype Answer = Here | TooFarBack | NotYet

  /** The source of a stream, with the block at hand, if any, and the one asked for last. */
  class Source {
    const src: seq<byte>
    const blksize: nat
    var curblkno: Option<nat>
    var curblk: seq<byte>
    var getblkno: nat

    ghost predicate Valid()
      reads this
    {
      blksize > 0 && (curblkno.Some? ==> curblk == Block(src, blksize, curblkno.value))
    }

    constructor (src: seq<byte>, blksize: nat)
      requires blksize > 0
      ensures Valid() && this.src == src && this.blksize == blksize && curblkno == None
    {
      this.src, this.blksize := src, blksize;
      curblkno, curblk, getblkno := None, [], 0;
    }

    /** Gets block `blkno` unless it is at hand; the application may supply it, or make the caller wait or give up. */
    method GetBlk(blkno: nat, answer: nat -> Answer) returns (r: Answer)
      requires Valid()
      modifies this
      ensures Valid() && r == if old(curblkno) == Some(blkno) then Here else answer(blkno)
      ensures r == Here ==> curblkno == Some(blkno)
      ensures r != Here ==> curblkno == old(curblkno) && getblkno == blkno
    {
      if curblkno == None || blkno != curblkno.value {
        getblkno := blkno;
        if answer(blkno) != Here {
          return answer(blkno);
        }
        Provide(blkno);
      }
      return Here;
    }

    /** The application puts block `blkno` in place. */
    method Provide(blkno: nat)
      requires blksize > 0
      modifies this`curblk, this`curblkno
      ensures Valid() && curblkno == Some(blkno)
    {
      curblk := Block(src, blksize, blkno);
      curblkno := Some(blkno);
    }
  }
}
