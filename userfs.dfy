/**
 * The in-memory file system of 3/userfs.c. A file is a list of 512-byte blocks, of which
 * only the occupied bytes are modelled (a block is the sequence of its occupied bytes);
 * the file's content is its blocks laid end to end. Files live in one list, with a
 * reference count and a `deleted` flag that defer freeing to the last close; descriptors
 * live in a growable table, each with a cursor made of a block number and an offset.
 * The process-wide state of the C code (the file list, the descriptor table and the
 * error code) is one `FileSystem` object.
 */
module UserFs {
  import opened Common

  const BLOCK_SIZE := 512
  const MAX_FILE_SIZE := 1024 * 1024 * 100

  /** The `open_flags` of userfs.h. */
  const UFS_CREATE: bv32 := 1
  const UFS_READ_ONLY: bv32 := 2
  const UFS_WRITE_ONLY: bv32 := 4
  const UFS_READ_WRITE: bv32 := 8

  /** The `ufs_error_code` values the modelled calls set. */
  datatype ErrorCode = NoErr | NoFile | NoMem | NoPermission

  /** The occupied bytes of one block. */
  type Block = seq<Byte>

  function Min(a: int, b: int): int {
    if a < b then a else b
  }

  function Max(a: int, b: int): int {
    if a < b then b else a
  }

  // ---------------------------------------------------------------- content of a file

  /** The bytes of a file: its blocks, first to last. */
  function Content(bs: seq<Block>): seq<Byte>
    decreases |bs|
  {
    if bs == [] then [] else bs[0] + Content(bs[1..])
  }

  /** Every block holds at most `BLOCK_SIZE` bytes, and every block but the last is full. */
  predicate WellFormed(bs: seq<Block>) {
    forall i :: 0 <= i < |bs| ==> |bs[i]| <= BLOCK_SIZE && (i < |bs| - 1 ==> |bs[i]| == BLOCK_SIZE)
  }

  /** The size of a well-formed file, from its block count and its last block. */
  function Size(bs: seq<Block>): nat {
    if bs == [] then 0 else (|bs| - 1) * BLOCK_SIZE + |bs[|bs| - 1]|
  }

  /** The byte a cursor stands before. */
  function Pos(blockNumber: nat, blockOffset: nat): nat {
    blockNumber * BLOCK_SIZE + blockOffset
  }

  /**
   * A cursor names an existing block and stays within its occupied bytes; in a file
   * without blocks it is at block 0, offset 0.
   */
  predicate CursorOk(bs: seq<Block>, blockNumber: nat, blockOffset: nat) {
    if bs == [] then blockNumber == 0 && blockOffset == 0
    else blockNumber < |bs| && blockOffset <= |bs[blockNumber]|
  }

  /** No block was removed and none lost bytes. */
  predicate Grown(before: seq<Block>, after: seq<Block>) {
    |before| <= |after| && forall k :: 0 <= k < |before| ==> |before[k]| <= |after[k]|
  }

  /**
   * `ufs_add_block` after a full last block: the blocks stay well formed, and the content
   * and every block are as before.
   */
  lemma AddBlockKeeps(bs: seq<Block>)
    requires WellFormed(bs) && bs != [] && |bs[|bs| - 1]| == BLOCK_SIZE
    ensures WellFormed(bs + [[]]) && Grown(bs, bs + [[]]) && Content(bs + [[]]) == Content(bs)
  {
    ContentAppend(bs, [[]]);
    assert Content([[]]) == [] + Content([]);
  }

  lemma GrownTrans(a: seq<Block>, b: seq<Block>, c: seq<Block>)
    requires Grown(a, b) && Grown(b, c)
    ensures Grown(a, c)
  {
  }

  lemma {:induction false} ContentAppend(a: seq<Block>, b: seq<Block>)
    ensures Content(a + b) == Content(a) + Content(b)
    decreases |a|
  {
    if a == [] {
      assert a + b == b;
    } else {
      assert (a + b)[1..] == a[1..] + b;
      ContentAppend(a[1..], b);
    }
  }

  /** Full blocks lay out `BLOCK_SIZE` bytes each. */
  lemma {:induction false} FullBlocksLength(bs: seq<Block>)
    requires forall i :: 0 <= i < |bs| ==> |bs[i]| == BLOCK_SIZE
    ensures |Content(bs)| == |bs| * BLOCK_SIZE
    decreases |bs|
  {
    if bs != [] {
      FullBlocksLength(bs[1..]);
    }
  }

  /** The size of a well-formed file is the length of its content. */
  lemma {:induction false} SizeIsLength(bs: seq<Block>)
    requires WellFormed(bs)
    ensures |Content(bs)| == Size(bs)
    decreases |bs|
  {
    if bs != [] {
      assert WellFormed(bs[1..]);
      SizeIsLength(bs[1..]);
    }
  }

  /** A file's content around one of its blocks, all blocks before which are full. */
  lemma Around(bs: seq<Block>, b: nat)
    requires WellFormed(bs) && b < |bs|
    ensures Content(bs) == Content(bs[..b]) + bs[b] + Content(bs[b + 1..])
    ensures |Content(bs[..b])| == Pos(b, 0)
  {
    assert bs == bs[..b] + ([bs[b]] + bs[b + 1..]);
    ContentAppend(bs[..b], [bs[b]] + bs[b + 1..]);
    ContentAppend([bs[b]], bs[b + 1..]);
    assert Content([bs[b]]) == bs[b] + Content([]);
    FullBlocksLength(bs[..b]);
  }

  /** A cursor that is in range stands within the content. */
  lemma CursorInContent(bs: seq<Block>, blockNumber: nat, blockOffset: nat)
    requires WellFormed(bs) && CursorOk(bs, blockNumber, blockOffset)
    ensures Pos(blockNumber, blockOffset) <= |Content(bs)|
  {
    if bs != [] {
      Around(bs, blockNumber);
    }
  }

  // ---------------------------------------------------------------- writing and reading

  /**
   * The bytes of `c` once `d` is written at `p`: the bytes before `p` stay, `d` follows,
   * and the bytes past its end stay; the content grows when `d` runs past its end.
   */
  function Overwritten(c: seq<Byte>, p: nat, d: seq<Byte>): seq<Byte>
    requires p <= |c|
  {
    c[..p] + d + (if p + |d| < |c| then c[p + |d|..] else [])
  }

  /** What a read of `n` bytes at `p` gets: up to `n` bytes, stopping at the end of `c`. */
  function ReadAt(c: seq<Byte>, p: nat, n: nat): seq<Byte>
    requires p <= |c|
  {
    c[p..Min(p + n, |c|)]
  }

  /**
   * What a write does to the content: its length becomes the larger of the old length and
   * the end of the write, the bytes before the write stay, the written bytes follow, and
   * the bytes past the write stay.
   */
  lemma OverwrittenMeans(c: seq<Byte>, p: nat, d: seq<Byte>)
    requires p <= |c|
    ensures |Overwritten(c, p, d)| == Max(|c|, p + |d|)
    ensures Overwritten(c, p, d)[..p] == c[..p] && Overwritten(c, p, d)[p..p + |d|] == d
    ensures forall k :: p + |d| <= k < |c| ==> Overwritten(c, p, d)[k] == c[k]
  {
  }

  /** What a read gets: as many bytes as asked for or as are left, whichever is fewer, from `p` on. */
  lemma ReadAtMeans(c: seq<Byte>, p: nat, n: nat)
    requires p <= |c|
    ensures |ReadAt(c, p, n)| == Min(n, |c| - p)
    ensures forall k :: 0 <= k < Min(n, |c| - p) ==> ReadAt(c, p, n)[k] == c[p + k]
  {
  }

  /** Writing `d1` and then `d2` right after it is writing `d1 + d2`. */
  lemma OverwrittenThen(c: seq<Byte>, p: nat, d1: seq<Byte>, d2: seq<Byte>)
    requires p <= |c|
    ensures Overwritten(Overwritten(c, p, d1), p + |d1|, d2) == Overwritten(c, p, d1 + d2)
  {
    var once := Overwritten(c, p, d1);
    var twice := Overwritten(once, p + |d1|, d2);
    var whole := Overwritten(c, p, d1 + d2);
    OverwrittenMeans(c, p, d1);
    OverwrittenMeans(once, p + |d1|, d2);
    OverwrittenMeans(c, p, d1 + d2);
    assert |twice| == |whole|;
    forall k | 0 <= k < |twice|
      ensures twice[k] == whole[k]
    {
      if k < p {
        assert twice[k] == twice[..p + |d1|][k] == once[..p + |d1|][k] == once[..p][k];
        assert whole[k] == whole[..p][k];
      } else if k < p + |d1| {
        assert twice[k] == twice[..p + |d1|][k] == once[..p + |d1|][k] == once[p..p + |d1|][k - p];
        assert whole[k] == whole[p..p + |d1 + d2|][k - p] == (d1 + d2)[k - p];
      } else if k < p + |d1| + |d2| {
        assert twice[k] == twice[p + |d1|..p + |d1| + |d2|][k - p - |d1|];
        assert whole[k] == whole[p..p + |d1 + d2|][k - p] == (d1 + d2)[k - p];
      }
    }
  }

  /** What was written at `p` is what a read at `p` of as many bytes gets. */
  lemma ReadAfterWrite(c: seq<Byte>, p: nat, d: seq<Byte>)
    requires p <= |c|
    ensures ReadAt(Overwritten(c, p, d), p, |d|) == d
  {
    var w := Overwritten(c, p, d);
    OverwrittenMeans(c, p, d);
    assert ReadAt(w, p, |d|) == w[p..p + |d|];
  }

  /**
   * Writing inside one block writes the file's content at the block's position. The chunk
   * stays within the block, and the block is the last one or the chunk does not run past
   * the block's occupied bytes.
   */
  lemma {:induction false} WriteInBlock(bs: seq<Block>, b: nat, o: nat, chunk: seq<Byte>)
    requires WellFormed(bs) && b < |bs| && o <= |bs[b]| && o + |chunk| <= BLOCK_SIZE
    ensures Pos(b, o) <= |Content(bs)|
    ensures WellFormed(bs[b := Overwritten(bs[b], o, chunk)])
    ensures Grown(bs, bs[b := Overwritten(bs[b], o, chunk)])
    ensures Content(bs[b := Overwritten(bs[b], o, chunk)]) == Overwritten(Content(bs), Pos(b, o), chunk)
  {
    var after := bs[b := Overwritten(bs[b], o, chunk)];
    assert WellFormed(after);
    Around(bs, b);
    Around(after, b);
    assert after[..b] == bs[..b] && after[b + 1..] == bs[b + 1..];
    var front, rest := Content(bs[..b]), Content(bs[b + 1..]);
    if b == |bs| - 1 {
      assert bs[b + 1..] == [];
    }
    Inside(front, bs[b], rest, o, chunk);
    assert Content(bs) == front + bs[b] + rest;
    assert |front| + o == Pos(b, o);
    calc {
      Content(after);
      front + Overwritten(bs[b], o, chunk) + rest;
      Overwritten(front + bs[b] + rest, |front| + o, chunk);
      Overwritten(Content(bs), Pos(b, o), chunk);
    }
  }

  /** Writing within one piece of a sequence writes the whole at that piece's position. */
  lemma Inside(front: seq<Byte>, blk: seq<Byte>, rest: seq<Byte>, o: nat, chunk: seq<Byte>)
    requires o <= |blk| && (o + |chunk| <= |blk| || rest == [])
    ensures front + Overwritten(blk, o, chunk) + rest == Overwritten(front + blk + rest, |front| + o, chunk)
  {
    var c := front + blk + rest;
    assert c[..|front| + o] == front + blk[..o];
    if o + |chunk| < |blk| {
      assert c[|front| + o + |chunk|..] == blk[o + |chunk|..] + rest;
    } else if o + |chunk| == |blk| {
      assert c[|front| + o + |chunk|..] == rest;
    }
  }

  /** The occupied bytes of a block are the file's content at the block's position. */
  lemma BlockBytes(bs: seq<Block>, b: nat, o: nat, n: nat)
    requires WellFormed(bs) && b < |bs| && o + n <= |bs[b]|
    ensures Pos(b, o) + n <= |Content(bs)|
    ensures bs[b][o..o + n] == Content(bs)[Pos(b, o)..Pos(b, o) + n]
  {
    Around(bs, b);
    var front := Content(bs[..b]);
    assert Content(bs)[Pos(b, o)..Pos(b, o) + n] == (front + bs[b] + Content(bs[b + 1..]))[|front| + o..|front| + o + n];
  }

  /** A cursor that is in range stays in range while the file grows. */
  lemma CursorStays(before: seq<Block>, after: seq<Block>, blockNumber: nat, blockOffset: nat)
    requires CursorOk(before, blockNumber, blockOffset) && Grown(before, after)
    ensures CursorOk(after, blockNumber, blockOffset)
  {
  }

  /**
   * The size check of `ufs_write` is enough: the bytes up to the end of the cursor's block
   * plus the bytes to write fit in `MAX_FILE_SIZE`, so the file does too.
   */
  lemma WriteStaysWithinMax(bs: seq<Block>, blockNumber: nat, blockOffset: nat, d: seq<Byte>)
    requires WellFormed(bs) && bs != [] && CursorOk(bs, blockNumber, blockOffset)
    requires Size(bs) <= MAX_FILE_SIZE && Pos(blockNumber, |bs[blockNumber]|) + |d| <= MAX_FILE_SIZE
    ensures Pos(blockNumber, blockOffset) <= |Content(bs)|
    ensures |Overwritten(Content(bs), Pos(blockNumber, blockOffset), d)| <= MAX_FILE_SIZE
  {
    SizeIsLength(bs);
    CursorInContent(bs, blockNumber, blockOffset);
  }

  // ---------------------------------------------------------------- permissions

  /** The mode a descriptor keeps: the read and write bits of the open flags. */
  function Stored(flags: bv32): (mode: bv32)
    ensures mode & UFS_CREATE == 0
    ensures mode & UFS_READ_ONLY == flags & UFS_READ_ONLY
    ensures mode & UFS_WRITE_ONLY == flags & UFS_WRITE_ONLY
    ensures mode & UFS_READ_WRITE == flags & UFS_READ_WRITE
  {
    flags & (UFS_READ_ONLY | UFS_WRITE_ONLY | UFS_READ_WRITE)
  }

  /** `is_writable`. */
  predicate IsWritable(mode: bv32) {
    mode == 0 || mode & (UFS_CREATE | UFS_WRITE_ONLY | UFS_READ_WRITE) != 0
  }

  /** `is_readable`. */
  predicate IsReadable(mode: bv32) {
    mode == 0 || mode & (UFS_CREATE | UFS_READ_ONLY | UFS_READ_WRITE) != 0
  }

  /**
   * What the open flags allow: no mode bit (bare `UFS_CREATE` too) allows both reading and
   * writing, as does `UFS_READ_WRITE`; `UFS_READ_ONLY` forbids writing and
   * `UFS_WRITE_ONLY` forbids reading.
   */
  lemma OpenModes(flags: bv32)
    ensures Stored(flags) == 0 ==> IsReadable(Stored(flags)) && IsWritable(Stored(flags))
    ensures flags & 0xE == UFS_READ_WRITE ==> IsReadable(Stored(flags)) && IsWritable(Stored(flags))
    ensures flags & 0xE == UFS_READ_ONLY ==> IsReadable(Stored(flags)) && !IsWritable(Stored(flags))
    ensures flags & 0xE == UFS_WRITE_ONLY ==> !IsReadable(Stored(flags)) && IsWritable(Stored(flags))
  {
  }

  // ---------------------------------------------------------------- files

  /** `struct file`: its name, its blocks, how many descriptors are open on it, and whether it was deleted. */
  class File {
    const name: CString
    var blocks: seq<Block>
    var refs: nat
    var deleted: bool

    /** Blocks full but the last, and no more than `MAX_FILE_SIZE` bytes. */
    ghost predicate Shaped()
      reads this
    {
      WellFormed(blocks) && Size(blocks) <= MAX_FILE_SIZE
    }

    /** The new file of `ufs_open`: no blocks, no descriptor, not deleted. */
    constructor (name: CString)
      ensures this.name == name && blocks == [] && refs == 0 && !deleted
    {
      this.name := name;
      blocks, refs, deleted := [], 0, false;
    }

    /** `ufs_add_block`: an empty block joins the end of the file. */
    method AddBlock()
      modifies this
      ensures blocks == old(blocks) + [[]] && refs == old(refs) && deleted == old(deleted)
    {
      blocks := blocks + [[]];
    }

    /**
     * The copy loop of `ufs_write`, from the cursor at block `blockNumber`, offset
     * `blockOffset`: it fills the cursor's block, moves to the next block when the cursor
     * is at the end of a full one, adding a block at the end of the file when there is
     * none, and gives back the cursor past the last byte written.
     */
    method WriteFrom(blockNumber: nat, blockOffset: nat, data: seq<Byte>) returns (b: nat, o: nat)
      requires WellFormed(blocks) && blocks != [] && CursorOk(blocks, blockNumber, blockOffset)
      modifies this
      ensures Pos(blockNumber, blockOffset) <= |Content(old(blocks))|
      ensures Content(blocks) == Overwritten(Content(old(blocks)), Pos(blockNumber, blockOffset), data)
      ensures WellFormed(blocks) && Grown(old(blocks), blocks)
      ensures CursorOk(blocks, b, o) && Pos(b, o) == Pos(blockNumber, blockOffset) + |data|
      ensures refs == old(refs) && deleted == old(deleted)
    {
      CursorInContent(blocks, blockNumber, blockOffset);
      ghost var start := Pos(blockNumber, blockOffset);
      b, o := blockNumber, blockOffset;
      var i: nat := 0;
      assert data[..0] == [];
      while i < |data|
        invariant Writing(old(blocks), start, data, blocks, i, b, o)
        invariant refs == old(refs) && deleted == old(deleted)
        decreases |data| - i
      {
        i, b, o := WriteStep(old(blocks), start, data, i, b, o);
      }
      assert data[..i] == data;
    }

    /**
     * One pass of the copy loop of `ufs_write`: at the end of a full block the cursor
     * moves to the next one, which is added when the block is the last; then as many
     * bytes as are left and fit in the block are copied, and the block's occupied bytes
     * reach at least the cursor.
     */
    method WriteStep(ghost before: seq<Block>, ghost start: nat, data: seq<Byte>, i: nat, b: nat, o: nat)
      returns (i': nat, b': nat, o': nat)
      requires Writing(before, start, data, blocks, i, b, o) && i < |data|
      modifies this
      ensures Writing(before, start, data, blocks, i', b', o') && i < i'
      ensures refs == old(refs) && deleted == old(deleted)
    {
      ghost var start_blocks := blocks;
      b', o' := b, o;
      if o' >= BLOCK_SIZE {
        if b' + 1 == |blocks| {
          AddBlock();
        }
        b', o' := b' + 1, 0;
      }
      ghost var moved, o1 := blocks, o';
      var n := Min(|data| - i, BLOCK_SIZE - o');
      WriteStepFits(before, start, data, start_blocks, i, b, o, moved, b', o', n);
      blocks := blocks[b' := Overwritten(blocks[b'], o', data[i..i + n])];
      o', i' := o' + n, i + n;
      WriteStepKeeps(before, start, data, start_blocks, i, b, o, moved, b', o1, n, blocks, i', o');
    }

    /**
     * The copy loop of `ufs_read`, from the cursor at block `blockNumber`, offset
     * `blockOffset`: it copies the occupied bytes of the cursor's block, moves to the next
     * block when the cursor is at the end of the occupied ones, and stops when `n` bytes
     * are copied or the last block is exhausted (the C code's `break`).
     */
    method ReadFrom(blockNumber: nat, blockOffset: nat, n: nat) returns (bytes: seq<Byte>, b: nat, o: nat)
      requires WellFormed(blocks) && blocks != [] && CursorOk(blocks, blockNumber, blockOffset)
      ensures Pos(blockNumber, blockOffset) <= |Content(blocks)|
      ensures bytes == ReadAt(Content(blocks), Pos(blockNumber, blockOffset), n)
      ensures CursorOk(blocks, b, o) && Pos(b, o) == Pos(blockNumber, blockOffset) + |bytes|
    {
      CursorInContent(blocks, blockNumber, blockOffset);
      var bs := blocks;
      ghost var c := Content(bs);
      ghost var start := Pos(blockNumber, blockOffset);
      b, o := blockNumber, blockOffset;
      bytes := [];
      var left: nat := n;
      while left > 0
        invariant Reading(bs, c, start, n, bytes, left, b, o)
        decreases left, |bs| - b
      {
        var exhausted;
        bytes, left, b, o, exhausted := ReadStep(bs, c, start, n, bytes, left, b, o);
        if exhausted {
          break;
        }
      }
    }
  }

  /** The state of the copy loop of `ufs_write` after `i` bytes of `data`, written from `start` into `before`. */
  ghost predicate Writing(before: seq<Block>, start: nat, data: seq<Byte>, bs: seq<Block>, i: nat, b: nat, o: nat) {
    var holds :=
      && i <= |data| && start <= |Content(before)|
      && Content(bs) == Overwritten(Content(before), start, data[..i])
      && WellFormed(bs) && Grown(before, bs) && bs != []
      && CursorOk(bs, b, o) && Pos(b, o) == start + i;
    holds
  }

  /**
   * The cursor of one pass of the copy loop of `ufs_write`, once moved, names a block of
   * the file and leaves room in it, and the bytes copied are bytes of the data.
   */
  lemma WriteStepFits(before: seq<Block>, start: nat, data: seq<Byte>, bs: seq<Block>, i: nat, b: nat, o: nat,
                      moved: seq<Block>, b1: nat, o1: nat, n: nat)
    requires Writing(before, start, data, bs, i, b, o) && i < |data|
    requires o < BLOCK_SIZE ==> moved == bs && b1 == b && o1 == o
    requires o >= BLOCK_SIZE ==> b1 == b + 1 && o1 == 0 && moved == if b + 1 == |bs| then bs + [[]] else bs
    requires n == Min(|data| - i, BLOCK_SIZE - o1)
    ensures o1 < BLOCK_SIZE && b1 < |moved| && o1 <= |moved[b1]| && 0 < n && i + n <= |data|
  {
  }

  /**
   * One pass of the copy loop of `ufs_write` keeps `Writing`: from blocks `bs` and cursor
   * (`b`, `o`), the cursor moves to (`b1`, `o1`) over the blocks `moved` (with a block
   * added when it leaves the last one), and `n` bytes are copied at the new cursor.
   */
  lemma WriteStepKeeps(before: seq<Block>, start: nat, data: seq<Byte>, bs: seq<Block>, i: nat, b: nat, o: nat,
                       moved: seq<Block>, b1: nat, o1: nat, n: nat, after: seq<Block>, i2: nat, o2: nat)
    requires Writing(before, start, data, bs, i, b, o) && i < |data|
    requires o < BLOCK_SIZE ==> moved == bs && b1 == b && o1 == o
    requires o >= BLOCK_SIZE ==> b1 == b + 1 && o1 == 0 && moved == if b + 1 == |bs| then bs + [[]] else bs
    requires n == Min(|data| - i, BLOCK_SIZE - o1) && i2 == i + n && o2 == o1 + n
    requires b1 < |moved| && i2 <= |data| && after == moved[b1 := Overwritten(moved[b1], o1, data[i..i2])]
    ensures Writing(before, start, data, after, i2, b1, o2) && i < i2
  {
    WriteStepFits(before, start, data, bs, i, b, o, moved, b1, o1, n);
    if o >= BLOCK_SIZE && b + 1 == |bs| {
      AddBlockKeeps(bs);
      GrownTrans(before, bs, moved);
    }
    assert Content(moved) == Content(bs) && WellFormed(moved) && Grown(before, moved);
    assert Pos(b1, o1) == start + i;
    var chunk := data[i..i + n];
    WriteInBlock(moved, b1, o1, chunk);
    GrownTrans(before, moved, after);
    OverwrittenThen(Content(before), start, data[..i], chunk);
    assert data[..i] + chunk == data[..i + n];
    assert Content(after) == Overwritten(Content(before), start, data[..i + n]);
  }

  /** The state of the copy loop of `ufs_read` over the blocks `bs`, `n` bytes asked for from `start`. */
  ghost predicate Reading(bs: seq<Block>, c: seq<Byte>, start: nat, n: nat, bytes: seq<Byte>, left: nat, b: nat, o: nat) {
    var holds :=
      && c == Content(bs) && WellFormed(bs) && CursorOk(bs, b, o) && bs != []
      && start <= Pos(b, o) <= |c| && |bytes| + left == n && Pos(b, o) == start + |bytes|
      && bytes == c[start..Pos(b, o)];
    holds
  }

  /**
   * One pass of the copy loop of `ufs_read`: at the end of the occupied bytes of the last
   * block the read is over; at the end of those of another block the cursor moves to the
   * next one; then as many bytes as are asked for and occupied are copied.
   */
  method ReadStep(bs: seq<Block>, ghost c: seq<Byte>, ghost start: nat, ghost n: nat, bytes: seq<Byte>, left: nat, b: nat, o: nat)
    returns (bytes': seq<Byte>, left': nat, b': nat, o': nat, exhausted: bool)
    requires Reading(bs, c, start, n, bytes, left, b, o) && left > 0
    ensures Reading(bs, c, start, n, bytes', left', b', o')
    ensures exhausted ==> left' == left && b' == b && Pos(b', o') == |c|
    ensures !exhausted ==> left' < left || (left' == left && b' > b)
  {
    bytes', left', b', o', exhausted := bytes, left, b, o, false;
    if o' >= |bs[b']| {
      if b' + 1 == |bs| {
        SizeIsLength(bs);
        return bytes', left', b', o', true;
      }
      b', o' := b' + 1, 0;
    }
    var k := Min(left', |bs[b']| - o');
    BlockBytes(bs, b', o', k);
    assert c[start..Pos(b', o') + k] == c[start..Pos(b', o')] + c[Pos(b', o')..Pos(b', o') + k];
    bytes' := bytes' + bs[b'][o'..o' + k];
    o', left' := o' + k, left' - k;
  }

  // ---------------------------------------------------------------- descriptors and the file list

  /** `struct filedesc`: the file, the cursor, and the mode bits of the open flags. */
  datatype Desc = Desc(file: File, blockNumber: nat, blockOffset: nat, mode: bv32)

  /** 1 when the slot holds a descriptor open on `f`. */
  function On(slot: Option<Desc>, f: File): nat {
    if slot.Some? && slot.value.file == f then 1 else 0
  }

  /** How many descriptors of the table are open on `f`. */
  function Refs(ds: seq<Option<Desc>>, f: File): nat
    decreases |ds|
  {
    if ds == [] then 0 else Refs(ds[..|ds| - 1], f) + On(ds[|ds| - 1], f)
  }

  /** Putting `x` in slot `i` counts `x` instead of what the slot held. */
  lemma {:induction false} RefsUpdate(ds: seq<Option<Desc>>, i: nat, x: Option<Desc>, f: File)
    requires i < |ds|
    ensures Refs(ds[i := x], f) == Refs(ds, f) - On(ds[i], f) + On(x, f)
    decreases |ds|
  {
    var last := |ds| - 1;
    if i == last {
      assert ds[i := x][..last] == ds[..last];
    } else {
      assert ds[i := x][..last] == ds[..last][i := x];
      RefsUpdate(ds[..last], i, x, f);
    }
  }

  /** A file no descriptor counts is in no slot. */
  lemma {:induction false} RefsZero(ds: seq<Option<Desc>>, f: File)
    requires Refs(ds, f) == 0
    ensures forall k :: 0 <= k < |ds| ==> On(ds[k], f) == 0
    decreases |ds|
  {
    if ds != [] {
      RefsZero(ds[..|ds| - 1], f);
      assert forall k :: 0 <= k < |ds| - 1 ==> ds[..|ds| - 1][k] == ds[k];
    }
  }

  /** A file in no slot is counted by no descriptor. */
  lemma {:induction false} RefsNone(ds: seq<Option<Desc>>, f: File)
    requires forall k :: 0 <= k < |ds| ==> On(ds[k], f) == 0
    ensures Refs(ds, f) == 0
    decreases |ds|
  {
    if ds != [] {
      RefsNone(ds[..|ds| - 1], f);
    }
  }

  /** A file `find_file` can find under `name`: named so and not deleted. */
  predicate Named(f: File, name: CString)
    reads f
  {
    f.name == name && !f.deleted
  }

  /** Where `find_file` stops: the first file of the list named `name` that is not deleted. */
  function Lookup(fs: seq<File>, name: CString): (r: Option<nat>)
    reads fs
    ensures r.Some? ==> r.value < |fs| && Named(fs[r.value], name)
    ensures r.Some? ==> forall j :: 0 <= j < r.value ==> !Named(fs[j], name)
    ensures r.None? ==> forall j :: 0 <= j < |fs| ==> !Named(fs[j], name)
    decreases |fs|
  {
    if fs == [] then None
    else if Named(fs[0], name) then Some(0)
    else match Lookup(fs[1..], name)
      case None => None
      case Some(j) => Some(j + 1)
  }

  /** The file list without `f`, in order. */
  function Without(fs: seq<File>, f: File): (r: seq<File>)
    ensures forall g :: g in r ==> g in fs && g != f
    ensures forall g :: g in fs && g != f ==> g in r
    decreases |fs|
  {
    if fs == [] then [] else (if fs[0] == f then [] else [fs[0]]) + Without(fs[1..], f)
  }

  /** The capacity of the descriptor table once it has room for one more: 10, then doubling. */
  function Grow(count: nat, capacity: nat): (c: nat)
    requires count <= capacity
    ensures count < c
    ensures capacity <= c <= 2 * capacity + 10
  {
    if count < capacity then capacity else if capacity == 0 then 10 else capacity * 2
  }

  /**
   * The state of the file system: `file_list`, the descriptor table (its slots and its
   * capacity) and `ufs_error_code`.
   */
  class FileSystem {
    /** `file_list`, head first: every file not freed yet, deleted or not. */
    var files: seq<File>
    /** `file_descriptors[0 .. file_descriptor_count)`, a closed slot being `None`. */
    var descs: seq<Option<Desc>>
    /** `file_descriptor_capacity`. */
    var capacity: nat
    /** `ufs_error_code`. */
    var error: ErrorCode

    /**
     * Every file is well formed; its `refs` counts the descriptors open on it; a deleted
     * file still has one (the last close frees it); no two files that are not deleted share
     * a name; and every descriptor is on a listed file, with its cursor in range.
     */
    ghost predicate Valid()
      reads this, files
    {
      && |descs| <= capacity
      && (forall f :: f in files ==> f.Shaped() && f.refs == Refs(descs, f) && (f.deleted ==> f.refs > 0))
      && (forall f, g :: f in files && g in files && Named(f, g.name) && !g.deleted ==> f == g)
      && (forall k :: 0 <= k < |descs| && descs[k].Some? ==> DescOk(descs[k].value))
    }

    /** A descriptor is on a listed file and its cursor is in range. */
    ghost predicate DescOk(d: Desc)
      reads this, files
    {
      d.file in files && CursorOk(d.file.blocks, d.blockNumber, d.blockOffset)
    }

    /** The empty file system of a process that has not called `ufs_open` yet. */
    constructor ()
      ensures Valid() && files == [] && descs == [] && capacity == 0 && error == NoErr
    {
      files, descs, capacity, error := [], [], 0, NoErr;
    }

    /** `ufs_errno`. */
    function Errno(): ErrorCode
      reads this
    {
      error
    }

    /** `ufs_find_filedesc`: the descriptor `fd` names, if it is in the table and open. */
    function FindDesc(fd: int): (d: Option<Desc>)
      reads this
      ensures d.Some? <==> 0 <= fd < |descs| && descs[fd].Some?
      ensures d.Some? ==> d == descs[fd]
    {
      if fd < 0 || fd >= |descs| || descs[fd].None? then None else descs[fd]
    }

    /** The file `fd` is open on, as a frame. */
    function FileOf(fd: int): set<File>
      reads this
    {
      if FindDesc(fd).Some? then {FindDesc(fd).value.file} else {}
    }

    /** The file `find_file` finds under `name`, as a frame. */
    function Found(name: Option<CString>): set<File>
      reads this, files
    {
      if name.Some? && Lookup(files, name.value).Some? then {files[Lookup(files, name.value).value]} else {}
    }

    /** `find_file`: the walk down the file list. */
    method FindFile(name: CString) returns (f: File?)
      ensures Lookup(files, name).None? ==> f == null
      ensures Lookup(files, name).Some? ==> f == files[Lookup(files, name).value]
    {
      var i := 0;
      while i < |files|
        invariant i <= |files| && forall j :: 0 <= j < i ==> !Named(files[j], name)
      {
        if files[i].name == name && !files[i].deleted {
          return files[i];
        }
        i := i + 1;
      }
      return null;
    }

    /** `free_file`: the file leaves the list (its blocks go with it). */
    method FreeFile(f: File)
      modifies this
      ensures files == Without(old(files), f)
      ensures descs == old(descs) && capacity == old(capacity) && error == old(error)
    {
      files := Without(files, f);
    }

    /**
     * `ufs_open`. No name, or a name no file that is not deleted has and no
     * `UFS_CREATE`, gives `UFS_ERR_NO_FILE`. Otherwise the file found, or a new empty
     * file put at the head of the list, gets a descriptor: the next slot of the table,
     * so that closed slots are never taken again, with its cursor at block 0, offset 0,
     * and the read and write bits of `flags`. The table's capacity starts at 10 and
     * doubles when it is full. Successful opens leave the error code as it was.
     */
    method Open(name: Option<CString>, flags: bv32) returns (fd: int)
      requires Valid()
      modifies this, Found(name)
      ensures Valid()
      ensures name.None? || (old(Lookup(files, name.value)).None? && flags & UFS_CREATE == 0) ==>
        fd == -1 && error == NoFile && files == old(files) && descs == old(descs) && capacity == old(capacity)
      ensures name.Some? && old(Lookup(files, name.value)).Some? ==>
        var f := old(files)[old(Lookup(files, name.value)).value];
        && fd == |old(descs)| && error == old(error) && capacity == Grow(|old(descs)|, old(capacity))
        && descs == old(descs) + [Some(Desc(f, 0, 0, Stored(flags)))]
        && files == old(files) && f.refs == old(f.refs) + 1 && f.blocks == old(f.blocks) && !f.deleted
      ensures name.Some? && old(Lookup(files, name.value)).None? && flags & UFS_CREATE != 0 ==>
        && fd == |old(descs)| && error == old(error) && capacity == Grow(|old(descs)|, old(capacity))
        && |files| == |old(files)| + 1 && files[1..] == old(files) && fresh(files[0])
        && descs == old(descs) + [Some(Desc(files[0], 0, 0, Stored(flags)))]
        && files[0].name == name.value && files[0].blocks == [] && files[0].refs == 1 && !files[0].deleted
    {
      if name.None? {
        SetError(NoFile);
        return -1;
      }
      var f := FindFile(name.value);
      if f == null && flags & UFS_CREATE != 0 {
        f := Create(name.value);
      }
      if f == null {
        SetError(NoFile);
        return -1;
      }
      fd := Attach(f, flags);
    }

    /** Setting `ufs_error_code`, which changes nothing else. */
    method SetError(e: ErrorCode)
      requires Valid()
      modifies this
      ensures Valid() && error == e
      ensures files == old(files) && descs == old(descs) && capacity == old(capacity)
    {
      error := e;
    }

    /** The file `ufs_open` makes for a name no file that is not deleted has: empty, at the head of the list. */
    method Create(name: CString) returns (f: File)
      requires Valid() && Lookup(files, name).None?
      modifies this
      ensures Valid() && fresh(f) && files == [f] + old(files)
      ensures f.name == name && f.blocks == [] && f.refs == 0 && !f.deleted
      ensures descs == old(descs) && capacity == old(capacity) && error == old(error)
    {
      f := new File(name);
      NoDescOn(f);
      files := [f] + files;
    }

    /**
     * The descriptor part of `ufs_open`: the table grows when full, the new descriptor
     * takes the next slot with its cursor at the start, and the file counts it.
     */
    method Attach(f: File, flags: bv32) returns (fd: int)
      requires Valid() && f in files
      modifies this, f
      ensures Valid() && files == old(files) && error == old(error)
      ensures fd == |old(descs)| && descs == old(descs) + [Some(Desc(f, 0, 0, Stored(flags)))]
      ensures capacity == Grow(|old(descs)|, old(capacity))
      ensures f.refs == old(f.refs) + 1 && f.blocks == old(f.blocks) && f.deleted == old(f.deleted)
    {
      capacity := Grow(|descs|, capacity);
      fd := |descs|;
      ghost var table := descs;
      descs := descs + [Some(Desc(f, 0, 0, Stored(flags)))];
      f.refs := f.refs + 1;
      OpenKeeps(table, f);
    }

    /** A file no listed descriptor is on has no count. */
    lemma NoDescOn(f: File)
      requires Valid() && f !in files
      ensures Refs(descs, f) == 0
    {
      RefsNone(descs, f);
    }

    /** Counting after the descriptor on `f` joined the table. */
    lemma OpenKeeps(table: seq<Option<Desc>>, f: File)
      requires |descs| == |table| + 1 && descs[..|table|] == table && descs[|table|].Some? && descs[|table|].value.file == f
      ensures forall g :: Refs(descs, g) == Refs(table, g) + (if g == f then 1 else 0)
    {
    }

    /**
     * `ufs_write`. A descriptor not in the table gives `UFS_ERR_NO_FILE`, one whose mode
     * forbids writing `UFS_ERR_NO_PERMISSION`. A file without blocks first gets one. Then a
     * write whose end, counted from the end of the occupied bytes of the cursor's block,
     * would pass `MAX_FILE_SIZE` gives `UFS_ERR_NO_MEM`. Otherwise the data is written at
     * the cursor, the cursor moves past it, all of it counts as written, and the error code
     * is reset.
     */
    method Write(fd: int, data: seq<Byte>) returns (r: int)
      requires Valid()
      modifies this, FileOf(fd)
      ensures Valid() && files == old(files) && capacity == old(capacity)
      ensures old(FindDesc(fd)).None? ==> r == -1 && error == NoFile && descs == old(descs)
      ensures old(FindDesc(fd)).Some? && !IsWritable(old(FindDesc(fd)).value.mode) ==>
        r == -1 && error == NoPermission && descs == old(descs) && unchanged(old(FindDesc(fd)).value.file)
      ensures old(FindDesc(fd)).Some? && IsWritable(old(FindDesc(fd)).value.mode) ==>
        var d := old(FindDesc(fd)).value;
        var before := old(d.file.blocks);
        var limit := if before == [] then 0 else Pos(d.blockNumber, |before[d.blockNumber]|);
        && d.file.refs == old(d.file.refs) && d.file.deleted == old(d.file.deleted)
        && (limit + |data| > MAX_FILE_SIZE ==>
              && r == -1 && error == NoMem && descs == old(descs)
              && d.file.blocks == if before == [] then [[]] else before)
        && (limit + |data| <= MAX_FILE_SIZE ==>
              && r == |data| && error == NoErr && Pos(d.blockNumber, d.blockOffset) <= |Content(before)|
              && Content(d.file.blocks) == Overwritten(Content(before), Pos(d.blockNumber, d.blockOffset), data)
              && |descs| == |old(descs)| && descs == old(descs)[fd := descs[fd]] && descs[fd].Some?
              && descs[fd].value.file == d.file && descs[fd].value.mode == d.mode
              && Pos(descs[fd].value.blockNumber, descs[fd].value.blockOffset) == Pos(d.blockNumber, d.blockOffset) + |data|)
    {
      var desc := FindDesc(fd);
      if desc.None? {
        SetError(NoFile);
        return -1;
      }
      if !IsWritable(desc.value.mode) {
        SetError(NoPermission);
        return -1;
      }
      var f := desc.value.file;
      if f.blocks == [] {
        FirstBlock(f);
      }
      var bn := desc.value.blockNumber;
      var byteSize := |f.blocks[bn]| + bn * BLOCK_SIZE;
      if byteSize + |data| > MAX_FILE_SIZE {
        SetError(NoMem);
        return -1;
      }
      CopyIn(fd, data);
      SetError(NoErr);
      r := |data|;
    }

    /** The first block of a file written to while it has none; descriptors on it are at its start. */
    method FirstBlock(f: File)
      requires Valid() && f in files && f.blocks == []
      modifies f
      ensures Valid() && f.blocks == [[]] && f.refs == old(f.refs) && f.deleted == old(f.deleted)
    {
      f.AddBlock();
      assert Content([[]]) == [] + Content([]);
      assert forall k :: 0 <= k < |descs| && descs[k].Some? ==> DescOk(descs[k].value);
    }

    /**
     * The copy of `ufs_write` once its checks passed: the data is written at the cursor of
     * descriptor `fd`, and the descriptor's cursor moves past it.
     */
    method CopyIn(fd: int, data: seq<Byte>)
      requires Valid() && FindDesc(fd).Some? && FindDesc(fd).value.file.blocks != []
      requires Pos(FindDesc(fd).value.blockNumber, |FindDesc(fd).value.file.blocks[FindDesc(fd).value.blockNumber]|) + |data| <= MAX_FILE_SIZE
      modifies this, FindDesc(fd).value.file
      ensures Valid() && files == old(files) && capacity == old(capacity) && error == old(error)
      ensures var d := old(FindDesc(fd)).value;
        && d.file.refs == old(d.file.refs) && d.file.deleted == old(d.file.deleted)
        && Pos(d.blockNumber, d.blockOffset) <= |Content(old(d.file.blocks))|
        && Content(d.file.blocks) == Overwritten(Content(old(d.file.blocks)), Pos(d.blockNumber, d.blockOffset), data)
        && |descs| == |old(descs)| && descs == old(descs)[fd := descs[fd]] && descs[fd].Some?
        && descs[fd].value.file == d.file && descs[fd].value.mode == d.mode
        && Pos(descs[fd].value.blockNumber, descs[fd].value.blockOffset) == Pos(d.blockNumber, d.blockOffset) + |data|
    {
      var d := descs[fd].value;
      var f := d.file;
      ghost var before := f.blocks;
      WriteStaysWithinMax(before, d.blockNumber, d.blockOffset, data);
      var bn, off := f.WriteFrom(d.blockNumber, d.blockOffset, data);
      SizeIsLength(f.blocks);
      forall k | 0 <= k < |descs| && descs[k].Some? && descs[k].value.file == f
        ensures CursorOk(f.blocks, descs[k].value.blockNumber, descs[k].value.blockOffset)
      {
        CursorStays(before, f.blocks, descs[k].value.blockNumber, descs[k].value.blockOffset);
      }
      MoveCursor(fd, bn, off);
    }

    /**
     * `ufs_read`. A descriptor not in the table gives `UFS_ERR_NO_FILE`, one whose mode
     * forbids reading `UFS_ERR_NO_PERMISSION`. A file without blocks gives 0 bytes.
     * Otherwise the read gets the bytes from the cursor on, as many as asked for or as
     * are left, whichever is fewer, moves the cursor past them, and resets the error code.
     */
    method Read(fd: int, n: nat) returns (r: int, bytes: seq<Byte>)
      requires Valid()
      modifies this
      ensures Valid() && files == old(files) && capacity == old(capacity)
      ensures old(FindDesc(fd)).None? ==> r == -1 && bytes == [] && error == NoFile && descs == old(descs)
      ensures old(FindDesc(fd)).Some? && !IsReadable(old(FindDesc(fd)).value.mode) ==>
        r == -1 && bytes == [] && error == NoPermission && descs == old(descs)
      ensures old(FindDesc(fd)).Some? && IsReadable(old(FindDesc(fd)).value.mode) ==>
        var d := old(FindDesc(fd)).value;
        && error == NoErr && r == |bytes|
        && (d.file.blocks == [] ==> bytes == [] && descs == old(descs))
        && (d.file.blocks != [] ==>
              && Pos(d.blockNumber, d.blockOffset) <= |Content(d.file.blocks)|
              && bytes == ReadAt(Content(d.file.blocks), Pos(d.blockNumber, d.blockOffset), n)
              && |descs| == |old(descs)| && descs == old(descs)[fd := descs[fd]] && descs[fd].Some?
              && descs[fd].value.file == d.file && descs[fd].value.mode == d.mode
              && Pos(descs[fd].value.blockNumber, descs[fd].value.blockOffset) == Pos(d.blockNumber, d.blockOffset) + |bytes|)
    {
      var desc := FindDesc(fd);
      if desc.None? {
        SetError(NoFile);
        return -1, [];
      }
      if !IsReadable(desc.value.mode) {
        SetError(NoPermission);
        return -1, [];
      }
      var d := desc.value;
      if d.file.blocks == [] {
        SetError(NoErr);
        return 0, [];
      }
      var bn, off;
      bytes, bn, off := d.file.ReadFrom(d.blockNumber, d.blockOffset, n);
      MoveCursor(fd, bn, off);
      SetError(NoErr);
      r := |bytes|;
    }

    /** The cursor of descriptor `fd` moves to another place in range in its file. */
    method MoveCursor(fd: int, blockNumber: nat, blockOffset: nat)
      requires Valid() && FindDesc(fd).Some? && CursorOk(FindDesc(fd).value.file.blocks, blockNumber, blockOffset)
      modifies this
      ensures Valid() && files == old(files) && capacity == old(capacity) && error == old(error)
      ensures descs == old(descs)[fd := Some(old(FindDesc(fd)).value.(blockNumber := blockNumber, blockOffset := blockOffset))]
    {
      ghost var table := descs;
      descs := descs[fd := Some(descs[fd].value.(blockNumber := blockNumber, blockOffset := blockOffset))];
      forall g | g in files
        ensures Refs(descs, g) == Refs(table, g)
      {
        RefsUpdate(table, fd, descs[fd], g);
      }
    }

    /**
     * `ufs_close`. A descriptor not in the table gives `UFS_ERR_NO_FILE`. Otherwise its
     * slot is emptied, its file counts one descriptor less, and a deleted file that no
     * descriptor is open on any more is freed.
     */
    method Close(fd: int) returns (r: int)
      requires Valid()
      modifies this, FileOf(fd)
      ensures Valid() && capacity == old(capacity)
      ensures old(FindDesc(fd)).None? ==> r == -1 && error == NoFile && descs == old(descs) && files == old(files)
      ensures old(FindDesc(fd)).Some? ==>
        var f := old(FindDesc(fd)).value.file;
        && r == 0 && error == old(error) && descs == old(descs)[fd := None]
        && f.refs == old(f.refs) - 1 && f.blocks == old(f.blocks) && f.deleted == old(f.deleted)
        && files == if f.refs == 0 && f.deleted then Without(old(files), f) else old(files)
    {
      var desc := FindDesc(fd);
      if desc.None? {
        SetError(NoFile);
        return -1;
      }
      Release(fd);
      r := 0;
    }

    /**
     * The part of `ufs_close` after its check: descriptor `fd` leaves the table, and its
     * file, when deleted and no longer open, the list.
     */
    method Release(fd: int)
      requires Valid() && FindDesc(fd).Some?
      modifies this, FindDesc(fd).value.file
      ensures Valid() && capacity == old(capacity) && error == old(error)
      ensures var f := old(FindDesc(fd)).value.file;
        && descs == old(descs)[fd := None]
        && f.refs == old(f.refs) - 1 && f.blocks == old(f.blocks) && f.deleted == old(f.deleted)
        && files == if f.refs == 0 && f.deleted then Without(old(files), f) else old(files)
    {
      var f := descs[fd].value.file;
      ghost var table := descs;
      RefsUpdate(table, fd, None, f);
      f.refs := f.refs - 1;
      descs := descs[fd := None];
      forall g | g in files
        ensures Refs(descs, g) == Refs(table, g) - (if g == f then 1 else 0)
      {
        RefsUpdate(table, fd, None, g);
      }
      if f.refs == 0 && f.deleted {
        Unlist(f);
      }
    }

    /**
     * `ufs_delete`. No name, or a name no file that is not deleted has, gives
     * `UFS_ERR_NO_FILE`. Otherwise the file is marked deleted, so that no later open
     * finds it, and it is freed at once when no descriptor is open on it; otherwise the
     * last close frees it.
     */
    method Delete(name: Option<CString>) returns (r: int)
      requires Valid()
      modifies this, Found(name)
      ensures Valid() && descs == old(descs) && capacity == old(capacity)
      ensures name.None? || old(Lookup(files, name.value)).None? ==> r == -1 && error == NoFile && files == old(files)
      ensures name.Some? && old(Lookup(files, name.value)).Some? ==>
        var f := old(files)[old(Lookup(files, name.value)).value];
        && r == 0 && error == old(error) && f.deleted && f.blocks == old(f.blocks) && f.refs == old(f.refs)
        && files == (if f.refs == 0 then Without(old(files), f) else old(files))
        && Lookup(files, name.value).None?
    {
      if name.None? {
        SetError(NoFile);
        return -1;
      }
      var f := FindFile(name.value);
      if f == null {
        SetError(NoFile);
        return -1;
      }
      Retire(f);
      r := 0;
    }

    /**
     * The part of `ufs_delete` after its lookup: the file is marked deleted, and leaves
     * the list when no descriptor is open on it. No listed file has its name any more.
     */
    method Retire(f: File)
      requires Valid() && f in files && !f.deleted
      modifies this, f
      ensures Valid() && descs == old(descs) && capacity == old(capacity) && error == old(error)
      ensures f.deleted && f.blocks == old(f.blocks) && f.refs == old(f.refs)
      ensures files == if f.refs == 0 then Without(old(files), f) else old(files)
      ensures forall g :: g in files ==> !Named(g, f.name)
    {
      assert forall g :: g in files && Named(g, f.name) ==> g == f;
      f.deleted := true;
      if f.refs == 0 {
        Unlist(f);
      }
    }

    /**
     * The `free_file` calls of `ufs_close` and `ufs_delete`: a file that no descriptor is
     * open on leaves the list. Everything else is as `Valid` wants it.
     */
    method Unlist(f: File)
      requires f in files && f.refs == 0 && Refs(descs, f) == 0 && f.Shaped()
      requires forall g :: g in files && g != f ==> g.Shaped() && g.refs == Refs(descs, g) && (g.deleted ==> g.refs > 0)
      requires forall g, h :: g in files && h in files && g != f && h != f && Named(g, h.name) && !h.deleted ==> g == h
      requires |descs| <= capacity
      requires forall k :: 0 <= k < |descs| && descs[k].Some? ==> DescOk(descs[k].value)
      modifies this
      ensures Valid() && files == Without(old(files), f)
      ensures descs == old(descs) && capacity == old(capacity) && error == old(error)
    {
      RefsZero(descs, f);
      FreeFile(f);
    }
  }
}
