/** Files of the in-memory file system (kernel/vfs/ramfs.c): sparse 4 KiB blocks that stand for a byte sequence. */
module RamFile {

  const BLOCK := 4096

  type Byte = n: nat | n < 0x100

  /** A slot of the block array: no block yet, or a block of 4096 bytes. */
  datatype Chunk = Hole | Data(bytes: seq<Byte>)

  predicate ChunkOk(k: Chunk) {
    k.Data? ==> |k.bytes| == BLOCK
  }

  predicate ChunksOk(blocks: seq<Chunk>) {
    forall b :: 0 <= b < |blocks| ==> ChunkOk(blocks[b])
  }

  /** The byte at `j` of a block; a hole reads as zero. */
  function ByteIn(k: Chunk, j: nat): Byte
    requires ChunkOk(k) && j < BLOCK
  {
    if k.Hole? then 0 else k.bytes[j]
  }

  function BlockOf(i: nat): nat { i / BLOCK }

  function OffsetOf(i: nat): (j: nat)
    ensures j < BLOCK
  {
    i % BLOCK
  }

  /** The byte at position `i` of the file. */
  function ByteAt(blocks: seq<Chunk>, i: nat): Byte
    requires ChunksOk(blocks) && BlockOf(i) < |blocks|
  {
    ByteIn(blocks[BlockOf(i)], OffsetOf(i))
  }

  function BlockCount(size: nat): nat {
    (size + 4095) / BLOCK
  }

  lemma BlockInCount(i: nat, size: nat)
    ensures BlockOf(i) < BlockCount(size) <==> i < BlockCount(size) * BLOCK
    ensures i < size ==> BlockOf(i) < BlockCount(size)
    ensures BlockCount(size) * BLOCK >= size
  {
  }

  lemma BlockStart(b: nat, size: nat)
    requires b < BlockCount(size)
    ensures b * BLOCK < size && BlockOf(b * BLOCK) == b && OffsetOf(b * BLOCK) == 0
  {
  }

  /** How many blocks `n` bytes from `off` on lie in. */
  function Touched(off: nat, n: nat): nat {
    if n == 0 then 0 else (off + n - 1) / BLOCK - off / BLOCK + 1
  }

  /** Copying on into the next block touches one more. */
  lemma TouchNext(off: nat, done: nat, n: nat, total: nat)
    requires 0 < n && done + n <= total && (done > 0 ==> OffsetOf(off + done) == 0)
    requires n == BLOCK - OffsetOf(off + done) || (done + n == total && n < BLOCK - OffsetOf(off + done))
    ensures Touched(off, done + n) == Touched(off, done) + 1 <= Touched(off, total)
    ensures done + n < total ==> OffsetOf(off + (done + n)) == 0
  {
  }

  lemma BlockCountMono(m: nat, n: nat)
    requires m <= n
    ensures BlockCount(m) <= BlockCount(n)
  {
  }

  // ----- byte sequences -----

  /** Cut or zero-filled to length `n`. */
  function Resize(c: seq<Byte>, n: nat): (r: seq<Byte>)
    ensures |r| == n
  {
    seq(n, i requires 0 <= i < n => if i < |c| then c[i] else 0)
  }

  /** `data` put over `c` at `off`. */
  function Overlay(c: seq<Byte>, off: nat, data: seq<Byte>): (r: seq<Byte>)
    ensures |r| == |c|
  {
    seq(|c|, i requires 0 <= i < |c| => if off <= i < off + |data| then data[i - off] else c[i])
  }

  /** The blocks hold `c`, and everything past its end is zero. */
  ghost predicate Stores(blocks: seq<Chunk>, c: seq<Byte>) {
    && ChunksOk(blocks) && |blocks| == BlockCount(|c|)
    && forall i: nat :: BlockOf(i) < |blocks| ==> ByteAt(blocks, i) == if i < |c| then c[i] else 0
  }

  // ----- what each step does to the blocks -----

  /** More slots, all holes. */
  lemma GrowStores(blocks: seq<Chunk>, c: seq<Byte>, n: nat, blocks': seq<Chunk>)
    requires Stores(blocks, c) && n >= |c|
    requires |blocks'| == BlockCount(n) && |blocks| <= |blocks'|
    requires forall b :: 0 <= b < |blocks'| ==> blocks'[b] == if b < |blocks| then blocks[b] else Hole
    ensures Stores(blocks', Resize(c, n))
  {
    hide BlockOf, BlockCount;
    forall i: nat | BlockOf(i) < |blocks'| ensures ByteAt(blocks', i) == if i < n then Resize(c, n)[i] else 0 {
      if BlockOf(i) < |blocks| {
        assert ByteAt(blocks', i) == ByteAt(blocks, i);
      } else {
        InOldBlocks(i, |c|);
      }
    }
  }

  lemma InOldBlocks(i: nat, size: nat)
    ensures i < size ==> BlockOf(i) < BlockCount(size)
  {
  }

  /** A block with `piece` copied over it at `j`. */
  function Patched(k: Chunk, j: nat, piece: seq<Byte>): (r: seq<Byte>)
    requires ChunkOk(k) && j + |piece| <= BLOCK
    ensures |r| == BLOCK
  {
    var base := if k.Hole? then seq(BLOCK, _ => 0) else k.bytes;
    base[..j] + piece + base[j + |piece|..]
  }

  lemma PatchedAt(k: Chunk, j: nat, piece: seq<Byte>, i: nat)
    requires ChunkOk(k) && j + |piece| <= BLOCK && i < BLOCK
    ensures Patched(k, j, piece)[i] == if j <= i < j + |piece| then piece[i - j] else ByteIn(k, i)
  {
  }

  /** Copying into one block changes exactly the bytes written. */
  lemma WriteStores(blocks: seq<Chunk>, c: seq<Byte>, at: nat, piece: seq<Byte>)
    requires Stores(blocks, c) && at + |piece| <= |c| && OffsetOf(at) + |piece| <= BLOCK && BlockOf(at) < |blocks|
    ensures Stores(blocks[BlockOf(at) := Data(Patched(blocks[BlockOf(at)], OffsetOf(at), piece))], Overlay(c, at, piece))
  {
    var b, j := BlockOf(at), OffsetOf(at);
    var blocks' := blocks[b := Data(Patched(blocks[b], j, piece))];
    forall i: nat | BlockOf(i) < |blocks'| ensures ByteAt(blocks', i) == if i < |c| then Overlay(c, at, piece)[i] else 0 {
      if BlockOf(i) == b {
        PatchedAt(blocks[b], j, piece, OffsetOf(i));
        SameBlock(i, at);
      } else {
        OtherBlock(i, at, |piece|);
        assert ByteAt(blocks', i) == ByteAt(blocks, i);
      }
    }
  }

  lemma SameBlock(i: nat, at: nat)
    requires BlockOf(i) == BlockOf(at)
    ensures i - at == OffsetOf(i) - OffsetOf(at)
  {
  }

  lemma OtherBlock(i: nat, at: nat, n: nat)
    requires BlockOf(i) != BlockOf(at) && OffsetOf(at) + n <= BLOCK
    ensures !(at <= i < at + n)
  {
  }

  lemma OverlayJoin(c: seq<Byte>, off: nat, x: seq<Byte>, y: seq<Byte>)
    ensures Overlay(Overlay(c, off, x), off + |x|, y) == Overlay(c, off, x + y)
  {
  }

  /** The last block is cleared from the new end on, and the slots behind it are dropped. */
  lemma ShrinkStores(blocks: seq<Chunk>, c: seq<Byte>, n: nat, blocks': seq<Chunk>)
    requires Stores(blocks, c) && n <= |c| && |blocks'| == BlockCount(n) <= |blocks| && ChunksOk(blocks')
    requires forall b :: 0 <= b < |blocks'| ==> forall j :: 0 <= j < BLOCK ==>
      ByteIn(blocks'[b], j) == if b == BlockOf(n) && OffsetOf(n) <= j then 0 else ByteIn(blocks[b], j)
    ensures Stores(blocks', Resize(c, n))
  {
    forall i: nat | BlockOf(i) < |blocks'| ensures ByteAt(blocks', i) == if i < n then Resize(c, n)[i] else 0 {
      BeforeOrAfter(i, n);
      assert ByteAt(blocks, i) == ByteIn(blocks[BlockOf(i)], OffsetOf(i));
    }
  }

  lemma BeforeOrAfter(i: nat, n: nat)
    requires BlockOf(i) < BlockCount(n)
    ensures i < n <==> !(BlockOf(i) == BlockOf(n) && OffsetOf(n) <= OffsetOf(i))
  {
  }

  class File {
    var isStatic: bool
    /** The contents while they are still in the buffer the file was made from. */
    var buffer: seq<Byte>
    var blocks: seq<Chunk>
    var size: nat
    /** How many more blocks `kmalloc` will give. */
    var memory: nat
    /** The byte sequence the file stands for. */
    ghost var content: seq<Byte>

    ghost predicate Valid()
      reads this
    {
      |content| == size && if isStatic then buffer == content else Stores(blocks, content)
    }

    /** An empty file, or one over a static buffer. */
    constructor (fixed: bool, bytes: seq<Byte>, mem: nat)
      requires fixed || bytes == []
      ensures Valid() && content == bytes && isStatic == fixed
    {
      isStatic, buffer, blocks, size, memory, content := fixed, bytes, [], |bytes|, mem, bytes;
    }

    /** The conversion `ramfs_write` and `ramfs_setattr` start with. */
    method ToBlocks() returns (ok: bool)
      requires Valid()
      modifies this`isStatic, this`blocks, this`memory
      ensures Valid() && (ok ==> !isStatic) && (!ok ==> blocks == old(blocks) && memory == old(memory))
      ensures ok <==> !old(isStatic) || old(memory) >= BlockCount(size)
      ensures ok ==> memory == old(memory) - if old(isStatic) then BlockCount(size) else 0
    {
      if !isStatic {
        return true;
      }
      var made: seq<Chunk> := [];
      var left: nat := memory;
      var count := BlockCount(size);
      for b := 0 to count
        invariant Valid() && isStatic && blocks == old(blocks) && memory == old(memory)
        invariant |made| == b && ChunksOk(made) && left + b == memory
        invariant forall i: nat :: BlockOf(i) < b ==> ByteAt(made, i) == if i < size then buffer[i] else 0
      {
        if left == 0 {
          return false;
        }
        left := left - 1;
        BlockStart(b, size);
        var offset := b * BLOCK;
        var n := if offset + BLOCK > size then size - offset else BLOCK;
        var bytes: seq<Byte> := buffer[offset..offset + n] + seq(BLOCK - n, _ => 0);
        ghost var before := made;
        made := made + [Data(bytes)];
        forall i: nat | BlockOf(i) < b + 1 ensures ByteAt(made, i) == if i < size then buffer[i] else 0 {
          if BlockOf(i) < b { assert ByteAt(made, i) == ByteAt(before, i); } else { SameBlock(i, offset); }
        }
      }
      isStatic, blocks, memory := false, made, left;
      ok := true;
    }

    /** The file is extended with zeros; no block is made for them. `grow` says whether the array of blocks can be made
        longer. */
    method Extend(n: nat, grow: bool) returns (ok: bool)
      requires Valid() && !isStatic && n >= size
      modifies this`blocks, this`size, this`content
      ensures Valid() && (ok <==> grow || BlockCount(n) == BlockCount(old(size)))
      ensures if ok then size == n && content == Resize(old(content), n) else size == old(size) && content == old(content)
    {
      var count, want := BlockCount(size), BlockCount(n);
      BlockCountMono(size, n);
      ok := true;
      if want > count {
        if !grow {
          return false;
        }
        blocks := blocks + seq(want - count, _ => Hole);
      }
      GrowStores(old(blocks), old(content), n, blocks);
      size := n;
      content := Resize(content, n);
    }

    /** The blocks a conversion takes. */
    ghost function Converts(): nat
      reads this
    {
      if isStatic then BlockCount(size) else 0
    }

    /** `ramfs_write`: the file is extended if need be, then written block by block until memory runs out. */
    method Write(data: seq<Byte>, off: nat, grow: bool) returns (ok: bool, ghost written: nat)
      requires Valid()
      modifies this
      ensures Valid() && written <= |data| && (ok ==> written == |data|) && (!ok ==> written < |data| || content == old(content))
      ensures grow && old(memory) >= old(Converts()) + Touched(off, |data|) ==> ok
      ensures memory + old(Converts()) + Touched(off, |data|) >= old(memory) + Converts()
      ensures !ok ==> !grow || memory == 0 || (old(isStatic) && old(memory) < BlockCount(old(size)))
      ensures var end := if off + |data| > old(size) then off + |data| else old(size);
              content == old(content) || content == Overlay(Resize(old(content), end), off, data[..written])
      ensures ok ==> content == Overlay(Resize(old(content), if off + |data| > old(size) then off + |data| else old(size)), off, data)
      ensures isStatic ==> old(isStatic) && size == old(size)
    {
      hide Stores, BlockCount, Touched;
      written := 0;
      var converted := ToBlocks();
      if !converted {
        return false, 0;
      }
      SameResize(old(content));
      if off + |data| > size {
        var extended := Extend(off + |data|, grow);
        if !extended {
          return false, 0;
        }
      }
      ghost var base := content;
      assert base == Resize(old(content), if off + |data| > old(size) then off + |data| else old(size));
      ok, written := WriteBlocks(data, off);
      assert data[..|data|] == data;
    }

    /** The copy loop. */
    method WriteBlocks(data: seq<Byte>, off: nat) returns (ok: bool, ghost written: nat)
      requires Valid() && !isStatic && off + |data| <= size
      modifies this`blocks, this`memory, this`content
      ensures Valid() && written <= |data| && (ok <==> written == |data|) && (!ok ==> memory == 0)
      ensures content == Overlay(old(content), off, data[..written])
      ensures memory + Touched(off, |data|) >= old(memory) && (old(memory) >= Touched(off, |data|) ==> ok)
    {
      hide Stores, Overlay, OffsetOf, BlockOf;
      var done := 0;
      NoOverlay(content, off);
      assert data[..0] == [];
      while done < |data|
        invariant 0 <= done <= |data| && Valid() && content == Overlay(old(content), off, data[..done])
        invariant memory + Touched(off, done) >= old(memory) && Touched(off, done) <= Touched(off, |data|)
        invariant 0 < done < |data| ==> OffsetOf(off + done) == 0
      {
        hide Touched;
        var at := off + done;
        var n := BLOCK - OffsetOf(at);
        if n > |data| - done {
          n := |data| - done;
        }
        TouchNext(off, done, n, |data|);
        BlockInCount(at, size);
        StoresChunks(blocks, content);
        if blocks[BlockOf(at)].Hole? {
          if memory == 0 {
            return false, done;
          }
          memory := memory - 1;
        }
        var piece := data[done..done + n];
        WriteStores(blocks, content, at, piece);
        OverlayJoin(old(content), off, data[..done], piece);
        assert data[..done] + piece == data[..done + n];
        blocks := blocks[BlockOf(at) := Data(Patched(blocks[BlockOf(at)], OffsetOf(at), piece))];
        content := Overlay(content, at, piece);
        done := done + n;
      }
      return true, done;
    }

    /** `ramfs_read`. */
    method Read(count: nat, off: nat) returns (data: seq<Byte>)
      requires Valid()
      ensures off >= size ==> data == []
      ensures off < size ==> data == content[off..if off + count > size then size else off + count]
    {
      hide Stores, OffsetOf, BlockCount;
      if off >= size {
        return [];
      }
      var n := if off + count > size then size - off else count;
      if isStatic {
        return buffer[off..off + n];
      }
      data := ReadBlocks(n, off);
    }

    method ReadBlocks(n: nat, off: nat) returns (data: seq<Byte>)
      requires Valid() && !isStatic && off + n <= size
      ensures data == content[off..off + n]
    {
      hide Stores, OffsetOf, BlockCount;
      data := [];
      var done := 0;
      while done < n
        invariant |data| == done <= n && data == content[off..off + done]
        decreases n - done
      {
        var at := off + done;
        var m := BLOCK - OffsetOf(at);
        if m > n - done {
          m := n - done;
        }
        var piece := ReadPiece(at, m);
        SliceJoin(content, off, at, at + m);
        data := data + piece;
        done := done + m;
      }
    }

    /** What lies in one block. */
    method ReadPiece(at: nat, m: nat) returns (piece: seq<Byte>)
      requires Valid() && !isStatic && at < size && at + m <= size && OffsetOf(at) + m <= BLOCK
      ensures piece == content[at..at + m]
    {
      BlockInCount(at, size);
      hide OffsetOf, BlockOf, BlockCount;
      var k := blocks[BlockOf(at)];
      piece := if k.Data? then k.bytes[OffsetOf(at)..OffsetOf(at) + m] else seq(m, _ => 0);
      PieceIs(blocks, content, at, m, piece);
    }

    /** The size part of `ramfs_setattr` on a regular file. */
    method SetSize(n: nat, grow: bool) returns (ok: bool)
      requires Valid()
      modifies this
      ensures Valid() && content == if ok then Resize(old(content), n) else old(content)
      ensures ok <==> (!old(isStatic) || old(memory) >= BlockCount(old(size))) && (grow || BlockCount(n) <= BlockCount(old(size)))
      ensures memory + old(Converts()) >= old(memory) + Converts() && (isStatic ==> old(isStatic) && size == old(size))
    {
      hide Stores;
      ok := ToBlocks();
      if !ok {
        return;
      }
      SameResize(content);
      if n > size {
        BlockCountMono(size, n);
        ok := Extend(n, grow);
      } else {
        BlockCountMono(n, size);
        if n < size {
          Shrink(n);
        }
      }
    }

    /** The slots past the new end are given up, and the last block is cleared from there on. */
    method Shrink(n: nat)
      requires Valid() && !isStatic && n < size
      modifies this`blocks, this`size, this`content
      ensures Valid() && content == Resize(old(content), n)
    {
      var want := BlockCount(n);
      BlockCountMono(n, size);
      LastBlock(n);
      hide Stores, BlockCount;
      StoresChunks(blocks, content);
      blocks := blocks[..want];
      if OffsetOf(n) != 0 && blocks[BlockOf(n)].Data? {
        var j := OffsetOf(n);
        blocks := blocks[BlockOf(n) := Data(blocks[BlockOf(n)].bytes[..j] + seq(BLOCK - j, _ => 0))];
      }
      ShrinkStores(old(blocks), content, n, blocks);
      size := n;
      content := Resize(content, n);
    }
  }

  lemma LastBlock(n: nat)
    ensures OffsetOf(n) != 0 ==> BlockOf(n) < BlockCount(n)
    ensures OffsetOf(n) == 0 ==> BlockOf(n) == BlockCount(n)
  {
  }

  lemma StoresChunks(blocks: seq<Chunk>, c: seq<Byte>)
    requires Stores(blocks, c)
    ensures ChunksOk(blocks) && |blocks| == BlockCount(|c|)
  {
  }

  lemma SliceJoin(c: seq<Byte>, i: nat, j: nat, k: nat)
    requires i <= j <= k <= |c|
    ensures c[i..j] + c[j..k] == c[i..k]
  {
  }

  lemma SameResize(c: seq<Byte>)
    ensures Resize(c, |c|) == c
  {
  }

  lemma NoOverlay(c: seq<Byte>, off: nat)
    ensures Overlay(c, off, []) == c
  {
  }

  lemma PieceIs(blocks: seq<Chunk>, c: seq<Byte>, at: nat, m: nat, piece: seq<Byte>)
    requires Stores(blocks, c) && at + m <= |c| && OffsetOf(at) + m <= BLOCK && BlockOf(at) < |blocks|
    requires |piece| == m && forall j :: 0 <= j < m ==> piece[j] == ByteIn(blocks[BlockOf(at)], OffsetOf(at) + j)
    ensures piece == c[at..at + m]
  {
    forall j | 0 <= j < m ensures piece[j] == c[at + j] {
      NextIn(at, j);
      assert ByteAt(blocks, at + j) == ByteIn(blocks[BlockOf(at)], OffsetOf(at) + j);
    }
  }

  lemma NextIn(at: nat, j: nat)
    requires OffsetOf(at) + j < BLOCK
    ensures BlockOf(at + j) == BlockOf(at) && OffsetOf(at + j) == OffsetOf(at) + j
  {
  }

  // ----- whole runs -----

  datatype Op = ReadOp(count: nat, off: nat) | WriteOp(data: seq<Byte>, off: nat, grow: bool) | SizeOp(n: nat, grow: bool)

  /** What an operation got done: a write may run out of memory after `n` bytes, and a conversion may fail. */
  datatype Did = Looked | Wrote(n: nat) | Resized | Nothing

  predicate CanDo(op: Op, did: Did) {
    match op
    case ReadOp(_, _) => did.Looked?
    case WriteOp(data, _, _) => did.Nothing? || (did.Wrote? && did.n <= |data|)
    case SizeOp(_, _) => did.Nothing? || did.Resized?
  }

  predicate AllDone(op: Op, did: Did) {
    !did.Nothing? && (op.WriteOp? && did.Wrote? ==> did.n == |op.data|)
  }

  /** The blocks the writes may take, apart from a conversion. */
  function Takes(ops: seq<Op>): nat {
    if ops == [] then 0
    else
      var op := ops[|ops| - 1];
      Takes(ops[..|ops| - 1]) + if op.WriteOp? then Touched(op.off, |op.data|) else 0
  }

  /** The array of blocks can always be made longer. */
  predicate AllGrow(ops: seq<Op>) {
    forall i :: 0 <= i < |ops| ==> (ops[i].WriteOp? ==> ops[i].grow) && (ops[i].SizeOp? ==> ops[i].grow)
  }

  predicate History(ops: seq<Op>, dids: seq<Did>) {
    |ops| == |dids| && forall i :: 0 <= i < |ops| ==> CanDo(ops[i], dids[i])
  }

  function SizeAfter(c: seq<Byte>, ops: seq<Op>, dids: seq<Did>): nat
    requires History(ops, dids)
    decreases |ops|
  {
    if ops == [] then |c|
    else
      var k := |ops| - 1;
      var before := SizeAfter(c, ops[..k], dids[..k]);
      match dids[k]
      case Wrote(_) => if ops[k].off + |ops[k].data| > before then ops[k].off + |ops[k].data| else before
      case Resized => ops[k].n
      case _ => before
  }

  /** What the last operation that touched position `i` left there: the byte a write put there, zero if the file was
      cut before it, and at first the byte of the file or zero past its end. */
  function LastLeft(c: seq<Byte>, ops: seq<Op>, dids: seq<Did>, i: nat): Byte
    requires History(ops, dids)
    decreases |ops|
  {
    if ops == [] then if i < |c| then c[i] else 0
    else
      var k := |ops| - 1;
      if dids[k].Wrote? && ops[k].off <= i < ops[k].off + dids[k].n then ops[k].data[i - ops[k].off]
      else if dids[k].Resized? && i >= ops[k].n then 0
      else LastLeft(c, ops[..k], dids[..k], i)
  }

  /** Nothing past the end survives. */
  lemma {:induction false} NothingPastEnd(c: seq<Byte>, ops: seq<Op>, dids: seq<Did>, i: nat)
    requires History(ops, dids) && i >= SizeAfter(c, ops, dids)
    ensures LastLeft(c, ops, dids, i) == 0
    decreases |ops|
  {
    if ops != [] {
      var k := |ops| - 1;
      assert CanDo(ops[k], dids[k]);
      if !(dids[k].Resized? && i >= ops[k].n) {
        NothingPastEnd(c, ops[..k], dids[..k], i);
      }
    }
  }

  /** `now` is the file the history leaves. */
  ghost predicate Leaves(c: seq<Byte>, ops: seq<Op>, dids: seq<Did>, now: seq<Byte>)
    requires History(ops, dids)
  {
    |now| == SizeAfter(c, ops, dids) && forall i :: 0 <= i < |now| ==> now[i] == LastLeft(c, ops, dids, i)
  }

  /** What the reads among the operations return. */
  function AnswersTo(c: seq<Byte>, ops: seq<Op>, dids: seq<Did>): seq<seq<Byte>>
    requires History(ops, dids)
    decreases |ops|
  {
    if ops == [] then []
    else
      var k := |ops| - 1;
      AnswersTo(c, ops[..k], dids[..k]) + if ops[k].ReadOp? then [Answer(c, ops[..k], dids[..k], ops[k].count, ops[k].off)] else []
  }

  function Answer(c: seq<Byte>, ops: seq<Op>, dids: seq<Did>, count: nat, off: nat): seq<Byte>
    requires History(ops, dids)
  {
    var size := SizeAfter(c, ops, dids);
    var n: nat := if off >= size then 0 else if off + count > size then size - off else count;
    seq<Byte>(n, j requires 0 <= j < n => LastLeft(c, ops, dids, off + j))
  }

  lemma WriteLeaves(c: seq<Byte>, ops: seq<Op>, dids: seq<Did>, now: seq<Byte>, data: seq<Byte>, off: nat, grow: bool, n: nat)
    requires History(ops, dids) && Leaves(c, ops, dids, now) && n <= |data|
    ensures History(ops + [WriteOp(data, off, grow)], dids + [Wrote(n)])
    ensures var end := if off + |data| > |now| then off + |data| else |now|;
            Leaves(c, ops + [WriteOp(data, off, grow)], dids + [Wrote(n)], Overlay(Resize(now, end), off, data[..n]))
  {
    var ops', dids' := ops + [WriteOp(data, off, grow)], dids + [Wrote(n)];
    assert ops'[..|ops|] == ops && dids'[..|ops|] == dids;
    var end := if off + |data| > |now| then off + |data| else |now|;
    forall i | |now| <= i < end ensures LastLeft(c, ops, dids, i) == 0 { NothingPastEnd(c, ops, dids, i); }
  }

  lemma SizeLeaves(c: seq<Byte>, ops: seq<Op>, dids: seq<Did>, now: seq<Byte>, n: nat, grow: bool)
    requires History(ops, dids) && Leaves(c, ops, dids, now)
    ensures History(ops + [SizeOp(n, grow)], dids + [Resized]) && Leaves(c, ops + [SizeOp(n, grow)], dids + [Resized], Resize(now, n))
  {
    var ops', dids' := ops + [SizeOp(n, grow)], dids + [Resized];
    assert ops'[..|ops|] == ops && dids'[..|ops|] == dids;
    forall i | |now| <= i < n ensures LastLeft(c, ops, dids, i) == 0 { NothingPastEnd(c, ops, dids, i); }
  }

  /** An operation that changes nothing. */
  lemma IdleLeaves(c: seq<Byte>, ops: seq<Op>, dids: seq<Did>, now: seq<Byte>, op: Op, did: Did)
    requires History(ops, dids) && Leaves(c, ops, dids, now) && CanDo(op, did) && (did.Looked? || did.Nothing?)
    ensures History(ops + [op], dids + [did]) && Leaves(c, ops + [op], dids + [did], now)
  {
    var ops', dids' := ops + [op], dids + [did];
    assert ops'[..|ops|] == ops && dids'[..|ops|] == dids;
  }

  lemma AnswersLonger(c: seq<Byte>, ops: seq<Op>, dids: seq<Did>, op: Op, did: Did)
    requires History(ops, dids) && CanDo(op, did)
    ensures History(ops + [op], dids + [did])
    ensures AnswersTo(c, ops + [op], dids + [did]) ==
            AnswersTo(c, ops, dids) + if op.ReadOp? then [Answer(c, ops, dids, op.count, op.off)] else []
  {
    var ops', dids' := ops + [op], dids + [did];
    assert ops'[..|ops|] == ops && dids'[..|ops|] == dids;
  }

  /** One operation on the file. */
  method RunOp(f: File, op: Op, ghost c: seq<Byte>, ghost ops: seq<Op>, ghost dids: seq<Did>)
    returns (ok: bool, answer: seq<Byte>, ghost did: Did)
    requires f.Valid() && History(ops, dids) && Leaves(c, ops, dids, f.content)
    modifies f
    ensures f.Valid() && CanDo(op, did) && History(ops + [op], dids + [did]) && Leaves(c, ops + [op], dids + [did], f.content)
    ensures op.ReadOp? ==> answer == Answer(c, ops, dids, op.count, op.off)
    ensures ok <==> AllDone(op, did)
    ensures AllGrow([op]) && old(f.memory) >= old(f.Converts()) + Takes([op]) ==> ok
    ensures f.memory + old(f.Converts()) + Takes([op]) >= old(f.memory) + f.Converts()
  {
    assert f.size == |f.content|;
    hide File.Valid, Leaves, Touched, BlockCount, Overlay, Resize;
    assert [op][..0] == [];
    answer := [];
    ghost var now := f.content;
    match op
    case ReadOp(count, off) =>
      answer := f.Read(count, off);
      ReadAnswers(c, ops, dids, now, count, off, answer);
      IdleLeaves(c, ops, dids, now, op, Looked);
      return true, answer, Looked;
    case WriteOp(data, off, grow) =>
      ghost var n;
      ok, n := f.Write(data, off, grow);
      assert data[..|data|] == data;
      if f.content == now && !ok {
        IdleLeaves(c, ops, dids, now, op, Nothing);
        did := Nothing;
      } else {
        WriteLeaves(c, ops, dids, now, data, off, grow, n);
        did := Wrote(n);
      }
    case SizeOp(n, grow) =>
      ok := f.SetSize(n, grow);
      if ok {
        SizeLeaves(c, ops, dids, now, n, grow);
        did := Resized;
      } else {
        IdleLeaves(c, ops, dids, now, op, Nothing);
        did := Nothing;
      }
  }

  lemma ReadAnswers(c: seq<Byte>, ops: seq<Op>, dids: seq<Did>, now: seq<Byte>, count: nat, off: nat, answer: seq<Byte>)
    requires History(ops, dids) && Leaves(c, ops, dids, now)
    requires answer == if off >= |now| then [] else now[off..if off + count > |now| then |now| else off + count]
    ensures answer == Answer(c, ops, dids, count, off)
  {
  }

  /** Any sequence of reads, writes and changes of size: every read returns, up to the end of the file, what the last
      operation that touched each position left there; with blocks for a conversion and for all blocks the writes touch,
      and an array that can grow, all of them take full effect. */
  method RunAll(f: File, ops: seq<Op>) returns (ok: bool, answers: seq<seq<Byte>>, ghost dids: seq<Did>)
    requires f.Valid()
    modifies f
    ensures f.Valid() && History(ops, dids) && Leaves(old(f.content), ops, dids, f.content)
    ensures answers == AnswersTo(old(f.content), ops, dids)
    ensures ok <==> forall i :: 0 <= i < |ops| ==> AllDone(ops[i], dids[i])
    ensures AllGrow(ops) && old(f.memory) >= old(f.Converts()) + Takes(ops) ==> ok
  {
    hide File.Valid, Leaves, Touched, BlockCount;
    ghost var c := f.content;
    ok, answers, dids := true, [], [];
    assert Leaves(c, [], [], c) by { NoneLeaves(c); }
    for i := 0 to |ops|
      invariant f.Valid() && History(ops[..i], dids) && Leaves(c, ops[..i], dids, f.content) && answers == AnswersTo(c, ops[..i], dids)
      invariant ok <==> forall j :: 0 <= j < i ==> AllDone(ops[j], dids[j])
      invariant f.memory + old(f.Converts()) + Takes(ops[..i]) >= old(f.memory) + f.Converts()
      invariant AllGrow(ops) && old(f.memory) >= old(f.Converts()) + Takes(ops) ==> ok
    {
      TakesPrefix(ops, i);
      assert ops[..i + 1] == ops[..i] + [ops[i]];
      var good, answer;
      ghost var did;
      good, answer, did := RunOp(f, ops[i], c, ops[..i], dids);
      AnswersLonger(c, ops[..i], dids, ops[i], did);
      if ops[i].ReadOp? {
        answers := answers + [answer];
      }
      ok := ok && good;
      dids := dids + [did];
    }
    assert ops[..|ops|] == ops;
  }

  lemma {:induction false} TakesMonotone(ops: seq<Op>, i: nat)
    requires i <= |ops|
    ensures Takes(ops[..i]) <= Takes(ops)
    decreases |ops|
  {
    if i == |ops| {
      assert ops[..i] == ops;
    } else {
      TakesMonotone(ops[..|ops| - 1], i);
      assert ops[..|ops| - 1][..i] == ops[..i];
    }
  }

  lemma TakesPrefix(ops: seq<Op>, i: nat)
    requires i < |ops|
    ensures Takes(ops[..i + 1]) == Takes(ops[..i]) + Takes([ops[i]]) <= Takes(ops)
  {
    TakesMonotone(ops, i + 1);
    assert ops[..i + 1][..i] == ops[..i] && [ops[i]][..0] == [];
  }

  lemma NoneLeaves(c: seq<Byte>)
    ensures Leaves(c, [], [], c)
  {
  }
}
