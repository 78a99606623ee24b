/** balloc(), bfree(), bmap(), itrunc(), readi() and writei() of fs.c. Blocks are read and written through
    the buffer cache, which always yields a block's latest contents. */
module Files {
  import opened Bits
  import opened FileBlocks
  import opened Sizes
  import SwapFile

  const OUT_OF_BLOCKS := -2  // stands for the panic in balloc()

  /** How much of `left` bytes from offset `off` on lies in one block. */
  function Piece(left: nat, off: nat): (m: nat)
    requires left > 0
    ensures 0 < m <= left && off % BSIZE + m <= BSIZE
  {
    if left < BSIZE - off % BSIZE then left else BSIZE - off % BSIZE
  }

  class FileSystem {
    const sb: Super
    var blocks: seq<Block>
    var inodes: seq<Inode>
    ghost var owner: map<int, Slot>
    ghost var files: seq<seq<int>>  // the bytes of each inode's file

    /** A file system as it is found on a disk. */
    constructor (super: Super, image: seq<Block>, table: seq<Inode>, ghost owners: map<int, Slot>, ghost contents: seq<seq<int>>)
      requires Owned(super, State(image, table, owners), NO_CUT) && Settled(State(image, table, owners)) &&
        AllRead(State(image, table, owners), contents)
      ensures Valid() && sb == super && blocks == image && inodes == table && owner == owners && files == contents
    {
      sb, blocks, inodes, owner, files := super, image, table, owners, contents;
    }

    ghost function Now(): State
      reads this
    {
      State(blocks, inodes, owner)
    }

    ghost predicate Sound()
      reads this
    {
      Owned(sb, Now(), NO_CUT) && Settled(Now())
    }

    /** Every marked block is in one place of one file, and every file reads as its byte sequence. */
    ghost predicate Valid()
      reads this
    {
      Sound() && AllRead(Now(), files)
    }

    /** balloc(): the lowest free block, marked and zeroed; -2 when the bitmap is full. */
    method Balloc() returns (addr: int)
      requires Owned(sb, Now(), NO_CUT)
      modifies this`blocks, this`owner
      ensures addr == OUT_OF_BLOCKS <==> forall b :: 0 <= b < sb.size ==> old(Used(sb, Now(), b))
      ensures addr == OUT_OF_BLOCKS ==> Now() == old(Now()) && Full(sb, Now())
      ensures addr != OUT_OF_BLOCKS ==>
        && 0 < addr < sb.size && !old(Used(sb, Now(), addr)) && (forall b :: 0 <= b < addr ==> old(Used(sb, Now(), b)))
        && Now() == Allocated(sb, old(Now()), addr) && Owned(sb, Now(), NO_CUT) && owner[addr] == Pending
    {
      hide Owned, Used, Marked, Allocated;
      ghost var s := Now();
      OwnedFits(sb, s, NO_CUT);
      var b := 0;
      while b < sb.size
        invariant 0 <= b && b % BPB == 0 && Now() == s
        invariant forall c :: 0 <= c < b && c < sb.size ==> Used(sb, s, c)
      {
        var bits := blocks[BitmapBlock(sb, b)];
        var bi := 0;
        while bi < BPB && b + bi < sb.size
          invariant 0 <= bi <= BPB && Now() == s
          invariant forall c :: 0 <= c < b + bi && c < sb.size ==> Used(sb, s, c)
        {
          UsedHere(sb, s, b, bi, bits);
          if !Marked(bits, b + bi) {
            TakeBlock(b, bi, bits);
            return b + bi;
          }
          bi := bi + 1;
        }
        b := b + BPB;
      }
      addr := OUT_OF_BLOCKS;
    }

    /** The stores of balloc(): mark the block's bit, and fill the block with zeros. */
    method TakeBlock(b: int, bi: int, bits: Block)
      requires Owned(sb, Now(), NO_CUT) && 0 <= b && b % BPB == 0 && 0 <= bi < BPB && b + bi < sb.size
      requires BitmapBlock(sb, b) < |blocks| && bits == blocks[BitmapBlock(sb, b)] && !Used(sb, Now(), b + bi)
      modifies this`blocks, this`owner
      ensures 0 < b + bi && Now() == Allocated(sb, old(Now()), b + bi) && Owned(sb, Now(), NO_CUT) && owner[b + bi] == Pending
    {
      hide Owned, Used, Marked;
      ghost var s := Now();
      OwnedFits(sb, s, NO_CUT);
      UsedHere(sb, s, b, bi, bits);
      AllocatedKeeps(sb, s, NO_CUT, b + bi);
      blocks := blocks[BitmapBlock(sb, b) := Mark(bits, b + bi, true)];
      blocks := blocks[b + bi := Zeros()];
      owner := owner[b + bi := Pending];
      assert Now() == Allocated(sb, s, b + bi);
    }

    /** bfree(), on a block that is in use: it panics on any other. */
    method Bfree(b: int)
      requires Fits(sb, Now()) && 0 <= b < sb.size && Used(sb, Now(), b)
      modifies this`blocks
      ensures Now() == BitChanged(sb, old(Now()), b, false)
    {
      var m := BitmapBlock(sb, b);
      blocks := blocks[m := Mark(blocks[m], b, false)];
    }

    /** The first half of bmap()'s two allocations: a zeroed block for an empty slot of an inode. */
    method NewBlock(i: int, n: int) returns (addr: int)
      requires Sound() && 0 <= i < |inodes| && 0 <= n <= NDIRECT && AddrOf(Now(), InodeSlot(i, n)) == 0
      modifies this`blocks, this`inodes, this`owner
      ensures addr == OUT_OF_BLOCKS ==> Full(sb, Now())
      ensures addr != OUT_OF_BLOCKS ==> Sound() && Frame(old(Now()), Now(), Pending)
      ensures addr != OUT_OF_BLOCKS ==>
        addr == AddrOf(Now(), InodeSlot(i, n)) && 0 < addr < sb.size && addr < |blocks| && blocks[addr] == Zeros()
      ensures addr != OUT_OF_BLOCKS && n == NDIRECT ==> forall k {:trigger Entry(i, k)} :: 0 <= k < NINDIRECT ==>
        AddrOf(Now(), Entry(i, k)) == 0
    {
      hide Owned, Frame, Used, AddrOf;
      ghost var s := Now();
      OwnedFits(sb, s, NO_CUT);
      addr := Balloc();
      if addr == OUT_OF_BLOCKS {
        return;
      }
      ghost var t := Now();
      OwnedFits(sb, t, NO_CUT);
      AllocatedFrame(sb, s, addr, Pending);
      AllocatedAddr(sb, s, NO_CUT, addr, InodeSlot(i, n));
      AttachedKeeps(sb, t, i, n, addr);
      AttachedFrame(sb, t, i, n, addr, Pending);
      AttachedAddr(sb, t, i, n, addr, InodeSlot(i, n));
      inodes := inodes[i := inodes[i].(addrs := inodes[i].addrs[n := addr])];
      owner := owner[addr := InodeSlot(i, n)];
      assert Now() == Attached(t, i, n, addr);
      FrameTrans(s, t, Now(), Pending);
      if n == NDIRECT {
        NoEntries(Now(), i, addr);
      }
    }

    /** A zeroed block for an empty entry of the indirect block. */
    method NewEntry(i: int, n: int) returns (addr: int)
      requires Sound() && 0 <= i < |inodes| && 0 <= n < NINDIRECT && AddrOf(Now(), Indirect(i)) != 0 && AddrOf(Now(), Entry(i, n)) == 0
      modifies this`blocks, this`inodes, this`owner
      ensures addr == OUT_OF_BLOCKS ==> Full(sb, Now())
      ensures addr != OUT_OF_BLOCKS ==> Sound() && Frame(old(Now()), Now(), Pending)
      ensures addr != OUT_OF_BLOCKS ==>
        addr == AddrOf(Now(), Entry(i, n)) && 0 < addr < sb.size && addr < |blocks| && blocks[addr] == Zeros()
    {
      hide Owned, Frame, Used, AddrOf, PutWord;
      ghost var s := Now();
      OwnedFits(sb, s, NO_CUT);
      IndirectFacts(s, i);
      Addressed(sb, s, NO_CUT, Indirect(i));
      var table := inodes[i].addrs[NDIRECT];
      addr := Balloc();
      if addr == OUT_OF_BLOCKS {
        return;
      }
      ghost var t := Now();
      OwnedFits(sb, t, NO_CUT);
      AllocatedFrame(sb, s, addr, Pending);
      AllocatedAddr(sb, s, NO_CUT, addr, Indirect(i));
      AllocatedAddr(sb, s, NO_CUT, addr, Entry(i, n));
      EntrySetKeeps(sb, t, i, n, addr);
      EntrySetFrame(sb, t, i, n, addr, Pending);
      EntrySetAddr(sb, t, i, n, addr, Entry(i, n));
      TableNotNew(sb, t, i, addr);
      blocks := blocks[table := PutWord(blocks[table], n, addr)];
      owner := owner[addr := Entry(i, n)];
      assert Now() == EntrySet(t, i, n, addr);
      FrameTrans(s, t, Now(), Pending);
    }

    /** bmap(): the block holding block bn of inode i; a missing one is allocated, zeroed, and nothing else
        of any file changes. */
    method Bmap(i: int, bn: int) returns (addr: int)
      requires Sound() && 0 <= i < |inodes| && 0 <= bn < MAXFILE
      modifies this`blocks, this`inodes, this`owner
      ensures old(AddrOf(Now(), SlotOf(i, bn))) != 0 ==> Now() == old(Now()) && addr == AddrOf(Now(), SlotOf(i, bn))
      ensures addr == OUT_OF_BLOCKS ==> Full(sb, Now())
      ensures addr != OUT_OF_BLOCKS ==> Sound() && Frame(old(Now()), Now(), Pending)
      ensures addr != OUT_OF_BLOCKS ==> addr == AddrOf(Now(), SlotOf(i, bn)) && 0 < addr < |blocks|
      ensures addr != OUT_OF_BLOCKS && old(AddrOf(Now(), SlotOf(i, bn))) == 0 ==> forall k :: 0 <= k < BSIZE ==> blocks[addr][k] == 0
    {
      hide Owned, Frame, Used;
      ghost var s := Now();
      OwnedFits(sb, s, NO_CUT);
      FrameSelf(sb, s, Pending);
      if AddrOf(s, SlotOf(i, bn)) != 0 {
        Addressed(sb, s, NO_CUT, SlotOf(i, bn));
      }
      if bn < NDIRECT {
        addr := inodes[i].addrs[bn];
        if addr == 0 {
          addr := NewBlock(i, bn);
        }
        return;
      }
      var n := bn - NDIRECT;
      var table := inodes[i].addrs[NDIRECT];
      if table == 0 {
        table := NewBlock(i, NDIRECT);
        if table == OUT_OF_BLOCKS {
          return OUT_OF_BLOCKS;
        }
      }
      addr := Entered(i, n, table, s);
    }

    /** The part of bmap() that looks into the indirect block. */
    method Entered(i: int, n: int, table: int, ghost s: State) returns (addr: int)
      requires Sound() && 0 <= i < |inodes| && 0 <= n < NINDIRECT && table == AddrOf(Now(), Indirect(i)) != 0
      requires Frame(s, Now(), Pending) && (AddrOf(s, Entry(i, n)) == 0 <==> AddrOf(Now(), Entry(i, n)) == 0)
      modifies this`blocks, this`inodes, this`owner
      ensures old(AddrOf(Now(), Entry(i, n))) != 0 ==> Now() == old(Now()) && addr == AddrOf(Now(), Entry(i, n))
      ensures addr == OUT_OF_BLOCKS ==> Full(sb, Now())
      ensures addr != OUT_OF_BLOCKS ==> Sound() && Frame(s, Now(), Pending)
      ensures addr != OUT_OF_BLOCKS ==> addr == AddrOf(Now(), Entry(i, n)) && 0 < addr < |blocks|
      ensures addr != OUT_OF_BLOCKS && AddrOf(s, Entry(i, n)) == 0 ==> blocks[addr] == Zeros()
    {
      hide Owned, Frame, Used;
      ghost var t := Now();
      OwnedFits(sb, t, NO_CUT);
      Addressed(sb, t, NO_CUT, Indirect(i));
      if AddrOf(t, Entry(i, n)) != 0 {
        Addressed(sb, t, NO_CUT, Entry(i, n));
      }
      var a := blocks[table];
      addr := Word(a, n);
      if addr == 0 {
        addr := NewEntry(i, n);
        if addr != OUT_OF_BLOCKS {
          FrameTrans(s, t, Now(), Pending);
        }
      }
    }

    /** itrunc(): the file is empty and all its blocks are free; no bfree() panics and no other file changes. */
    method Itrunc(i: int)
      requires Valid() && 0 <= i < |inodes|
      modifies this
      ensures Valid() && i < |old(files)| && files == old(files)[i := []]
      ensures forall b {:trigger b in owner} :: b in owner <==> b in old(owner) && !Belongs(old(owner)[b], i)
      ensures forall b {:trigger owner[b]} :: b in owner && b in old(owner) ==> owner[b] == old(owner)[b]
    {
      hide Owned, AddrOf, OthersSame, AllRead;
      ghost var s := Now();
      OthersSelf(sb, s, i);
      OwnedFits(sb, s, NO_CUT);
      var k := 0;
      while k < NDIRECT
        invariant 0 <= k <= NDIRECT && 0 <= i < |inodes| && |inodes[i].addrs| == NDIRECT + 1
        invariant Sound() && OthersSame(s, Now(), i) && Dropped(s.owner, owner, i) && files == old(files)
        invariant forall n :: 0 <= n < k ==> inodes[i].addrs[n] == 0
      {
        if inodes[i].addrs[k] != 0 {
          ReleaseSlot(i, k, NO_CUT, s);
        }
        k := k + 1;
      }
      if inodes[i].addrs[NDIRECT] != 0 {
        ReleaseEntries(i, s);
        ReleaseSlot(i, NDIRECT, Cut(i, NINDIRECT), s);
      }
      SizeSetKeeps(sb, Now(), s, i, 0);
      NothingLeft(sb, Now(), i);
      inodes := inodes[i := inodes[i].(size := 0)];
      OneChanged(s, Now(), i, files, []);
      files := files[i := []];
    }

    /** itrunc() frees the block in one slot of the inode and empties the slot. */
    method ReleaseSlot(i: int, n: int, ghost cut: Cut, ghost s: State)
      requires Owned(sb, Now(), cut) && Settled(Now()) && 0 <= i < |inodes| && 0 <= n <= NDIRECT &&
        |inodes[i].addrs| == NDIRECT + 1 && inodes[i].addrs[n] != 0
      requires if n == NDIRECT then cut == Cut(i, NINDIRECT) else cut == NO_CUT
      requires OthersSame(s, Now(), i) && Dropped(s.owner, owner, i)
      modifies this`blocks, this`inodes, this`owner
      ensures Sound() && OthersSame(s, Now(), i) && Dropped(s.owner, owner, i)
      ensures inodes == old(inodes)[i := old(inodes)[i].(addrs := old(inodes)[i].addrs[n := 0])]
    {
      hide Owned, AddrOf, OthersSame, Used;
      ghost var t := Now();
      ReleasedKeeps(sb, t, cut, i, n);
      ReleasedOthers(sb, t, cut, i, n);
      OwnedFits(sb, t, cut);
      InodeAddr(t, i, n);
      SlotOwned(sb, t, cut, InodeSlot(i, n), i);
      ghost var b := inodes[i].addrs[n];
      Bfree(inodes[i].addrs[n]);
      inodes := inodes[i := inodes[i].(addrs := inodes[i].addrs[n := 0])];
      owner := owner - {b};
      assert Now() == Released(sb, t, i, n);
      OthersTrans(s, t, Now(), i);
    }

    /** The loop of itrunc() over the indirect block. */
    method ReleaseEntries(i: int, ghost s: State)
      requires Sound() && 0 <= i < |inodes| && |inodes[i].addrs| == NDIRECT + 1 && inodes[i].addrs[NDIRECT] != 0
      requires OthersSame(s, Now(), i) && Dropped(s.owner, owner, i)
      modifies this`blocks, this`owner
      ensures Owned(sb, Now(), Cut(i, NINDIRECT)) && Settled(Now()) && OthersSame(s, Now(), i) && Dropped(s.owner, owner, i)
    {
      hide Owned, AddrOf, OthersSame, Used;
      CutStart(sb, Now(), i);
      InodeAddr(Now(), i, NDIRECT);
      Addressed(sb, Now(), NO_CUT, Indirect(i));
      OwnedFits(sb, Now(), NO_CUT);
      var table := inodes[i].addrs[NDIRECT];
      var a := blocks[table];
      var j := 0;
      while j < NINDIRECT
        invariant 0 <= j <= NINDIRECT && 0 < table < |blocks| && blocks[table] == a
        invariant Owned(sb, Now(), Cut(i, j)) && Settled(Now()) && OthersSame(s, Now(), i) && Dropped(s.owner, owner, i)
      {
        OwnedFits(sb, Now(), Cut(i, j));
        InodeAddr(Now(), i, NDIRECT);
        ReleaseEntry(i, j, table, a, s);
        j := j + 1;
      }
    }

    /** itrunc() frees the block in one entry of the indirect block, if there is one. */
    method ReleaseEntry(i: int, j: int, table: int, a: Block, ghost s: State)
      requires 0 <= i < |inodes| && 0 <= j < NINDIRECT && Owned(sb, Now(), Cut(i, j)) && Settled(Now())
      requires AddrOf(Now(), Indirect(i)) == table && 0 < table < |blocks| && blocks[table] == a
      requires OthersSame(s, Now(), i) && Dropped(s.owner, owner, i)
      modifies this`blocks, this`owner
      ensures Owned(sb, Now(), Cut(i, j + 1)) && Settled(Now()) && OthersSame(s, Now(), i) && Dropped(s.owner, owner, i)
      ensures table < |blocks| && blocks[table] == a
    {
      hide Owned, AddrOf, OthersSame, Used, Word;
      ghost var t := Now();
      OwnedFits(sb, t, Cut(i, j));
      InodeAddr(t, i, NDIRECT);
      EntryWord(t, i, j);
      if Word(a, j) != 0 {
        EntryReleasedKeeps(sb, t, i, j);
        EntryReleasedOthers(sb, t, i, j);
        SlotOwned(sb, t, Cut(i, j), Entry(i, j), i);
        BitElsewhere(sb, t, i, j, Word(a, j));
        ghost var b := Word(a, j);
        Bfree(Word(a, j));
        owner := owner - {b};
        assert Now() == EntryReleased(sb, t, i, j);
        OthersTrans(s, t, Now(), i);
      } else {
        EntryEmpty(sb, t, i, j);
      }
    }

    /** readi(): the file's bytes from offset on, cut at its end. The destination takes the first `good` bytes;
        if that is not all, it has those and the call fails. Nothing is allocated. */
    method Readi(i: int, offset: int, count: int, good: nat) returns (r: int, dst: seq<int>)
      requires Valid() && 0 <= i < |inodes| && 0 <= offset < UINT && 0 <= count < UINT
      modifies this`blocks, this`inodes, this`owner
      ensures Valid() && Now() == old(Now()) && files == old(files) && AllRead(Now(), files)
      ensures var n := Readable(|files[i]|, offset, count);
        && r == (if n <= good then n else -1)
        && dst == if n == 0 then [] else files[i][offset..offset + if n <= good then n else good]
      ensures offset <= |files[i]| && offset + count < UINT && count <= good ==>
        && r == |dst| <= count && dst <= files[i][offset..]
        && (|dst| == count || offset + |dst| == |files[i]|)
      ensures offset > |files[i]| || offset + count >= UINT ==> r == 0 && dst == []
    {
      hide Owned, AddrOf, Piece, AllRead, Reads, Settled;
      ReadsFile(Now(), files, i);
      ghost var c := files[i];
      dst := [];
      if offset > inodes[i].size || (offset + count) % UINT < offset {
        return 0, dst;
      }
      var n := if offset + count > inodes[i].size then inodes[i].size - offset else count;
      var tot, off := 0, offset;
      while tot < n
        invariant 0 <= tot <= n && off == offset + tot && offset + n <= |c| && tot <= good
        invariant Sound() && Now() == old(Now()) && files == old(files)
        invariant dst == c[offset..off]
      {
        var m := Piece(n - tot, off);
        var chunk := ReadChunk(i, off, m, c);
        if tot + m > good {
          Joined(c, offset, off, good - tot);
          dst := dst + chunk[..good - tot];
          return -1, dst;
        }
        Joined(c, offset, off, m);
        dst := dst + chunk;
        tot, off := tot + m, off + m;
      }
      r := tot;
    }

    /** One round of readi(), inside one block. */
    method ReadChunk(i: int, off: int, m: int, ghost c: seq<int>) returns (chunk: seq<int>)
      requires Sound() && Reads(Now(), i, c) && 0 <= off && 0 < m && off + m <= |c| && off % BSIZE + m <= BSIZE
      modifies this`blocks, this`inodes, this`owner
      ensures Sound() && Now() == old(Now()) && chunk == c[off..off + m]
    {
      hide Owned, AddrOf;
      ChunkIn(Now(), i, c, off);
      OwnedFits(sb, Now(), NO_CUT);
      Addressed(sb, Now(), NO_CUT, SlotOf(i, off / BSIZE));
      var addr := Bmap(i, off / BSIZE);
      ChunkRead(Now(), i, c, off, m);
      chunk := blocks[addr][off % BSIZE..off % BSIZE + m];
    }

    /** writei(), or -1 where it would leave a hole or pass the largest file. The source yields its first `good`
        bytes; they are put at offset, and where that is not all of them the blocks before the one that could
        not be filled count as written, so the file ends there unless it was longer. No other file changes. */
    method Writei(i: int, offset: int, src: seq<Byte>, good: nat) returns (r: int)
      requires Valid() && 0 <= i < |inodes| && 0 <= offset < UINT && |src| < UINT
      modifies this
      ensures r == -1 <==> offset > |old(files)[i]| || offset + |src| > MAXFILE * BSIZE
      ensures r == -1 ==> Now() == old(Now()) && files == old(files)
      ensures r == OUT_OF_BLOCKS ==> Full(sb, Now())
      ensures r != -1 && r != OUT_OF_BLOCKS ==> r == WrittenCount(offset, |src|, good)
      ensures r != -1 && r != OUT_OF_BLOCKS ==> Valid() && files == old(files)[i := AfterWrite(old(files)[i], offset, src, good)]
    {
      hide Owned, AddrOf, OthersSame, AfterWrite, HoldsBytes, WrittenCount;
      ghost var c := files[i];
      if offset > inodes[i].size || (offset + |src|) % UINT < offset {
        return -1;
      }
      if offset + |src| > MAXFILE * BSIZE {
        return -1;
      }
      ghost var s := Now();
      OthersSelf(sb, s, i);
      ReadsHolds(s, i, c);
      var ok, tot := WriteBlocks(i, offset, src, good, c, s);
      if !ok {
        return OUT_OF_BLOCKS;
      }
      SizeSetKeeps(sb, Now(), s, i, if offset + tot > |c| then offset + tot else |c|);
      if offset + tot > inodes[i].size {
        inodes := inodes[i := inodes[i].(size := offset + tot)];
      }
      WrittenReads(Now(), i, c, offset, src, good);
      OneChanged(s, Now(), i, files, AfterWrite(c, offset, src, good));
      files := files[i := AfterWrite(c, offset, src, good)];
      r := tot;
    }

    /** The loop of writei(). */
    method WriteBlocks(i: int, offset: int, src: seq<Byte>, good: nat, ghost c: seq<int>, ghost s: State) returns (ok: bool, tot: int)
      requires Sound() && 0 <= i < |inodes| && HoldsBytes(Now(), i, c) && OthersSame(s, Now(), i)
      requires 0 <= offset <= |c| && offset + |src| <= MAXFILE * BSIZE
      modifies this`blocks, this`inodes, this`owner
      ensures !ok ==> Full(sb, Now())
      ensures ok ==> Sound() && OthersSame(s, Now(), i) && |inodes| == |old(inodes)| && inodes[i].size == old(inodes)[i].size
      ensures ok ==>
        tot == WrittenCount(offset, |src|, good) &&
          HoldsBytes(Now(), i, SwapFile.Overwrite(c, offset, src[..PutCount(|src|, good)]))
    {
      hide Owned, AddrOf, OthersSame, HoldsBytes, WrittenCount;
      SwapFile.OverwriteTwice(c, offset, src, 0, 0);
      tot := 0;
      ok := true;
      var off := offset;
      while tot < |src|
        invariant 0 <= tot <= |src| && tot <= good && off == offset + tot && 0 <= i < |inodes| == |old(inodes)|
        invariant inodes[i].size == old(inodes)[i].size && (tot == 0 || tot == |src| || off % BSIZE == 0)
        invariant Sound() && OthersSame(s, Now(), i)
        invariant HoldsBytes(Now(), i, SwapFile.Overwrite(c, offset, src[..tot]))
      {
        var m := Piece(|src| - tot, off);
        var n := if tot + m > good then good - tot else m;
        SwapFile.OverwriteTwice(c, offset, src, tot, tot + n);
        ok := WriteChunk(i, off, src[tot..tot + n], SwapFile.Overwrite(c, offset, src[..tot]), s);
        if !ok {
          return;
        }
        if n < m {
          ChunkCut(offset, |src|, good, tot, m);
          return;
        }
        tot, off := tot + m, off + m;
      }
      AllCounted(offset, |src|, good);
    }

    /** One round of writei(), inside one block. */
    method WriteChunk(i: int, off: int, chunk: seq<Byte>, ghost d: seq<int>, ghost s: State) returns (ok: bool)
      requires Sound() && 0 <= i < |inodes| && HoldsBytes(Now(), i, d) && OthersSame(s, Now(), i)
      requires 0 <= off <= |d| && off % BSIZE + |chunk| <= BSIZE && off < MAXFILE * BSIZE
      modifies this`blocks, this`inodes, this`owner
      ensures !ok ==> Full(sb, Now())
      ensures ok ==> Sound() && |inodes| == |old(inodes)| && inodes[i].size == old(inodes)[i].size
      ensures ok ==> HoldsBytes(Now(), i, SwapFile.Overwrite(d, off, chunk)) && OthersSame(s, Now(), i)
    {
      hide Owned, AddrOf, OthersSame, HoldsBytes;
      ghost var before := Now();
      var addr := Bmap(i, off / BSIZE);
      if addr == OUT_OF_BLOCKS {
        return false;
      }
      ghost var t := Now();
      FrameHolds(before, t, i, d);
      FrameOthers(before, t, Pending, i);
      OthersTrans(s, before, t, i);
      Addressed(sb, t, NO_CUT, SlotOf(i, off / BSIZE));
      var data := SwapFile.Overwrite(blocks[addr], off % BSIZE, chunk);
      DataSetKeeps(sb, t, addr, data);
      DataSetFrame(sb, t, addr, data);
      DataSetHolds(sb, t, i, off, chunk, d, data);
      blocks := blocks[addr := data];
      assert Now() == DataSet(t, addr, data);
      FrameOthers(t, Now(), SlotOf(i, off / BSIZE), i);
      OthersTrans(s, t, Now(), i);
      ok := true;
    }
  }

  /** How many bytes a read of `count` bytes at `offset` gives. */
  function Readable(size: int, offset: int, count: int): int
    requires 0 <= size && 0 <= offset && 0 <= count
  {
    if offset > size || offset + count >= UINT then 0
    else if offset + count > size then size - offset
    else count
  }

  /** How many bytes writei() says it has written: up to the block that the source could not fill. */
  function WrittenCount(offset: nat, n: nat, good: nat): (r: nat)
    ensures r <= n && r <= good
  {
    if good >= n then n
    else if (offset + good) / BSIZE * BSIZE <= offset then 0
    else (offset + good) / BSIZE * BSIZE - offset
  }

  /** How many bytes it has put into the file. */
  function PutCount(n: nat, good: nat): nat { if good < n then good else n }

  /** Bytes of a block that the source could not fill do not count, and all bytes before it do. */
  lemma CountedBlocks(offset: nat, n: nat, good: nat)
    requires good < n
    ensures var r := WrittenCount(offset, n, good);
      && (r > 0 ==> (offset + r) % BSIZE == 0) && offset + r <= offset + good
      && forall e: nat {:trigger e % BSIZE} :: offset < e <= offset + good && e % BSIZE == 0 ==> e <= offset + r
  {
    var end := (offset + good) / BSIZE * BSIZE;
    forall e: nat | offset < e <= offset + good && e % BSIZE == 0
      ensures e <= end
    {
      assert e == e / BSIZE * BSIZE && e / BSIZE <= (offset + good) / BSIZE;
    }
  }

  /** The file after writei(), byte by byte: what the source yielded is at its place, and the rest is as it was. */
  lemma WrittenBytes(c: seq<int>, offset: nat, src: seq<int>, good: nat, k: nat)
    requires offset <= |c|
    ensures var d, end := AfterWrite(c, offset, src, good), offset + WrittenCount(offset, |src|, good);
      && |d| == (if end > |c| then end else |c|)
      && (offset <= k < offset + |src| && k < offset + good && k < |d| ==> d[k] == src[k - offset])
      && (k < |d| && !(offset <= k < offset + |src| && k < offset + good) ==> k < |c| && d[k] == c[k])
  {
    var all := SwapFile.Overwrite(c, offset, src[..PutCount(|src|, good)]);
    var d := AfterWrite(c, offset, src, good);
    assert k < |d| ==> d[k] == all[k];
  }

  lemma AllCounted(offset: nat, n: nat, good: nat)
    requires n <= good
    ensures WrittenCount(offset, n, good) == n
  {
  }

  lemma ReadsHolds(s: State, i: int, c: seq<int>)
    requires Reads(s, i, c)
    ensures HoldsBytes(s, i, c) && |c| == s.inodes[i].size <= MAXFILE * BSIZE
  {
  }

  /** The file after writei(): all bytes the source yields are put, and the file ends where they count. */
  function AfterWrite(c: seq<int>, offset: nat, src: seq<int>, good: nat): (d: seq<int>)
    requires offset <= |c|
  {
    var end := offset + WrittenCount(offset, |src|, good);
    SwapFile.Overwrite(c, offset, src[..PutCount(|src|, good)])[..if end > |c| then end else |c|]
  }

  /** A source that yields everything is written whole. */
  lemma WholeWrite(c: seq<int>, offset: nat, src: seq<int>, good: nat)
    requires offset <= |c| && good >= |src|
    ensures WrittenCount(offset, |src|, good) == |src| && AfterWrite(c, offset, src, good) == SwapFile.Overwrite(c, offset, src)
  {
    assert src[..|src|] == src;
  }

  lemma ChunkCut(offset: nat, n: nat, good: nat, tot: nat, m: nat)
    requires tot < n && tot <= good < tot + m
    requires m == Piece(n - tot, offset + tot)
    requires tot == 0 || (offset + tot) % BSIZE == 0
    ensures good < n && WrittenCount(offset, n, good) == tot
  {
    assert (offset + good) / BSIZE == (offset + tot) / BSIZE;
  }

  /** What has been put reads as the file's new bytes, now that the size is set. */
  lemma WrittenReads(s: State, i: int, c: seq<int>, offset: nat, src: seq<int>, good: nat)
    requires 0 <= i < |s.inodes| && offset <= |c| <= MAXFILE * BSIZE && offset + |src| <= MAXFILE * BSIZE
    requires HoldsBytes(s, i, SwapFile.Overwrite(c, offset, src[..PutCount(|src|, good)]))
    requires var end := offset + WrittenCount(offset, |src|, good); s.inodes[i].size == if end > |c| then end else |c|
    ensures Reads(s, i, AfterWrite(c, offset, src, good))
  {
    hide AddrOf;
    var all, d := SwapFile.Overwrite(c, offset, src[..PutCount(|src|, good)]), AfterWrite(c, offset, src, good);
    forall k | 0 <= k < |d|
      ensures ByteOk(s, i, d, k)
    {
      assert ByteOk(s, i, all, k);
    }
  }

  /** No block has been handed out without being stored in a slot. */
  ghost predicate Settled(s: State) {
    forall b {:trigger s.owner[b]} :: b in s.owner ==> s.owner[b] != Pending
  }

  /** No block is free. */
  ghost predicate Full(sb: Super, s: State) {
    Fits(sb, s) && forall b {:trigger Used(sb, s, b)} :: 0 <= b < sb.size ==> Used(sb, s, b)
  }

  /** Each inode reads as its byte sequence. */
  ghost predicate AllRead(s: State, files: seq<seq<int>>) {
    |files| == |s.inodes| && forall k {:trigger files[k]} :: 0 <= k < |files| ==> Reads(s, k, files[k])
  }

  lemma ReadsFile(s: State, files: seq<seq<int>>, i: int)
    requires AllRead(s, files) && 0 <= i < |s.inodes|
    ensures |files| == |s.inodes| && Reads(s, i, files[i]) && |files[i]| == s.inodes[i].size
  {
  }

  /** One file reads as c now, and the others as before. */
  lemma OneChanged(s: State, t: State, i: int, files: seq<seq<int>>, c: seq<int>)
    requires AllRead(s, files) && OthersSame(s, t, i) && 0 <= i < |s.inodes| && Reads(t, i, c)
    ensures |files| == |s.inodes| && AllRead(t, files[i := c])
  {
    var now := files[i := c];
    forall k | 0 <= k < |now|
      ensures Reads(t, k, now[k])
    {
      if k != i {
        OthersRead(s, t, i, k, files[k]);
      }
    }
  }

  /** A data block is marked in the bitmap exactly when some slot names it, and then one slot does. */
  lemma MarkedOnce(sb: Super, s: State, b: int, x: Slot)
    requires Owned(sb, s, NO_CUT) && Settled(s) && sb.dataStart <= b < sb.size
    ensures Used(sb, s, b) ==> b in s.owner && AddrOf(s, s.owner[b]) == b
    ensures AddrOf(s, x) == b ==> Used(sb, s, b) && x == s.owner[b]
  {
    assert BitOk(sb, s, b) && OwnerOk(sb, s, NO_CUT, b) && SlotOk(s, NO_CUT, x);
  }

  lemma OwnedFits(sb: Super, s: State, cut: Cut)
    requires Owned(sb, s, cut)
    ensures Fits(sb, s) && forall i {:trigger s.inodes[i]} :: 0 <= i < |s.inodes| ==> |s.inodes[i].addrs| == NDIRECT + 1
  {
  }

  /** The bit balloc() looks at. */
  lemma UsedHere(sb: Super, s: State, b: int, bi: int, bits: Block)
    requires Fits(sb, s) && 0 <= b && b % BPB == 0 && 0 <= bi < BPB && b + bi < sb.size && bits == s.blocks[BitmapBlock(sb, b)]
    ensures BitmapBlock(sb, b + bi) == BitmapBlock(sb, b) && (Used(sb, s, b + bi) <==> Marked(bits, b + bi))
  {
  }

  lemma NoEntries(s: State, i: int, a: int)
    requires 0 < a < |s.blocks| && s.blocks[a] == Zeros() && AddrOf(s, Indirect(i)) == a
    ensures forall k {:trigger Entry(i, k)} :: 0 <= k < NINDIRECT ==> AddrOf(s, Entry(i, k)) == 0
  {
    forall k | 0 <= k < NINDIRECT
      ensures AddrOf(s, Entry(i, k)) == 0
    {
      ZeroEntries(k);
    }
  }

  lemma IndirectFacts(s: State, i: int)
    requires 0 <= i < |s.inodes| && |s.inodes[i].addrs| == NDIRECT + 1
    ensures AddrOf(s, Indirect(i)) == s.inodes[i].addrs[NDIRECT]
  {
  }

  lemma TableNotNew(sb: Super, t: State, i: int, b: int)
    requires Owned(sb, t, NO_CUT) && AddrOf(t, Indirect(i)) != 0 && b in t.owner && t.owner[b] == Pending
    ensures AddrOf(t, Indirect(i)) != b && 0 < AddrOf(t, Indirect(i)) < |t.blocks|
  {
    Addressed(sb, t, NO_CUT, Indirect(i));
  }

  /** The bytes d lie in the blocks of inode i, whatever its size says. */
  ghost predicate HoldsBytes(s: State, i: int, d: seq<int>) {
    forall k {:trigger ByteOk(s, i, d, k)} :: 0 <= k < |d| ==> ByteOk(s, i, d, k)
  }

  lemma ChunkIn(s: State, i: int, c: seq<int>, off: int)
    requires Reads(s, i, c) && 0 <= off < |c|
    ensures AddrOf(s, SlotOf(i, off / BSIZE)) != 0 && off / BSIZE < MAXFILE
  {
    assert ByteOk(s, i, c, off);
  }

  lemma Joined(c: seq<int>, a: int, b: int, m: int)
    requires 0 <= a <= b && 0 <= m && b + m <= |c|
    ensures c[a..b + m] == c[a..b] + c[b..b + m]
  {
  }

  lemma ChunkRead(s: State, i: int, c: seq<int>, off: int, m: int)
    requires Reads(s, i, c) && 0 <= off && 0 < m && off + m <= |c| && off % BSIZE + m <= BSIZE
    requires 0 < AddrOf(s, SlotOf(i, off / BSIZE)) < |s.blocks|
    ensures s.blocks[AddrOf(s, SlotOf(i, off / BSIZE))][off % BSIZE..off % BSIZE + m] == c[off..off + m]
  {
    var b := s.blocks[AddrOf(s, SlotOf(i, off / BSIZE))];
    var x, y := b[off % BSIZE..off % BSIZE + m], c[off..off + m];
    forall j | 0 <= j < m
      ensures x[j] == y[j]
    {
      assert (off + j) / BSIZE == off / BSIZE && (off + j) % BSIZE == off % BSIZE + j;
      assert ByteOk(s, i, c, off + j);
    }
  }

  lemma FrameHolds(s: State, t: State, i: int, d: seq<int>)
    requires Frame(s, t, Pending) && HoldsBytes(s, i, d)
    ensures HoldsBytes(t, i, d)
  {
    forall k | 0 <= k < |d|
      ensures ByteOk(t, i, d, k)
    {
      assert ByteOk(s, i, d, k);
      FrameByte(s, t, Pending, i, k);
    }
  }

  lemma FrameOthers(s: State, t: State, but: Slot, i: int)
    requires Frame(s, t, but) && (but.Pending? || but.inum == i)
    ensures OthersSame(s, t, i)
  {
    forall slot: Slot | slot.Pending? || slot.inum != i
      ensures FrameOk(s, t, slot)
    {
      assert slot != but ==> FrameOk(s, t, slot);
    }
  }

  lemma OthersSelf(sb: Super, s: State, i: int)
    requires Owned(sb, s, NO_CUT)
    ensures OthersSame(s, s, i)
  {
    FrameSelf(sb, s, Pending);
    FrameOthers(s, s, Pending, i);
  }

  /** A chunk put into its block puts it into the file. */
  lemma DataSetHolds(sb: Super, t: State, i: int, off: int, chunk: seq<int>, d: seq<int>, data: Block)
    requires Owned(sb, t, NO_CUT) && HoldsBytes(t, i, d) && 0 <= off <= |d| && off % BSIZE + |chunk| <= BSIZE
    requires var a := AddrOf(t, SlotOf(i, off / BSIZE));
      0 < a < |t.blocks| && a in t.owner && data == SwapFile.Overwrite(t.blocks[a], off % BSIZE, chunk)
    ensures HoldsBytes(DataSet(t, AddrOf(t, SlotOf(i, off / BSIZE)), data), i, SwapFile.Overwrite(d, off, chunk))
  {
    var slot := SlotOf(i, off / BSIZE);
    var a := AddrOf(t, slot);
    Addressed(sb, t, NO_CUT, slot);
    var u, e := DataSet(t, a, data), SwapFile.Overwrite(d, off, chunk);
    DataSetFrame(sb, t, a, data);
    DataSetAddr(sb, t, a, data, slot);
    forall k | 0 <= k < |e|
      ensures ByteOk(u, i, e, k)
    {
      ChunkByte(off, |chunk|, k);
      if k / BSIZE == off / BSIZE {
        if !(off <= k < off + |chunk|) {
          assert ByteOk(t, i, d, k);
        }
      } else {
        assert ByteOk(t, i, d, k);
        FrameByte(t, u, slot, i, k);
      }
    }
  }

  lemma ChunkByte(off: int, n: int, k: int)
    requires 0 <= off && 0 <= n && off % BSIZE + n <= BSIZE && 0 <= k
    ensures off <= k < off + n ==> k / BSIZE == off / BSIZE && k % BSIZE == off % BSIZE + (k - off)
    ensures k / BSIZE == off / BSIZE && !(off <= k < off + n) ==> !(off % BSIZE <= k % BSIZE < off % BSIZE + n)
  {
  }

  function SizeSet(s: State, i: int, size: nat): State
    requires 0 <= i < |s.inodes|
  {
    s.(inodes := s.inodes[i := s.inodes[i].(size := size)])
  }

  /** A new size changes no block and no byte of a file. */
  lemma SizeSetKeeps(sb: Super, t: State, s: State, i: int, size: nat)
    requires Owned(sb, t, NO_CUT) && OthersSame(s, t, i) && 0 <= i < |t.inodes|
    ensures Owned(sb, SizeSet(t, i, size), NO_CUT) && OthersSame(s, SizeSet(t, i, size), i)
    ensures forall d: seq<int> {:trigger HoldsBytes(t, i, d)} :: HoldsBytes(t, i, d) ==> HoldsBytes(SizeSet(t, i, size), i, d)
  {
    var u := SizeSet(t, i, size);
    forall slot
      ensures AddrOf(u, slot) == AddrOf(t, slot) && SlotOk(u, NO_CUT, slot)
    {
      assert SlotOk(t, NO_CUT, slot);
    }
    forall b
      ensures OwnerOk(sb, u, NO_CUT, b) && BitOk(sb, u, b)
    {
      assert OwnerOk(sb, t, NO_CUT, b) && BitOk(sb, t, b);
    }
    forall slot: Slot | slot.Pending? || slot.inum != i
      ensures FrameOk(s, u, slot)
    {
      assert FrameOk(s, t, slot);
    }
    forall d: seq<int> | HoldsBytes(t, i, d)
      ensures HoldsBytes(u, i, d)
    {
      forall k | 0 <= k < |d|
        ensures ByteOk(u, i, d, k)
      {
        assert ByteOk(t, i, d, k);
      }
    }
  }

  predicate Belongs(slot: Slot, i: int) {
    !slot.Pending? && slot.inum == i
  }

  /** Only blocks of inode i have lost their owner. */
  ghost predicate Dropped(o: map<int, Slot>, o': map<int, Slot>, i: int) {
    && (forall b {:trigger b in o'} :: b in o' ==> b in o)
    && (forall b {:trigger o'[b]} :: b in o' && b in o ==> o'[b] == o[b])
    && (forall b {:trigger o[b]} :: b in o && !Belongs(o[b], i) ==> b in o')
  }

  lemma SlotOwned(sb: Super, t: State, cut: Cut, slot: Slot, i: int)
    requires Owned(sb, t, cut) && AddrOf(t, slot) != 0 && Live(cut, slot) && Belongs(slot, i)
    ensures AddrOf(t, slot) in t.owner && Belongs(t.owner[AddrOf(t, slot)], i)
  {
    Addressed(sb, t, cut, slot);
  }

  lemma InodeAddr(t: State, i: int, n: int)
    requires 0 <= i < |t.inodes| && 0 <= n <= NDIRECT && |t.inodes[i].addrs| == NDIRECT + 1
    ensures AddrOf(t, InodeSlot(i, n)) == t.inodes[i].addrs[n]
  {
  }

  lemma EntryWord(t: State, i: int, j: int)
    requires 0 <= i < |t.inodes| && |t.inodes[i].addrs| == NDIRECT + 1 && 0 <= j < NINDIRECT
    requires var a := t.inodes[i].addrs[NDIRECT]; 0 < a < |t.blocks|
    ensures AddrOf(t, Entry(i, j)) == Word(t.blocks[t.inodes[i].addrs[NDIRECT]], j)
  {
  }

  /** The bitmap is not the indirect block. */
  lemma BitElsewhere(sb: Super, t: State, i: int, j: int, b: int)
    requires Owned(sb, t, Cut(i, j)) && 0 <= b < sb.size && Used(sb, t, b) && 0 <= i < |t.inodes| && AddrOf(t, Indirect(i)) != 0
    ensures var m, a := BitmapBlock(sb, b), AddrOf(t, Indirect(i));
      m != a && 0 < a < |t.blocks| && BitChanged(sb, t, b, false).blocks[a] == t.blocks[a]
    ensures AddrOf(t, Indirect(i)) == t.inodes[i].addrs[NDIRECT]
  {
    Addressed(sb, t, Cut(i, j), Indirect(i));
  }

  /** An inode with all slots empty owns nothing. */
  lemma NothingLeft(sb: Super, t: State, i: int)
    requires Owned(sb, t, NO_CUT) && Settled(t) && 0 <= i < |t.inodes| && forall n :: 0 <= n <= NDIRECT ==> t.inodes[i].addrs[n] == 0
    ensures forall b {:trigger t.owner[b]} :: b in t.owner ==> !Belongs(t.owner[b], i)
  {
    forall b | b in t.owner
      ensures !Belongs(t.owner[b], i)
    {
      assert OwnerOk(sb, t, NO_CUT, b);
    }
  }

  /** A read of more bytes than a small file has, as cat makes it: it gets the whole file. */
  method ReadWhole(fs: FileSystem, i: int, count: nat) returns (r: int, dst: seq<int>)
    requires fs.Valid() && 0 <= i < |fs.inodes| && |fs.files[i]| <= count < UINT
    modifies fs`blocks, fs`inodes, fs`owner
    ensures fs.Valid() && i < |fs.files| && fs.files == old(fs.files) && dst == fs.files[i] && r == |dst|
  {
    r, dst := fs.Readi(i, 0, count, count);
    assert dst == fs.files[i];
  }

  /** What is written at an offset is read back from it, followed by what was behind it: the read gives the longest
      part of the file from there that it has room for. */
  method WriteThenRead(fs: FileSystem, i: int, offset: nat, src: seq<Byte>, count: nat) returns (w: int, r: int, dst: seq<int>)
    requires fs.Valid() && 0 <= i < |fs.inodes| && i < |fs.files| && offset <= |fs.files[i]|
    requires offset + |src| <= MAXFILE * BSIZE && count < UINT - offset
    modifies fs
    ensures w == OUT_OF_BLOCKS ==> Full(fs.sb, fs.Now())
    ensures w != OUT_OF_BLOCKS ==>
      && fs.Valid() && w == |src| && i < |fs.files|
      && r == |dst| && offset + r <= |fs.files[i]| && dst == fs.files[i][offset..offset + r]
      && (r == count || (r < count && offset + r == |fs.files[i]|))
      && (forall k :: 0 <= k < r && k < |src| ==> dst[k] == src[k])
      && (forall k :: |src| <= k < r ==> offset + k < |old(fs.files[i])| && dst[k] == old(fs.files[i])[offset + k])
  {
    ghost var c := fs.files[i];
    w := fs.Writei(i, offset, src, |src|);
    if w == OUT_OF_BLOCKS {
      return w, 0, [];
    }
    WholeWrite(c, offset, src, |src|);
    r, dst := fs.Readi(i, offset, count, count);
  }
}
