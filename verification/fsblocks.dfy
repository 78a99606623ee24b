/** File contents in blocks (fs.c): the bitmap, direct and indirect block maps, and who owns each block. */
module FileBlocks {
  import opened Bits
  import opened Sizes

  const BPB := 8192
  const UINT := 0x1_0000_0000

  type Byte = x: int | 0 <= x < 256

  type Block = b: seq<Byte> | |b| == BSIZE witness seq(1024, _ => 0)

  function Zeros(): Block { seq(BSIZE, _ => 0) }

  /** The in-memory inode: twelve direct block numbers, the indirect one, and the size. */
  datatype Inode = Inode(addrs: seq<int>, size: nat)

  /** What can hold a block number. `Pending` is a block balloc() has handed out that is not stored yet. */
  datatype Slot = Direct(inum: int, n: int) | Indirect(inum: int) | Entry(inum: int, n: int) | Pending

  datatype State = State(blocks: seq<Block>, inodes: seq<Inode>, owner: map<int, Slot>)

  /** The superblock: blocks below dataStart hold the log, the inodes and the bitmap. */
  datatype Super = Super(size: int, bmapStart: int, dataStart: int)

  /** While itrunc() runs, the entries below `upto` of an inode's indirect block are stale. */
  datatype Cut = Cut(inum: int, upto: int)

  const NO_CUT := Cut(-1, 0)

  // ---- Words of a block ----

  /** Word j of a block, least significant byte first. */
  function Word(b: Block, j: int): (w: int)
    requires 0 <= j < NINDIRECT
    ensures 0 <= w < UINT
  {
    var b0: int, b1: int, b2: int, b3: int := b[4 * j], b[4 * j + 1], b[4 * j + 2], b[4 * j + 3];
    b0 + 256 * b1 + 65536 * b2 + 16777216 * b3
  }

  function PutWord(b: Block, j: int, w: int): Block
    requires 0 <= j < NINDIRECT && 0 <= w < UINT
  {
    b[4 * j := w % 256][4 * j + 1 := w / 256 % 256][4 * j + 2 := w / 65536 % 256][4 * j + 3 := w / 16777216]
  }

  lemma WordPut(b: Block, j: int, w: int, k: int)
    requires 0 <= j < NINDIRECT && 0 <= w < UINT && 0 <= k < NINDIRECT
    ensures Word(PutWord(b, j, w), k) == if k == j then w else Word(b, k)
  {
    FourBytes(w);
  }

  /** Block numbers lie on the disk one after the other, four bytes each, the least significant byte first. */
  lemma WordBytes(b: Block, j: int)
    requires 0 <= j < NINDIRECT
    ensures var w := Word(b, j);
      && w % 256 == b[4 * j] && w / 256 % 256 == b[4 * j + 1]
      && w / 65536 % 256 == b[4 * j + 2] && w / 16777216 == b[4 * j + 3]
  {
    var b0: int, b1: int, b2: int, b3: int := b[4 * j], b[4 * j + 1], b[4 * j + 2], b[4 * j + 3];
    var w := Word(b, j);
    var w1, w2 := b1 + 256 * (b2 + 256 * b3), b2 + 256 * b3;
    assert w == b0 + 256 * w1 && w1 == b1 + 256 * w2;
    FourBytes(w);
    assert w / 256 == w1 && w1 / 256 == w2;
    assert w / 65536 == w2;
  }

  lemma FourBytes(w: int)
    requires 0 <= w < UINT
    ensures w == w % 256 + 256 * (w / 256 % 256) + 65536 * (w / 65536 % 256) + 16777216 * (w / 16777216)
  {
    var w1 := w / 256;
    var w2 := w1 / 256;
    assert w / 65536 == w2 && w / 16777216 == w2 / 256;
  }

  // ---- The bitmap ----

  function BitmapBlock(sb: Super, b: int): int { b / BPB + sb.bmapStart }

  predicate Fits(sb: Super, s: State) {
    && 0 < sb.bmapStart && 0 < sb.dataStart <= sb.size <= |s.blocks| && sb.size <= UINT
    && sb.bmapStart + (sb.size - 1) / BPB < sb.dataStart
  }

  /** The bit of block b in its bitmap block. */
  predicate Marked(bits: Block, b: int)
    requires 0 <= b
  {
    Bit(bits[b % BPB / 8], b % 8)
  }

  /** The bitmap block with that bit changed. */
  function Mark(bits: Block, b: int, on: bool): (m: Block)
    requires 0 <= b && Marked(bits, b) != on
  {
    var x := bits[b % BPB / 8];
    MarkInByte(x, b % 8);
    bits[b % BPB / 8 := if on then x + Pow2(b % 8) else x - Pow2(b % 8)]
  }

  lemma MarkInByte(x: Byte, m: nat)
    requires m < 8
    ensures !Bit(x, m) ==> x + Pow2(m) < 256
    ensures Bit(x, m) ==> x >= Pow2(m)
  {
    assert Pow2(4) == 16 && Pow2(8) == 256;
    if !Bit(x, m) {
      SetBitBelow(x, m, 8);
    } else {
      ClearBit(x, m);
    }
  }

  /** Marking changes one bit. */
  lemma MarkOne(bits: Block, b: int, on: bool, c: int)
    requires 0 <= b && 0 <= c && b / BPB == c / BPB && Marked(bits, b) != on
    ensures Marked(Mark(bits, b, on), c) == if c == b then on else Marked(bits, c)
  {
    hide Bit;
    var x := bits[b % BPB / 8];
    SameByteBit(b, c);
    MarkInByte(x, b % 8);
    if on {
      SetBit(x, b % 8, c % 8);
    } else {
      ClearBit(x, b % 8);
      SetBit(x - Pow2(b % 8), b % 8, c % 8);
    }
  }

  lemma SameByteBit(b: int, c: int)
    requires b / BPB == c / BPB
    ensures b % BPB / 8 == c % BPB / 8 && b % 8 == c % 8 ==> b == c
  {
    BlockByteBit(b);
    BlockByteBit(c);
  }

  lemma BlockByteBit(b: int)
    ensures b == b / BPB * BPB + b % BPB / 8 * 8 + b % 8
  {
    var q, r := b / BPB, b % BPB;
    var e, m := r / 8, r % 8;
    assert b == 8 * (1024 * q + e) + m;
    assert b % 8 == m;
  }

  predicate Used(sb: Super, s: State, b: int)
    requires Fits(sb, s) && 0 <= b < sb.size
  {
    Marked(s.blocks[BitmapBlock(sb, b)], b)
  }

  /** The bitmap on the disk: bit m of byte k of its block number q is for block 8192 q + 8 k + m. */
  lemma BitmapLayout(sb: Super, s: State, q: nat, k: nat, m: nat)
    requires k < BSIZE && m < 8 && Fits(sb, s) && 8192 * q + 8 * k + m < sb.size
    ensures sb.bmapStart + q < |s.blocks|
    ensures Used(sb, s, 8192 * q + 8 * k + m) <==> s.blocks[sb.bmapStart + q][k] / Pow2(m) % 2 == 1
  {
    BitPlace(q, k, m);
  }

  lemma BitPlace(q: nat, k: nat, m: nat)
    requires k < BSIZE && m < 8
    ensures var b := 8192 * q + 8 * k + m; b / BPB == q && b % BPB / 8 == k && b % 8 == m
  {
    var b := 8192 * q + 8 * k + m;
    assert b == BPB * q + (8 * k + m) && 0 <= 8 * k + m < BPB;
    assert b == 8 * (1024 * q + k) + m;
  }

  // ---- Where the blocks of a file are ----

  function SlotOf(i: int, bn: int): Slot {
    if bn < NDIRECT then Direct(i, bn) else Entry(i, bn - NDIRECT)
  }

  /** The block number in a slot, 0 if there is none. */
  function AddrOf(s: State, slot: Slot): int {
    match slot
    case Direct(i, n) => if 0 <= i < |s.inodes| && 0 <= n < NDIRECT && n < |s.inodes[i].addrs| then s.inodes[i].addrs[n] else 0
    case Indirect(i) => if 0 <= i < |s.inodes| && |s.inodes[i].addrs| == NDIRECT + 1 then s.inodes[i].addrs[NDIRECT] else 0
    case Entry(i, n) =>
      var a := if 0 <= i < |s.inodes| && |s.inodes[i].addrs| == NDIRECT + 1 then s.inodes[i].addrs[NDIRECT] else 0;
      if 0 < a < |s.blocks| && 0 <= n < NINDIRECT then Word(s.blocks[a], n) else 0
    case Pending => 0
  }

  predicate Live(cut: Cut, slot: Slot) {
    !(slot.Entry? && slot.inum == cut.inum && slot.n < cut.upto)
  }

  /** A block number in a slot names a block owned by that slot. */
  predicate SlotOk(s: State, cut: Cut, slot: Slot) {
    Live(cut, slot) && AddrOf(s, slot) != 0 ==> AddrOf(s, slot) in s.owner && s.owner[AddrOf(s, slot)] == slot
  }

  /** An owned block is a data block and its owner names it. */
  predicate OwnerOk(sb: Super, s: State, cut: Cut, b: int) {
    b in s.owner ==> sb.dataStart <= b < sb.size && (s.owner[b] == Pending || (Live(cut, s.owner[b]) && AddrOf(s, s.owner[b]) == b))
  }

  /** The bitmap marks the reserved blocks and the owned blocks. */
  predicate BitOk(sb: Super, s: State, b: int)
    requires Fits(sb, s)
  {
    0 <= b < sb.size ==> (Used(sb, s, b) <==> b < sb.dataStart || b in s.owner)
  }

  /** Every marked data block is owned by exactly one slot, and every block number in a slot is a marked
      data block. */
  ghost predicate Owned(sb: Super, s: State, cut: Cut) {
    && Fits(sb, s)
    && (forall i {:trigger s.inodes[i]} :: 0 <= i < |s.inodes| ==> |s.inodes[i].addrs| == NDIRECT + 1)
    && (forall slot {:trigger SlotOk(s, cut, slot)} :: SlotOk(s, cut, slot))
    && (forall b {:trigger OwnerOk(sb, s, cut, b)} :: OwnerOk(sb, s, cut, b))
    && (forall b {:trigger BitOk(sb, s, b)} :: BitOk(sb, s, b))
  }

  /** Byte k of inode i. */
  function ByteAt(s: State, i: int, k: int): int {
    var a := AddrOf(s, SlotOf(i, k / BSIZE));
    if 0 < a < |s.blocks| then s.blocks[a][k % BSIZE] else -1
  }

  lemma Addressed(sb: Super, s: State, cut: Cut, slot: Slot)
    requires Owned(sb, s, cut) && Live(cut, slot) && AddrOf(s, slot) != 0
    ensures var a := AddrOf(s, slot); sb.dataStart <= a < sb.size && a in s.owner && s.owner[a] == slot && Used(sb, s, a)
  {
    assert SlotOk(s, cut, slot);
    assert OwnerOk(sb, s, cut, AddrOf(s, slot)) && BitOk(sb, s, AddrOf(s, slot));
  }

  // ---- Changes ----

  /** The disk with the bit of block b changed. */
  function BitChanged(sb: Super, s: State, b: int, on: bool): State
    requires Fits(sb, s) && 0 <= b < sb.size && Used(sb, s, b) != on
  {
    var m := BitmapBlock(sb, b);
    s.(blocks := s.blocks[m := Mark(s.blocks[m], b, on)])
  }

  lemma BitChangedUsed(sb: Super, s: State, b: int, on: bool, c: int)
    requires Fits(sb, s) && 0 <= b < sb.size && Used(sb, s, b) != on && 0 <= c < sb.size
    ensures Fits(sb, BitChanged(sb, s, b, on))
    ensures Used(sb, BitChanged(sb, s, b, on), c) == if c == b then on else Used(sb, s, c)
  {
    if c / BPB == b / BPB {
      MarkOne(s.blocks[BitmapBlock(sb, b)], b, on, c);
    }
  }

  /** balloc(): b marked, zeroed and handed out. */
  function Allocated(sb: Super, s: State, b: int): State
    requires Fits(sb, s) && 0 <= b < sb.size && !Used(sb, s, b)
  {
    var t := BitChanged(sb, s, b, true);
    t.(blocks := t.blocks[b := Zeros()], owner := s.owner[b := Pending])
  }

  lemma AllocatedAddr(sb: Super, s: State, cut: Cut, b: int, slot: Slot)
    requires Owned(sb, s, cut) && 0 <= b < sb.size && !Used(sb, s, b)
    ensures AddrOf(Allocated(sb, s, b), slot) == AddrOf(s, slot)
  {
    assert BitOk(sb, s, b);
    if slot.Entry? && AddrOf(s, Indirect(slot.inum)) != 0 {
      Addressed(sb, s, cut, Indirect(slot.inum));
    }
  }

  lemma AllocatedKeeps(sb: Super, s: State, cut: Cut, b: int)
    requires Owned(sb, s, cut) && 0 <= b < sb.size && !Used(sb, s, b)
    ensures Owned(sb, Allocated(sb, s, b), cut) && sb.dataStart <= b && b !in s.owner
  {
    var t := Allocated(sb, s, b);
    assert BitOk(sb, s, b);
    forall slot
      ensures SlotOk(t, cut, slot)
    {
      AllocatedAddr(sb, s, cut, b, slot);
      assert SlotOk(s, cut, slot);
    }
    forall c
      ensures OwnerOk(sb, t, cut, c)
    {
      assert OwnerOk(sb, s, cut, c);
      if c in s.owner {
        AllocatedAddr(sb, s, cut, b, s.owner[c]);
      }
    }
    forall c
      ensures BitOk(sb, t, c)
    {
      assert BitOk(sb, s, c);
      if 0 <= c < sb.size {
        BitChangedUsed(sb, s, b, true, c);
      }
    }
  }

  /** Block number b stored in slot n of inode i. */
  function AddrSet(s: State, i: int, n: int, b: int): State
    requires 0 <= i < |s.inodes| && 0 <= n <= NDIRECT && |s.inodes[i].addrs| == NDIRECT + 1
  {
    s.(inodes := s.inodes[i := s.inodes[i].(addrs := s.inodes[i].addrs[n := b])])
  }

  function InodeSlot(i: int, n: int): Slot { if n < NDIRECT then Direct(i, n) else Indirect(i) }

  lemma AddrSetElsewhere(s: State, i: int, n: int, b: int, slot: Slot)
    requires 0 <= i < |s.inodes| && 0 <= n <= NDIRECT && |s.inodes[i].addrs| == NDIRECT + 1
    ensures slot != InodeSlot(i, n) && !(n == NDIRECT && slot.Entry? && slot.inum == i) ==>
      AddrOf(AddrSet(s, i, n, b), slot) == AddrOf(s, slot)
    ensures AddrOf(AddrSet(s, i, n, b), InodeSlot(i, n)) == b
  {
  }

  /** A block just handed out becomes the one an empty inode slot names. */
  function Attached(s: State, i: int, n: int, b: int): State
    requires 0 <= i < |s.inodes| && 0 <= n <= NDIRECT && |s.inodes[i].addrs| == NDIRECT + 1
  {
    AddrSet(s, i, n, b).(owner := s.owner[b := InodeSlot(i, n)])
  }

  /** A zeroed block holds no block numbers. */
  lemma ZeroEntries(n: int)
    requires 0 <= n < NINDIRECT
    ensures Word(Zeros(), n) == 0
  {
  }

  lemma AttachedAddr(sb: Super, s: State, i: int, n: int, b: int, slot: Slot)
    requires Owned(sb, s, NO_CUT) && 0 <= i < |s.inodes| && 0 <= n <= NDIRECT && b in s.owner && s.owner[b] == Pending
    requires |s.inodes[i].addrs| == NDIRECT + 1 && AddrOf(s, InodeSlot(i, n)) == 0 &&
      (n == NDIRECT ==> 0 < b < |s.blocks| && s.blocks[b] == Zeros())
    ensures AddrOf(Attached(s, i, n, b), slot) == if slot == InodeSlot(i, n) then b else AddrOf(s, slot)
  {
    AddrSetElsewhere(s, i, n, b, slot);
    if n == NDIRECT && slot.Entry? && slot.inum == i && 0 <= slot.n < NINDIRECT {
      ZeroEntries(slot.n);
    }
  }

  lemma AttachedKeeps(sb: Super, s: State, i: int, n: int, b: int)
    requires Owned(sb, s, NO_CUT) && 0 <= i < |s.inodes| && 0 <= n <= NDIRECT && b in s.owner && s.owner[b] == Pending
    requires |s.inodes[i].addrs| == NDIRECT + 1 && AddrOf(s, InodeSlot(i, n)) == 0 &&
      (n == NDIRECT ==> 0 < b < |s.blocks| && s.blocks[b] == Zeros())
    ensures Owned(sb, Attached(s, i, n, b), NO_CUT)
  {
    var t := Attached(s, i, n, b);
    assert OwnerOk(sb, s, NO_CUT, b);
    forall slot
      ensures SlotOk(t, NO_CUT, slot)
    {
      AttachedAddr(sb, s, i, n, b, slot);
      assert SlotOk(s, NO_CUT, slot);
    }
    forall c
      ensures OwnerOk(sb, t, NO_CUT, c)
    {
      assert OwnerOk(sb, s, NO_CUT, c);
      if c in s.owner {
        AttachedAddr(sb, s, i, n, b, if c == b then InodeSlot(i, n) else s.owner[c]);
      }
    }
    forall c
      ensures BitOk(sb, t, c)
    {
      assert BitOk(sb, s, c);
    }
  }

  /** Block number b stored in entry n of the indirect block of inode i. */
  function EntrySet(s: State, i: int, n: int, b: int): State
    requires 0 < AddrOf(s, Indirect(i)) < |s.blocks| && 0 <= n < NINDIRECT && 0 <= b < UINT
  {
    var a := AddrOf(s, Indirect(i));
    s.(blocks := s.blocks[a := PutWord(s.blocks[a], n, b)], owner := s.owner[b := Entry(i, n)])
  }

  lemma EntrySetAddr(sb: Super, s: State, i: int, n: int, b: int, slot: Slot)
    requires Owned(sb, s, NO_CUT) && 0 < AddrOf(s, Indirect(i)) < |s.blocks| && 0 <= n < NINDIRECT && 0 <= b < UINT
    ensures AddrOf(EntrySet(s, i, n, b), slot) == if slot == Entry(i, n) then b else AddrOf(s, slot)
  {
    var a := AddrOf(s, Indirect(i));
    assert SlotOk(s, NO_CUT, Indirect(i));
    if slot.Entry? {
      assert SlotOk(s, NO_CUT, Indirect(slot.inum));
      if 0 <= slot.n < NINDIRECT {
        WordPut(s.blocks[a], n, b, slot.n);
      }
    }
  }

  lemma EntrySetKeeps(sb: Super, s: State, i: int, n: int, b: int)
    requires Owned(sb, s, NO_CUT) && 0 < AddrOf(s, Indirect(i)) < |s.blocks| && 0 <= n < NINDIRECT && 0 <= b < UINT
    requires AddrOf(s, Entry(i, n)) == 0 && b in s.owner && s.owner[b] == Pending
    ensures Owned(sb, EntrySet(s, i, n, b), NO_CUT)
  {
    var t := EntrySet(s, i, n, b);
    assert OwnerOk(sb, s, NO_CUT, b);
    Addressed(sb, s, NO_CUT, Indirect(i));
    forall slot
      ensures SlotOk(t, NO_CUT, slot)
    {
      EntrySetAddr(sb, s, i, n, b, slot);
      assert SlotOk(s, NO_CUT, slot);
    }
    forall c
      ensures OwnerOk(sb, t, NO_CUT, c)
    {
      assert OwnerOk(sb, s, NO_CUT, c);
      if c in s.owner {
        EntrySetAddr(sb, s, i, n, b, if c == b then Entry(i, n) else s.owner[c]);
      }
    }
    forall c
      ensures BitOk(sb, t, c)
    {
      assert BitOk(sb, s, c);
    }
  }

  /** New contents for a block of file data. */
  function DataSet(s: State, b: int, data: Block): State
    requires 0 <= b < |s.blocks|
  {
    s.(blocks := s.blocks[b := data])
  }

  lemma DataSetAddr(sb: Super, s: State, b: int, data: Block, slot: Slot)
    requires Owned(sb, s, NO_CUT) && b in s.owner && !s.owner[b].Indirect? && sb.dataStart <= b < sb.size
    ensures AddrOf(DataSet(s, b, data), slot) == AddrOf(s, slot)
  {
    if slot.Entry? {
      assert SlotOk(s, NO_CUT, Indirect(slot.inum));
    }
  }

  lemma DataSetKeeps(sb: Super, s: State, b: int, data: Block)
    requires Owned(sb, s, NO_CUT) && b in s.owner && !s.owner[b].Indirect?
    ensures sb.dataStart <= b < sb.size && Owned(sb, DataSet(s, b, data), NO_CUT)
  {
    assert OwnerOk(sb, s, NO_CUT, b);
    var t := DataSet(s, b, data);
    forall slot
      ensures SlotOk(t, NO_CUT, slot)
    {
      DataSetAddr(sb, s, b, data, slot);
      assert SlotOk(s, NO_CUT, slot);
    }
    forall c
      ensures OwnerOk(sb, t, NO_CUT, c)
    {
      assert OwnerOk(sb, s, NO_CUT, c);
      if c in s.owner {
        DataSetAddr(sb, s, b, data, s.owner[c]);
      }
    }
    forall c
      ensures BitOk(sb, t, c)
    {
      assert BitOk(sb, s, c);
    }
  }

  // ---- Truncation ----

  /** bfree() of the block in an inode slot, and the slot cleared. */
  function Released(sb: Super, s: State, i: int, n: int): State
    requires Fits(sb, s) && 0 <= i < |s.inodes| && 0 <= n <= NDIRECT && |s.inodes[i].addrs| == NDIRECT + 1
    requires var b := s.inodes[i].addrs[n]; 0 <= b < sb.size && Used(sb, s, b)
  {
    var b := s.inodes[i].addrs[n];
    var t := AddrSet(BitChanged(sb, s, b, false), i, n, 0);
    t.(owner := s.owner - {b})
  }

  /** bfree() of the block in entry n of the indirect block; the entry itself stays, stale. */
  function EntryReleased(sb: Super, s: State, i: int, n: int): State
    requires Fits(sb, s) && 0 <= AddrOf(s, Entry(i, n)) < sb.size && Used(sb, s, AddrOf(s, Entry(i, n)))
  {
    var b := AddrOf(s, Entry(i, n));
    BitChanged(sb, s, b, false).(owner := s.owner - {b})
  }

  /** Changing bitmap bits changes no block number. */
  lemma BitChangedAddr(sb: Super, s: State, cut: Cut, b: int, on: bool, slot: Slot)
    requires Owned(sb, s, cut) && 0 <= b < sb.size && Used(sb, s, b) != on
    ensures AddrOf(BitChanged(sb, s, b, on), slot) == AddrOf(s, slot)
  {
    if slot.Entry? && AddrOf(s, Indirect(slot.inum)) != 0 {
      Addressed(sb, s, cut, Indirect(slot.inum));
    }
  }

  lemma EntryReleasedKeeps(sb: Super, s: State, i: int, n: int)
    requires Owned(sb, s, Cut(i, n)) && 0 <= n < NINDIRECT && AddrOf(s, Entry(i, n)) != 0
    ensures var b := AddrOf(s, Entry(i, n)); 0 <= b < sb.size && Used(sb, s, b)
    ensures Owned(sb, EntryReleased(sb, s, i, n), Cut(i, n + 1))
  {
    var b, c0, c1 := AddrOf(s, Entry(i, n)), Cut(i, n), Cut(i, n + 1);
    Addressed(sb, s, c0, Entry(i, n));
    var t := EntryReleased(sb, s, i, n);
    forall slot
      ensures SlotOk(t, c1, slot)
    {
      BitChangedAddr(sb, s, c0, b, false, slot);
      assert SlotOk(s, c0, slot) && SlotOk(s, c0, Entry(i, n));
    }
    forall c
      ensures OwnerOk(sb, t, c1, c)
    {
      assert OwnerOk(sb, s, c0, c);
      if c in s.owner {
        BitChangedAddr(sb, s, c0, b, false, s.owner[c]);
      }
    }
    forall c
      ensures BitOk(sb, t, c)
    {
      assert BitOk(sb, s, c);
      if 0 <= c < sb.size {
        BitChangedUsed(sb, s, b, false, c);
      }
    }
  }

  /** An empty entry needs no release. */
  lemma EntryEmpty(sb: Super, s: State, i: int, n: int)
    requires Owned(sb, s, Cut(i, n)) && 0 <= n < NINDIRECT && AddrOf(s, Entry(i, n)) == 0 && 0 < sb.dataStart
    ensures Owned(sb, s, Cut(i, n + 1))
  {
    var next := Cut(i, n + 1);
    forall slot
      ensures SlotOk(s, next, slot)
    {
      assert SlotOk(s, Cut(i, n), slot);
    }
    forall c
      ensures OwnerOk(sb, s, next, c)
    {
      assert OwnerOk(sb, s, Cut(i, n), c);
    }
  }

  lemma CutStart(sb: Super, s: State, i: int)
    requires Owned(sb, s, NO_CUT)
    ensures Owned(sb, s, Cut(i, 0))
  {
    var start := Cut(i, 0);
    forall slot
      ensures SlotOk(s, start, slot)
    {
      assert SlotOk(s, NO_CUT, slot);
      assert AddrOf(s, slot) != 0 && slot.Entry? ==> 0 <= slot.n;
    }
    forall c
      ensures OwnerOk(sb, s, start, c)
    {
      assert OwnerOk(sb, s, NO_CUT, c);
      assert c in s.owner && AddrOf(s, s.owner[c]) != 0 && s.owner[c].Entry? ==> 0 <= s.owner[c].n;
    }
  }

  lemma ReleasedAddr(sb: Super, s: State, cut: Cut, i: int, n: int, slot: Slot)
    requires Owned(sb, s, cut) && 0 <= i < |s.inodes| && 0 <= n <= NDIRECT && |s.inodes[i].addrs| == NDIRECT + 1
    requires s.inodes[i].addrs[n] != 0 && Live(cut, InodeSlot(i, n))
    ensures var b := s.inodes[i].addrs[n]; 0 <= b < sb.size && Used(sb, s, b)
    ensures AddrOf(Released(sb, s, i, n), slot) ==
            if slot == InodeSlot(i, n) || (n == NDIRECT && slot.Entry? && slot.inum == i) then 0 else AddrOf(s, slot)
  {
    var b := s.inodes[i].addrs[n];
    Addressed(sb, s, cut, InodeSlot(i, n));
    var t := BitChanged(sb, s, b, false);
    BitChangedAddr(sb, s, cut, b, false, slot);
    AddrSetElsewhere(t, i, n, 0, slot);
  }

  /** Freeing the block of an inode slot, all entries having gone before if it is the indirect block. */
  lemma ReleasedKeeps(sb: Super, s: State, cut: Cut, i: int, n: int)
    requires Owned(sb, s, cut) && 0 <= i < |s.inodes| && 0 <= n <= NDIRECT && |s.inodes[i].addrs| == NDIRECT + 1 &&
      s.inodes[i].addrs[n] != 0
    requires if n == NDIRECT then cut == Cut(i, NINDIRECT) else cut == NO_CUT
    ensures var b := s.inodes[i].addrs[n]; 0 <= b < sb.size && Used(sb, s, b)
    ensures Owned(sb, Released(sb, s, i, n), NO_CUT)
  {
    var b := s.inodes[i].addrs[n];
    Addressed(sb, s, cut, InodeSlot(i, n));
    var t := Released(sb, s, i, n);
    forall slot
      ensures SlotOk(t, NO_CUT, slot)
    {
      ReleasedAddr(sb, s, cut, i, n, slot);
      assert SlotOk(s, cut, slot) && SlotOk(s, cut, InodeSlot(i, n));
    }
    forall c
      ensures OwnerOk(sb, t, NO_CUT, c)
    {
      assert OwnerOk(sb, s, cut, c);
      if c in t.owner {
        ReleasedAddr(sb, s, cut, i, n, s.owner[c]);
      }
    }
    forall c
      ensures BitOk(sb, t, c)
    {
      assert BitOk(sb, s, c);
      if 0 <= c < sb.size {
        BitChangedUsed(sb, s, b, false, c);
      }
    }
  }

  // ---- What stays the same ----

  /** A block named before is still named, by the same slot, and holds the same bytes. */
  predicate FrameOk(s: State, t: State, slot: Slot) {
    AddrOf(s, slot) != 0 ==> AddrOf(t, slot) == AddrOf(s, slot) && (!slot.Indirect? ==> SameBlock(s, t, AddrOf(s, slot)))
  }

  predicate SameBlock(s: State, t: State, a: int) {
    0 < a < |s.blocks| && a < |t.blocks| && t.blocks[a] == s.blocks[a]
  }

  /** Every file keeps its blocks and bytes; `but` may have changed. */
  ghost predicate Frame(s: State, t: State, but: Slot) {
    && |t.inodes| == |s.inodes|
    && (forall i {:trigger t.inodes[i]} :: 0 <= i < |s.inodes| ==> t.inodes[i].size == s.inodes[i].size)
    && (forall slot {:trigger FrameOk(s, t, slot)} :: slot != but ==> FrameOk(s, t, slot))
  }

  lemma FrameTrans(s: State, t: State, u: State, but: Slot)
    requires Frame(s, t, but) && Frame(t, u, but)
    ensures Frame(s, u, but)
  {
    forall slot | slot != but
      ensures FrameOk(s, u, slot)
    {
      assert FrameOk(s, t, slot) && FrameOk(t, u, slot);
    }
  }

  lemma FrameSelf(sb: Super, s: State, but: Slot)
    requires Owned(sb, s, NO_CUT)
    ensures Frame(s, s, but)
  {
    forall slot
      ensures FrameOk(s, s, slot)
    {
      assert SlotOk(s, NO_CUT, slot) && OwnerOk(sb, s, NO_CUT, AddrOf(s, slot));
    }
  }

  lemma AllocatedFrame(sb: Super, s: State, b: int, but: Slot)
    requires Owned(sb, s, NO_CUT) && 0 <= b < sb.size && !Used(sb, s, b)
    ensures Frame(s, Allocated(sb, s, b), but)
  {
    forall slot
      ensures FrameOk(s, Allocated(sb, s, b), slot)
    {
      AllocatedAddr(sb, s, NO_CUT, b, slot);
      if AddrOf(s, slot) != 0 {
        Addressed(sb, s, NO_CUT, slot);
      }
    }
  }

  lemma AttachedFrame(sb: Super, s: State, i: int, n: int, b: int, but: Slot)
    requires Owned(sb, s, NO_CUT) && 0 <= i < |s.inodes| && 0 <= n <= NDIRECT && b in s.owner && s.owner[b] == Pending
    requires |s.inodes[i].addrs| == NDIRECT + 1 && AddrOf(s, InodeSlot(i, n)) == 0 &&
      (n == NDIRECT ==> 0 < b < |s.blocks| && s.blocks[b] == Zeros())
    ensures Frame(s, Attached(s, i, n, b), but)
  {
    forall slot
      ensures FrameOk(s, Attached(s, i, n, b), slot)
    {
      AttachedAddr(sb, s, i, n, b, slot);
      if AddrOf(s, slot) != 0 {
        Addressed(sb, s, NO_CUT, slot);
      }
    }
  }

  lemma EntrySetFrame(sb: Super, s: State, i: int, n: int, b: int, but: Slot)
    requires Owned(sb, s, NO_CUT) && 0 < AddrOf(s, Indirect(i)) < |s.blocks| && 0 <= n < NINDIRECT && 0 <= b < UINT &&
      AddrOf(s, Entry(i, n)) == 0
    ensures Frame(s, EntrySet(s, i, n, b), but)
  {
    Addressed(sb, s, NO_CUT, Indirect(i));
    forall slot
      ensures FrameOk(s, EntrySet(s, i, n, b), slot)
    {
      EntrySetAddr(sb, s, i, n, b, slot);
      if AddrOf(s, slot) != 0 {
        Addressed(sb, s, NO_CUT, slot);
      }
    }
  }

  lemma DataSetFrame(sb: Super, s: State, b: int, data: Block)
    requires Owned(sb, s, NO_CUT) && b in s.owner && !s.owner[b].Indirect? && sb.dataStart <= b < sb.size
    ensures Frame(s, DataSet(s, b, data), s.owner[b])
  {
    forall slot | slot != s.owner[b]
      ensures FrameOk(s, DataSet(s, b, data), slot)
    {
      DataSetAddr(sb, s, b, data, slot);
      if AddrOf(s, slot) != 0 {
        Addressed(sb, s, NO_CUT, slot);
      }
    }
  }

  /** The files other than inode i keep their blocks and bytes. */
  ghost predicate OthersSame(s: State, t: State, i: int) {
    && |t.inodes| == |s.inodes|
    && (forall k {:trigger t.inodes[k]} :: 0 <= k < |s.inodes| && k != i ==> t.inodes[k].size == s.inodes[k].size)
    && (forall slot: Slot {:trigger FrameOk(s, t, slot)} :: slot.Pending? || slot.inum != i ==> FrameOk(s, t, slot))
  }

  lemma OthersTrans(s: State, t: State, u: State, i: int)
    requires OthersSame(s, t, i) && OthersSame(t, u, i)
    ensures OthersSame(s, u, i)
  {
    forall slot: Slot | slot.Pending? || slot.inum != i
      ensures FrameOk(s, u, slot)
    {
      assert FrameOk(s, t, slot) && FrameOk(t, u, slot);
    }
  }

  lemma ReleasedOthers(sb: Super, s: State, cut: Cut, i: int, n: int)
    requires Owned(sb, s, cut) && 0 <= i < |s.inodes| && 0 <= n <= NDIRECT && |s.inodes[i].addrs| == NDIRECT + 1 &&
      s.inodes[i].addrs[n] != 0
    requires cut.inum == i || cut == NO_CUT
    ensures var b := s.inodes[i].addrs[n]; 0 <= b < sb.size && Used(sb, s, b)
    ensures OthersSame(s, Released(sb, s, i, n), i)
  {
    Addressed(sb, s, cut, InodeSlot(i, n));
    forall slot: Slot | slot.Pending? || slot.inum != i
      ensures FrameOk(s, Released(sb, s, i, n), slot)
    {
      ReleasedAddr(sb, s, cut, i, n, slot);
      if AddrOf(s, slot) != 0 {
        assert Live(cut, slot);
        Addressed(sb, s, cut, slot);
      }
    }
  }

  lemma EntryReleasedOthers(sb: Super, s: State, i: int, n: int)
    requires Owned(sb, s, Cut(i, n)) && 0 <= n < NINDIRECT && AddrOf(s, Entry(i, n)) != 0
    ensures var b := AddrOf(s, Entry(i, n)); 0 <= b < sb.size && Used(sb, s, b)
    ensures OthersSame(s, EntryReleased(sb, s, i, n), i)
  {
    var b, cut := AddrOf(s, Entry(i, n)), Cut(i, n);
    Addressed(sb, s, cut, Entry(i, n));
    forall slot: Slot | slot.Pending? || slot.inum != i
      ensures FrameOk(s, EntryReleased(sb, s, i, n), slot)
    {
      BitChangedAddr(sb, s, cut, b, false, slot);
      if AddrOf(s, slot) != 0 {
        assert Live(cut, slot);
        Addressed(sb, s, cut, slot);
      }
    }
  }

  // ---- Files as byte sequences ----

  /** Inode i reads as the bytes c. */
  ghost predicate Reads(s: State, i: int, c: seq<int>) {
    && 0 <= i < |s.inodes| && |c| == s.inodes[i].size <= MAXFILE * BSIZE
    && (forall k {:trigger ByteOk(s, i, c, k)} :: 0 <= k < |c| ==> ByteOk(s, i, c, k))
  }

  predicate ByteOk(s: State, i: int, c: seq<int>, k: int)
    requires 0 <= k < |c|
  {
    AddrOf(s, SlotOf(i, k / BSIZE)) != 0 && ByteAt(s, i, k) == c[k]
  }

  /** The first twelve blocks of a file are the inode's direct blocks, in order. */
  lemma DirectBytes(s: State, i: int, c: seq<int>, n: nat, k: nat)
    requires Reads(s, i, c) && n < 12 && k < 1024 && 1024 * n + k < |c| && |s.inodes[i].addrs| == 13
    ensures 0 < s.inodes[i].addrs[n] < |s.blocks| ==> c[1024 * n + k] == s.blocks[s.inodes[i].addrs[n]][k]
  {
    assert ByteOk(s, i, c, 1024 * n + k);
  }

  /** The next 256 are those whose numbers the indirect block has, in order, four bytes each. */
  lemma IndirectBytes(s: State, i: int, c: seq<int>, n: nat, k: nat)
    requires Reads(s, i, c) && n < 256 && k < 1024 && 1024 * (12 + n) + k < |c| && |s.inodes[i].addrs| == 13
    requires 0 < s.inodes[i].addrs[12] < |s.blocks|
    ensures var t := s.blocks[s.inodes[i].addrs[12]];
      var a := t[4 * n] as int + 256 * t[4 * n + 1] as int + 65536 * t[4 * n + 2] as int + 16777216 * t[4 * n + 3] as int;
      0 < a < |s.blocks| ==> c[1024 * (12 + n) + k] == s.blocks[a][k]
  {
    assert ByteOk(s, i, c, 1024 * (12 + n) + k);
  }

  lemma ReadsOne(s: State, i: int, c: seq<int>, d: seq<int>)
    requires Reads(s, i, c) && Reads(s, i, d)
    ensures c == d
  {
    forall k | 0 <= k < |c|
      ensures c[k] == d[k]
    {
      assert ByteOk(s, i, c, k) && ByteOk(s, i, d, k);
    }
  }

  lemma FrameByte(s: State, t: State, but: Slot, i: int, k: int)
    requires Frame(s, t, but) && AddrOf(s, SlotOf(i, k / BSIZE)) != 0 && SlotOf(i, k / BSIZE) != but
    ensures AddrOf(t, SlotOf(i, k / BSIZE)) != 0 && ByteAt(t, i, k) == ByteAt(s, i, k)
  {
    assert FrameOk(s, t, SlotOf(i, k / BSIZE));
  }

  lemma OthersRead(s: State, t: State, i: int, j: int, c: seq<int>)
    requires OthersSame(s, t, i) && j != i && Reads(s, j, c)
    ensures Reads(t, j, c)
  {
    forall k | 0 <= k < |c|
      ensures ByteOk(t, j, c, k)
    {
      assert ByteOk(s, j, c, k);
      assert FrameOk(s, t, SlotOf(j, k / BSIZE));
    }
  }
}
