/** A process's swap file (ass3 fs.c and file.c): an inode's bytes, written at an offset in chunks. */
module SwapFile {
  import opened Sizes

  const CHUNK := (10 - 1 - 1 - 2) / 2 * BSIZE  // what one transaction of kfilewrite() writes

  /** The bytes of a file after writing src at off. */
  function Overwrite(data: seq<int>, off: nat, src: seq<int>): (r: seq<int>)
    requires off <= |data|
    ensures |r| == if off + |src| > |data| then off + |src| else |data|
    ensures forall i {:trigger r[i]} :: 0 <= i < |r| ==> r[i] == if off <= i < off + |src| then src[i - off] else data[i]
  {
    data[..off] + src + (if off + |src| <= |data| then data[off + |src|..] else [])
  }

  /** Writing in two pieces is writing at once. */
  lemma OverwriteTwice(data: seq<int>, off: nat, src: seq<int>, i: nat, j: nat)
    requires off <= |data| && i <= j <= |src|
    ensures off + i <= |Overwrite(data, off, src[..i])|
    ensures Overwrite(Overwrite(data, off, src[..i]), off + i, src[i..j]) == Overwrite(data, off, src[..j])
    ensures Overwrite(data, off, src[..0]) == data
  {
  }

  /** Page k of the file. */
  function PageAt(data: seq<int>, k: nat): (p: seq<int>)
    requires (k + 1) * PGSIZE <= |data|
    ensures |p| == PGSIZE
  {
    data[k * PGSIZE..(k + 1) * PGSIZE]
  }

  /** A page written is read back, and no other page is touched. */
  lemma OverwritePage(data: seq<int>, k: nat, src: seq<int>, j: nat)
    requires k * PGSIZE <= |data| && |src| == PGSIZE
    ensures PageAt(Overwrite(data, k * PGSIZE, src), k) == src
    ensures j != k && (j + 1) * PGSIZE <= |data| ==> PageAt(Overwrite(data, k * PGSIZE, src), j) == PageAt(data, j)
  {
    var now := Overwrite(data, k * PGSIZE, src);
    assert |PageAt(now, k)| == PGSIZE;
    forall i | 0 <= i < PGSIZE
      ensures PageAt(now, k)[i] == src[i]
    {
      assert PageAt(now, k)[i] == now[k * PGSIZE + i];
    }
    if j != k && (j + 1) * PGSIZE <= |data| {
      forall i | 0 <= i < PGSIZE
        ensures PageAt(now, j)[i] == PageAt(data, j)[i]
      {
        assert PageAt(now, j)[i] == now[j * PGSIZE + i];
        assert j < k ==> j * PGSIZE + i < k * PGSIZE;
        assert j > k ==> j * PGSIZE + i >= k * PGSIZE + PGSIZE;
      }
    }
  }

  /** How much of n bytes kfilewrite() writes at `off` into a file of `size` bytes. */
  function WholeChunks(size: nat, off: nat, n: nat): (m: nat)
    ensures m <= n
  {
    if off > size then 0
    else if off + n <= MAXFILE * BSIZE then n
    else if off > MAXFILE * BSIZE then 0
    else (MAXFILE * BSIZE - off) / CHUNK * CHUNK
  }

  /** The chunks that fit end where the next one would not. */
  lemma ChunkStops(size: nat, off: nat, n: nat, q: nat, n1: nat)
    requires off <= size <= MAXFILE * BSIZE && q * CHUNK < n && n1 == if n - q * CHUNK > CHUNK then CHUNK else n - q * CHUNK
    requires q > 0 ==> off + q * CHUNK <= MAXFILE * BSIZE
    requires off + q * CHUNK + n1 > MAXFILE * BSIZE
    ensures WholeChunks(size, off, n) == q * CHUNK
  {
    var room := MAXFILE * BSIZE - off;
    assert room / CHUNK == q;
  }

  /** They are the chunks of 3072 bytes that fit the largest file, and none for a write behind the end. */
  lemma ChunksThatFit(size: nat, off: nat, n: nat)
    requires size <= MAXFILE * BSIZE
    ensures var m := WholeChunks(size, off, n);
      if off > size then m == 0
      else off + n > MAXFILE * BSIZE ==> m % 3072 == 0 && off + m <= MAXFILE * BSIZE < off + m + 3072
  {
    if off <= size {
      var room := MAXFILE * BSIZE - off;
      assert CHUNK == 3072 && room == room / CHUNK * CHUNK + room % CHUNK;
    }
  }

  /** The first i bytes of src have been written at `start` into a file that held `was`. */
  predicate SoFar(was: seq<int>, start: nat, src: seq<int>, i: nat, now: seq<int>)
    requires i <= |src|
  {
    if i == 0 then now == was
    else start <= |was| && start + i <= MAXFILE * BSIZE && now == Overwrite(was, start, src[..i])
  }

  lemma NoneSoFar(was: seq<int>, start: nat, src: seq<int>)
    requires |was| <= MAXFILE * BSIZE
    ensures SoFar(was, start, src, 0, was)
  {
  }

  /** The next chunk is written, or writei() refuses it and what was written is all that can be. */
  lemma NextChunk(was: seq<int>, start: nat, src: seq<int>, q: nat, n1: nat, now: seq<int>)
    requires |was| <= MAXFILE * BSIZE && q * CHUNK < |src| && n1 == if |src| - q * CHUNK > CHUNK then CHUNK else |src| - q * CHUNK
    requires SoFar(was, start, src, q * CHUNK, now)
    ensures var i := q * CHUNK;
      if start + i <= |now| && start + i + n1 <= MAXFILE * BSIZE then
        SoFar(was, start, src, i + n1, Overwrite(now, start + i, src[i..i + n1]))
      else
        && !(start <= |was| && start + |src| <= MAXFILE * BSIZE) && WholeChunks(|was|, start, |src|) == i
        && now == if i > 0 then Overwrite(was, start, src[..i]) else was
  {
    var i := q * CHUNK;
    if start <= |was| {
      OverwriteTwice(was, start, src, i, i + n1);
      assert src[..0] == [];
      if start + i + n1 > MAXFILE * BSIZE {
        ChunkStops(|was|, start, |src|, q, n1);
      }
    }
  }

  lemma AllSoFar(was: seq<int>, start: nat, src: seq<int>, now: seq<int>)
    requires SoFar(was, start, src, |src|, now)
    ensures src == [] ==> now == was
    ensures src != [] ==> start <= |was| && start + |src| <= MAXFILE * BSIZE && WholeChunks(|was|, start, |src|) == |src|
    ensures src != [] ==> src[..|src|] == src && now == Overwrite(was, start, src)
  {
    assert src[..|src|] == src;
  }

  class File {
    var data: seq<int>  // the inode's contents; ip->size is its length
    var off: nat

    constructor ()
      ensures data == [] && off == 0
    {
      data, off := [], 0;
    }

    /** writei() from the kernel: -1 if it would leave a hole or pass the largest file. */
    method Writei(src: seq<int>, at: nat) returns (n: int)
      modifies this`data
      ensures at > |old(data)| || at + |src| > MAXFILE * BSIZE ==> n == -1 && data == old(data)
      ensures at <= |old(data)| && at + |src| <= MAXFILE * BSIZE ==> n == |src| && data == Overwrite(old(data), at, src)
    {
      if at > |data| {
        return -1;
      }
      if at + |src| > MAXFILE * BSIZE {
        return -1;
      }
      data := Overwrite(data, at, src);
      n := |src|;
    }

    /** kfilewrite(): one transaction for each chunk. It writes everything or fails; where the file would
        grow too large the chunks that fit have been written, and a write that starts behind the end of
        the file writes nothing. */
    method KFileWrite(src: seq<int>) returns (r: int)
      requires |data| <= MAXFILE * BSIZE
      modifies this
      ensures |data| <= MAXFILE * BSIZE
      ensures src == [] ==> r == 0 && data == old(data) && off == old(off)
      ensures src != [] ==> r == if old(off) <= |old(data)| && old(off) + |src| <= MAXFILE * BSIZE then |src| else -1
      ensures src != [] ==> var n := WholeChunks(|old(data)|, old(off), |src|);
        off == old(off) + n && data == if n > 0 then Overwrite(old(data), old(off), src[..n]) else old(data)
      ensures old(off) > |old(data)| ==> off == old(off) && data == old(data)
      ensures src != [] && old(off) <= |old(data)| && r == -1 ==>
        (off - old(off)) % 3072 == 0 && off <= MAXFILE * BSIZE < off + 3072
    {
      hide Overwrite, WholeChunks, SoFar;
      ghost var was, q := data, 0;
      NoneSoFar(was, off, src);
      var i := 0;
      r := 0;
      while i < |src|
        invariant 0 <= i <= |src| && (i == |src| || i == q * CHUNK) && off == old(off) + i && |data| <= MAXFILE * BSIZE
        invariant SoFar(was, old(off), src, i, data) && (i == 0 ==> q == 0)
      {
        var n1 := |src| - i;
        if n1 > CHUNK {
          n1 := CHUNK;
        }
        NextChunk(was, old(off), src, q, n1, data);
        r := Writei(src[i..i + n1], off);
        if r > 0 {
          off := off + r;
        }
        if r != n1 {
          break;
        }
        i, q := i + r, q + 1;
      }
      if i == |src| {
        AllSoFar(was, old(off), src, data);
      } else {
        ChunksThatFit(|was|, old(off), |src|);
      }
      r := if i == |src| then |src| else -1;
    }

    /** kfileread(): what readi() finds there, cut at the end of the file. */
    method KFileRead(n: nat) returns (dst: seq<int>)
      modifies this`off
      ensures dst == if old(off) > |data| then [] else if old(off) + n > |data| then data[old(off)..] else data[old(off)..old(off) + n]
      ensures off == old(off) + |dst|
    {
      if off > |data| {
        return [];
      }
      var m := if off + n > |data| then |data| - off else n;
      dst := data[off..off + m];
      off := off + m;
    }

    /** writeToSwapFile() of one page. */
    method WritePage(page: seq<int>, k: nat) returns (r: int)
      requires |page| == PGSIZE && |data| <= MAXFILE * BSIZE
      modifies this
      ensures k * PGSIZE <= |old(data)| && (k + 1) * PGSIZE <= MAXFILE * BSIZE ==>
        r == PGSIZE && data == Overwrite(old(data), k * PGSIZE, page)
      ensures k * PGSIZE > |old(data)| ==> r == -1 && data == old(data)
    {
      off := k * PGSIZE;
      r := KFileWrite(page);
    }

    /** readFromSwapFile() of one page. */
    method ReadPage(k: nat) returns (page: seq<int>)
      modifies this`off
      ensures (k + 1) * PGSIZE <= |data| ==> page == PageAt(data, k)
    {
      off := k * PGSIZE;
      page := KFileRead(PGSIZE);
    }
  }
}
