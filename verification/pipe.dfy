/** kernel/pipe.c: a ring of 512 bytes between writers and readers, with counters that wrap at 2^32. A
    method is what runs between taking the pipe's lock and sleeping or returning, so any interleaving of
    readers and writers is a sequence of calls. */
module Pipe {

  const PIPESIZE := 512
  const WRAP := 0x1_0000_0000

  /** A counter as an unsigned 32-bit number. */
  function Wrapped(n: nat): (r: nat) { n % WRAP }

  /** The cell of the ring that counter n points to. */
  function Cell(n: nat): (r: nat)
    ensures r < PIPESIZE
  {
    n % PIPESIZE
  }

  /** A writer or reader has finished, must sleep, or fails. */
  datatype Outcome = Done | Sleeps | Fails

  class Pipe {
    var data: array<int>
    var nread: nat
    var nwrite: nat
    var readOpen: bool
    var writeOpen: bool
    ghost var put: seq<int>    // every byte a writer has stored
    ghost var taken: seq<int>  // every byte a reader has removed

    /** The bytes held are the ones put and not yet taken; the ring keeps them at their counters. */
    ghost predicate Valid()
      reads this, data
    {
      && data.Length == PIPESIZE
      && taken <= put && |put| - |taken| <= PIPESIZE
      && nread == Wrapped(|taken|) && nwrite == Wrapped(|put|)
      && forall k {:trigger put[k]} :: |taken| <= k < |put| ==> data[Cell(k)] == put[k]
    }

    /** What the pipe holds, oldest first. */
    ghost function Held(): seq<int>
      reads this, data
      requires Valid()
    {
      put[|taken|..]
    }

    /** An empty pipe with both ends open, as pipealloc() leaves it. */
    constructor ()
      ensures Valid() && fresh(data) && put == [] && taken == [] && readOpen && writeOpen
    {
      data := new int[PIPESIZE];
      nread, nwrite, readOpen, writeOpen, put, taken := 0, 0, true, true, [], [];
    }

    /** pipeclose(): the other side is told; when both have gone the pipe is freed. */
    method Close(writable: bool) returns (freed: bool)
      requires Valid()
      modifies this`readOpen, this`writeOpen
      ensures Valid() && put == old(put) && taken == old(taken)
      ensures readOpen == (old(readOpen) && writable) && writeOpen == (old(writeOpen) && !writable)
      ensures freed <==> !readOpen && !writeOpen
    {
      if writable {
        writeOpen := false;
      } else {
        readOpen := false;
      }
      freed := !readOpen && !writeOpen;
    }

    /** pipewrite() of src from byte i on, up to where it sleeps or ends. copyin() finds only the first
        `good` bytes of src. */
    method Write(src: seq<int>, start: nat, good: nat, killed: bool) returns (i: nat, r: Outcome)
      requires Valid() && start <= |src|
      modifies this`nwrite, this`put, data
      ensures Valid() && data == old(data)
      ensures start <= i <= |src| && put == old(put) + src[start..i]
      ensures r == Fails <==> start < |src| && (!readOpen || killed)
      ensures r == Fails ==> i == start
      ensures r == Sleeps ==> i < |src| && |Held()| == PIPESIZE
      ensures r == Done ==> i == |src| || good <= i
      ensures i > start ==> i <= good
    {
      hide Wrapped, Cell;
      i := start;
      while i < |src|
        invariant Valid() && start <= i <= |src| && data == old(data)
        invariant put == old(put) + src[start..i]
        invariant i > start ==> readOpen && !killed && i <= good
      {
        if !readOpen || killed {
          return i, Fails;
        }
        CountersMeet(|taken|, |put|);
        if nwrite == Wrapped(nread + PIPESIZE) {
          return i, Sleeps;
        }
        if i >= good {
          break;
        }
        WrapKeepsPlace(|put|);
        RingApart(|taken|, |put|);
        data[Cell(nwrite)] := src[i];
        nwrite := Wrapped(nwrite + 1);
        put := put + [src[i]];
        i := i + 1;
      }
      r := Done;
    }

    /** The wait of piperead(): it sleeps while the pipe is empty and can still be written. */
    method Await(killed: bool) returns (r: Outcome)
      requires Valid()
      ensures Held() == [] && writeOpen ==> r == if killed then Fails else Sleeps
      ensures Held() != [] || !writeOpen ==> r == Done
    {
      hide Wrapped, Cell;
      CountersMeet(|taken|, |put|);
      if nread == nwrite && writeOpen {
        return if killed then Fails else Sleeps;
      }
      r := Done;
    }

    /** The copy of piperead(): the oldest bytes, in order, at most n of them. copyout() accepts `good`
        bytes; a byte it refuses has left the pipe already. */
    method Read(n: int, good: nat) returns (dst: seq<int>)
      requires Valid()
      modifies this`nread, this`taken
      ensures Valid() && put == old(put)
      ensures var k := if n <= 0 then 0 else if n < |old(Held())| then n else |old(Held())|;
        if good >= k then dst == old(Held())[..k] && taken == old(taken) + dst
        else dst == old(Held())[..good] && taken == old(taken) + dst + [old(Held())[good]]
    {
      hide Wrapped, Cell;
      ghost var held := Held();
      dst := [];
      var i := 0;
      while i < n
        invariant 0 <= i && (i <= n || i == 0) && i == |dst| <= good && i <= |held|
        invariant Valid() && put == old(put) && dst == held[..i] && taken == old(taken) + dst
        decreases n - i
      {
        CountersMeet(|taken|, |put|);
        if nread == nwrite {
          break;
        }
        WrapKeepsPlace(|taken|);
        assert put[|taken|] == held[i];
        var ch := data[Cell(nread)];
        nread := Wrapped(nread + 1);
        taken := taken + [ch];
        if i >= good {
          break;
        }
        dst := dst + [ch];
        i := i + 1;
      }
    }
  }

  /** Comparing wrapped counters decides empty and full, since they are never more than 512 apart. */
  lemma CountersMeet(taken: nat, put: nat)
    requires taken <= put <= taken + PIPESIZE
    ensures Wrapped(taken) == Wrapped(put) <==> taken == put
    ensures Wrapped(put) == Wrapped(Wrapped(taken) + PIPESIZE) <==> put == taken + PIPESIZE
  {
  }

  /** Wrapping does not move a byte: 512 divides 2^32. */
  lemma WrapKeepsPlace(n: nat)
    ensures Cell(Wrapped(n)) == Cell(n) && Wrapped(Wrapped(n) + 1) == Wrapped(n + 1)
  {
    var q := n / WRAP;
    assert n == PIPESIZE * (q * (WRAP / PIPESIZE)) + n % WRAP;
  }

  lemma RingApart(taken: nat, put: nat)
    requires taken <= put < taken + PIPESIZE
    ensures forall k :: taken <= k < put ==> Cell(k) != Cell(put)
  {
  }

  /** A reader that gives piperead() a bad address loses one byte; with good addresses every byte taken is
      handed over. */
  lemma NothingLost(held: seq<int>, before: seq<int>, after: seq<int>, n: int, good: nat, dst: seq<int>)
    requires var k := if n <= 0 then 0 else if n < |held| then n else |held|;
      if good >= k then dst == held[..k] && after == before + dst else dst == held[..good] && after == before + dst + [held[good]]
    ensures after == before + dst <==> good >= |held| || good >= n
  {
    if good < |held| && good < n {
      assert |after| == |before| + |dst| + 1;
    }
  }

  /** That does happen: one byte is in a new pipe, and a read of one byte to a bad address returns nothing and
      leaves the pipe empty. */
  method LoseByte(b: int) returns (p: Pipe, dst: seq<int>)
    ensures fresh(p) && p.Valid() && p.put == [b] && p.Held() == [] && dst == []
  {
    p := new Pipe();
    var _, _ := p.Write([b], 0, 1, false);
    dst := p.Read(1, 0);
  }
}
