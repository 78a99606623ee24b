/** kernel/virtio_disk.c: three-descriptor chains, the avail and used rings, and which buffer each request
    belongs to (sections 2.6 and 5.2 of virtio 1.1). The device is a partner whose steps come between the
    driver's. */
module VirtioDisk {
  import opened Sizes
  import Counting

  const NUM := 8
  const WRAP := 65536  // the ring indices are sixteen bits wide
  const NONE := -1

  /** What a descriptor's address points at: a command header, a buffer's data, or a status byte. */
  datatype Target = Nothing | Header(i: int) | Data(b: int) | StatusByte(i: int)

  datatype Desc = Desc(addr: Target, len: int, next: bool, write: bool, link: int)

  const ZERO := Desc(Nothing, 0, false, false, 0)

  const HEADER_SIZE := 16  // sizeof(struct virtio_blk_req)

  /** ops[]: the command header of the chain that starts here. */
  datatype Command = Command(out: bool, sector: int)

  /** The first 512-byte sector of a block. */
  function Sector(blockno: int): int { blockno * (BSIZE / 512) }

  /** info[]: the buffer and status byte of the chain that starts here. */
  datatype Info = Info(b: int, status: int)

  /** A request in flight, named by its first descriptor: waiting in the avail ring, with the device, in
      the used ring, or over. */
  datatype Stage = Pending | Working | Used | Over

  datatype Request = Request(d1: int, d2: int, b: int, blockno: int, write: bool, stage: Stage)

  // ---- Free descriptors ----

  ghost function FreeSet(free: seq<bool>): set<int> {
    set i | 0 <= i < |free| && free[i]
  }

  lemma FreeSetLess(free: seq<bool>, i: int)
    requires 0 <= i < |free| && free[i]
    ensures FreeSet(free[i := false]) == FreeSet(free) - {i} && |FreeSet(free)| == |FreeSet(free[i := false])| + 1
  {
    assert FreeSet(free[i := false]) == FreeSet(free) - {i};
  }

  lemma FreeSetEmpty(free: seq<bool>)
    requires forall i :: 0 <= i < |free| ==> !free[i]
    ensures |FreeSet(free)| == 0
  {
    assert FreeSet(free) == {};
  }

  // ---- The invariant ----

  /** The driver's and the device's shared state. `reqs` has the requests in flight, `chainOf` the request
      each descriptor is in (-1: none), `pending` the heads the device has still to take from the avail
      ring, and `done` those it has put on the used ring and the driver has not seen. */
  datatype State = State(
    free: seq<bool>, desc: seq<Desc>, info: seq<Info>, ops: seq<Command>,
    availRing: seq<int>, availIdx: int, takenIdx: int, usedRing: seq<int>, deviceIdx: int, usedIdx: int,
    busy: map<int, bool>, reqs: map<int, Request>, chainOf: seq<int>, pending: seq<int>, done: seq<int>)

  predicate Shaped(s: State) {
    && |s.free| == |s.desc| == |s.info| == |s.ops| == |s.availRing| == |s.usedRing| == |s.chainOf| == NUM
    && |s.pending| <= NUM && |s.done| <= NUM
    && 0 <= s.availIdx && 0 <= s.deviceIdx && 0 <= s.takenIdx && 0 <= s.usedIdx
  }

  // ---- Sixteen-bit ring indices ----

  function Inc(idx: nat): nat { (idx + 1) % WRAP }

  /** Where in a ring the entry j places after index idx is. */
  function Place(idx: nat, j: nat): (r: nat)
    ensures r < NUM
  {
    (idx + j) % NUM
  }

  /** `end` is n places after idx. */
  predicate Ahead(idx: int, n: nat, end: int) {
    0 <= idx < WRAP && end == (idx + n) % WRAP
  }

  /** Wrapping an index does not move its place: the ring's size divides 2^16. */
  lemma WrapKeepsPlace(x: nat)
    requires x < 2 * WRAP
    ensures x % WRAP % NUM == x % NUM
  {
    if x >= WRAP {
      assert x % WRAP == x - WRAP;
      assert x == NUM * 8192 + (x - WRAP);
    } else {
      assert x % WRAP == x;
    }
  }

  lemma PlacesApart(idx: nat, j: nat, n: nat)
    requires j < n < NUM
    ensures Place(idx, j) != Place(idx, n)
  {
  }

  /** An entry is added at the end. */
  lemma RingPlace(idx: int, n: nat, end: int, j: nat)
    requires Ahead(idx, n, end) && n < NUM && j <= n
    ensures end >= 0 && end % NUM == Place(idx, n) && (j < n ==> Place(idx, j) != Place(idx, n)) && Ahead(idx, n + 1, Inc(end))
  {
    WrapKeepsPlace(idx + n);
    if j < n {
      PlacesApart(idx, j, n);
    }
    RingLonger(idx, n, end);
    hide Inc;
  }

  lemma RingLonger(idx: int, n: nat, end: int)
    requires Ahead(idx, n, end) && n < NUM
    ensures Ahead(idx, n + 1, Inc(end))
  {
    if idx + n < WRAP {
      assert end == idx + n;
    } else {
      assert end == idx + n - WRAP;
    }
  }

  /** The oldest entry is taken. */
  lemma RingNext(idx: int, n: nat, end: int, j: nat)
    requires Ahead(idx, n, end) && 0 < n <= NUM && j < NUM
    ensures Ahead(Inc(idx), n - 1, end) && Place(Inc(idx), j) == Place(idx, j + 1) && Place(idx, 0) == idx % NUM
  {
  }

  lemma RingEmpty(idx: int, n: nat, end: int)
    requires Ahead(idx, n, end) && n <= NUM
    ensures idx >= 0 && (idx == end <==> n == 0)
  {
  }

  predicate InChain(h: int, r: Request, i: int) {
    i == h || i == r.d1 || i == r.d2
  }

  /** A request in flight is a chain of three descriptors of its own, as section 5.2 wants them, and its
      buffer is marked until the device has been seen to finish. */
  predicate RequestOk(s: State, h: int)
    requires Shaped(s) && h in s.reqs
  {
    var r := s.reqs[h];
    && 0 <= h < NUM && 0 <= r.d1 < NUM && 0 <= r.d2 < NUM && h != r.d1 && h != r.d2 && r.d1 != r.d2
    && s.chainOf[h] == h && s.chainOf[r.d1] == h && s.chainOf[r.d2] == h
    && s.desc[h] == Desc(Header(h), HEADER_SIZE, true, false, r.d1)
    && s.desc[r.d1] == Desc(Data(r.b), BSIZE, true, !r.write, r.d2)
    && s.desc[r.d2] == Desc(StatusByte(h), 1, false, true, 0)
    && s.ops[h] == Command(r.write, Sector(r.blockno))
    && s.info[h].b == r.b && r.b in s.busy && (s.busy[r.b] <==> !r.stage.Over?)
    && (r.stage.Pending? <==> h in s.pending) && (r.stage.Used? <==> h in s.done)
  }

  /** A descriptor is free or in one chain. */
  predicate DescOk(s: State, i: int)
    requires Shaped(s) && 0 <= i < NUM
  {
    && (s.free[i] <==> s.chainOf[i] == NONE)
    && (s.chainOf[i] != NONE ==> s.chainOf[i] in s.reqs && InChain(s.chainOf[i], s.reqs[s.chainOf[i]], i))
  }

  /** The avail ring still holds what the device has not taken. */
  predicate AvailOk(s: State, j: int)
    requires Shaped(s) && 0 <= j < |s.pending|
  {
    && s.pending[j] in s.reqs && s.reqs[s.pending[j]].stage.Pending?
    && s.availRing[Place(s.takenIdx, j)] == s.pending[j]
  }

  /** The used ring holds what the driver has not seen. */
  predicate UsedOk(s: State, j: int)
    requires Shaped(s) && 0 <= j < |s.done|
  {
    && s.done[j] in s.reqs && s.reqs[s.done[j]].stage.Used?
    && s.usedRing[Place(s.usedIdx, j)] == s.done[j]
  }

  predicate BuffersApart(s: State, h: int, k: int) {
    h in s.reqs && k in s.reqs && h != k ==> s.reqs[h].b != s.reqs[k].b
  }

  predicate Distinct(q: seq<int>) {
    forall i, j :: 0 <= i < j < |q| ==> q[i] != q[j]
  }

  ghost predicate Inv(s: State) {
    && Shaped(s) && Distinct(s.pending) && Distinct(s.done)
    && Ahead(s.takenIdx, |s.pending|, s.availIdx) && Ahead(s.usedIdx, |s.done|, s.deviceIdx)
    && (forall h {:trigger RequestOk(s, h)} :: h in s.reqs ==> RequestOk(s, h))
    && (forall i {:trigger DescOk(s, i)} :: 0 <= i < NUM ==> DescOk(s, i))
    && (forall j {:trigger AvailOk(s, j)} :: 0 <= j < |s.pending| ==> AvailOk(s, j))
    && (forall j {:trigger UsedOk(s, j)} :: 0 <= j < |s.done| ==> UsedOk(s, j))
    && (forall h, k {:trigger BuffersApart(s, h, k)} :: BuffersApart(s, h, k))
  }

  // ---- The changes ----

  /** The descriptor table with the three links of a request: its header, its data, its status byte. */
  function Chained(desc: seq<Desc>, a: int, d1: int, d2: int, b: int, write: bool): (r: seq<Desc>)
    requires 0 <= a < |desc| && 0 <= d1 < |desc| && 0 <= d2 < |desc|
    ensures |r| == |desc|
  {
    var head := desc[a := Desc(Header(a), HEADER_SIZE, true, false, d1)];
    head[d1 := Desc(Data(b), BSIZE, true, !write, d2)][d2 := Desc(StatusByte(a), 1, false, true, 0)]
  }

  /** A request for buffer b written into descriptors a, d1, d2 and announced. */
  function Submitted(s: State, a: int, d1: int, d2: int, b: int, blockno: int, write: bool): State
    requires Shaped(s) && 0 <= a < NUM && 0 <= d1 < NUM && 0 <= d2 < NUM
  {
    s.(free := s.free[a := false][d1 := false][d2 := false],
       desc := Chained(s.desc, a, d1, d2, b, write),
       info := s.info[a := Info(b, 0xff)], ops := s.ops[a := Command(write, Sector(blockno))],
       availRing := s.availRing[s.availIdx % NUM := a], availIdx := Inc(s.availIdx),
       busy := s.busy[b := true], reqs := s.reqs[a := Request(d1, d2, b, blockno, write, Pending)],
       chainOf := s.chainOf[a := a][d1 := a][d2 := a], pending := s.pending + [a])
  }

  /** A block begins at the byte its sector number says. */
  lemma SectorBytes(blockno: int)
    ensures Sector(blockno) * 512 == blockno * 1024
  {
  }

  /** What the device finds under the head of a request: sixteen bytes of header to read, a block of data that it
      may write exactly if the request is a read, and one byte of status to write, where the chain ends. */
  lemma ChainFormat(s: State, h: int)
    requires Inv(s) && h in s.reqs
    ensures var r := s.reqs[h];
      0 <= h < |s.desc| && 0 <= r.d1 < |s.desc| && 0 <= r.d2 < |s.desc| && h < |s.ops| &&
      var head, data, status := s.desc[h], s.desc[r.d1], s.desc[r.d2];
      && head.addr == Header(h) && head.len == 16 && !head.write && head.next && head.link == r.d1
      && data.addr == Data(r.b) && data.len == 1024 && (data.write <==> !r.write) && data.next && data.link == r.d2
      && status.addr == StatusByte(h) && status.len == 1 && status.write && !status.next
      && (s.ops[h].out <==> r.write) && s.ops[h].sector == 2 * r.blockno
  {
    assert RequestOk(s, h);
  }

  lemma OpsOf(s: State, a: int, d1: int, d2: int, b: int, blockno: int, write: bool)
    requires Shaped(s) && 0 <= a < NUM && 0 <= d1 < NUM && 0 <= d2 < NUM
    ensures var t := Submitted(s, a, d1, d2, b, blockno, write); |t.ops| == NUM && t.ops[a] == Command(write, Sector(blockno))
  {
  }

  /** Before a request is announced the avail ring has room: heads are different descriptors. */
  lemma RoomInAvail(s: State, a: int)
    requires Inv(s) && 0 <= a < NUM && s.free[a]
    ensures |s.pending| < NUM && a !in s.pending && a !in s.reqs && a !in s.done
  {
    assert DescOk(s, a);
    assert a in s.reqs ==> RequestOk(s, a);
    forall j | 0 <= j < |s.pending|
      ensures s.pending[j] != a && 0 <= s.pending[j] < NUM
    {
      assert AvailOk(s, j) && RequestOk(s, s.pending[j]);
    }
    forall j | 0 <= j < |s.done|
      ensures s.done[j] in s.reqs
    {
      assert UsedOk(s, j);
    }
    Counting.Pigeonhole(s.pending + [a], NUM);
  }

  lemma SubmittedRequest(s: State, a: int, d1: int, d2: int, b: int, blockno: int, write: bool, h: int)
    requires Inv(s) && 0 <= a < NUM && 0 <= d1 < NUM && 0 <= d2 < NUM && s.free[a] && s.free[d1] && s.free[d2] && AllDifferent3([a, d1, d2])
    requires forall k {:trigger s.reqs[k]} :: k in s.reqs ==> s.reqs[k].b != b
    ensures |s.pending| < NUM
    ensures h in Submitted(s, a, d1, d2, b, blockno, write).reqs ==> RequestOk(Submitted(s, a, d1, d2, b, blockno, write), h)
  {
    hide Inc, Place, Ahead;
    RoomInAvail(s, a);
    assert DescOk(s, a) && DescOk(s, d1) && DescOk(s, d2);
    assert h in s.reqs ==> RequestOk(s, h);
  }

  lemma SubmittedKeeps(s: State, a: int, d1: int, d2: int, b: int, blockno: int, write: bool)
    requires Inv(s) && 0 <= a < NUM && 0 <= d1 < NUM && 0 <= d2 < NUM && s.free[a] && s.free[d1] && s.free[d2] && AllDifferent3([a, d1, d2])
    requires forall k {:trigger s.reqs[k]} :: k in s.reqs ==> s.reqs[k].b != b
    ensures Inv(Submitted(s, a, d1, d2, b, blockno, write))
  {
    hide RequestOk, DescOk, AvailOk, UsedOk, BuffersApart, Inc, Place, Ahead;
    RoomInAvail(s, a);
    RingPlace(s.takenIdx, |s.pending|, s.availIdx, 0);
    var t := Submitted(s, a, d1, d2, b, blockno, write);
    forall h | h in t.reqs
      ensures RequestOk(t, h)
    {
      SubmittedRequest(s, a, d1, d2, b, blockno, write, h);
    }
    forall i | 0 <= i < NUM
      ensures DescOk(t, i)
    {
      SubmittedDesc(s, a, d1, d2, b, blockno, write, i);
    }
    forall j | 0 <= j < |t.pending|
      ensures AvailOk(t, j)
    {
      SubmittedAvail(s, a, d1, d2, b, blockno, write, j);
    }
    forall j | 0 <= j < |t.done|
      ensures UsedOk(t, j)
    {
      SubmittedUsed(s, a, d1, d2, b, blockno, write, j);
    }
    forall h, k
      ensures BuffersApart(t, h, k)
    {
      assert BuffersApart(s, h, k);
      SubmittedApart(s, a, d1, d2, b, blockno, write, h, k);
    }
  }

  lemma SubmittedDesc(s: State, a: int, d1: int, d2: int, b: int, blockno: int, write: bool, i: int)
    requires Inv(s) && 0 <= a < NUM && 0 <= d1 < NUM && 0 <= d2 < NUM && s.free[a] && |s.pending| < NUM && 0 <= i < NUM
    ensures DescOk(Submitted(s, a, d1, d2, b, blockno, write), i)
  {
    hide Inc, Place, Ahead;
    RoomInAvail(s, a);
    assert DescOk(s, i);
  }

  lemma SubmittedAvail(s: State, a: int, d1: int, d2: int, b: int, blockno: int, write: bool, j: int)
    requires Inv(s) && 0 <= a < NUM && 0 <= d1 < NUM && 0 <= d2 < NUM && s.free[a] && |s.pending| < NUM && 0 <= j <= |s.pending|
    ensures AvailOk(Submitted(s, a, d1, d2, b, blockno, write), j)
  {
    hide Inc, Place, Ahead;
    RoomInAvail(s, a);
    RingPlace(s.takenIdx, |s.pending|, s.availIdx, j);
    assert j < |s.pending| ==> AvailOk(s, j);
  }

  lemma SubmittedUsed(s: State, a: int, d1: int, d2: int, b: int, blockno: int, write: bool, j: int)
    requires Inv(s) && 0 <= a < NUM && 0 <= d1 < NUM && 0 <= d2 < NUM && s.free[a] && |s.pending| < NUM && 0 <= j < |s.done|
    ensures UsedOk(Submitted(s, a, d1, d2, b, blockno, write), j)
  {
    hide Inc, Place, Ahead;
    RoomInAvail(s, a);
    assert UsedOk(s, j);
  }

  lemma SubmittedApart(s: State, a: int, d1: int, d2: int, b: int, blockno: int, write: bool, h: int, k: int)
    requires Shaped(s) && 0 <= a < NUM && 0 <= d1 < NUM && 0 <= d2 < NUM && BuffersApart(s, h, k)
    requires forall k {:trigger s.reqs[k]} :: k in s.reqs ==> s.reqs[k].b != b
    ensures BuffersApart(Submitted(s, a, d1, d2, b, blockno, write), h, k)
  {
  }

  /** The device takes the oldest announced request. */
  function Taken(s: State): State
    requires s.pending != [] && s.pending[0] in s.reqs && 0 <= s.takenIdx
  {
    var h := s.pending[0];
    s.(pending := s.pending[1..], takenIdx := Inc(s.takenIdx), reqs := s.reqs[h := s.reqs[h].(stage := Working)])
  }

  lemma TakenKeeps(s: State)
    requires Inv(s) && s.pending != []
    ensures s.pending[0] in s.reqs && Inv(Taken(s))
  {
    hide Inc, Place, Ahead;
    assert AvailOk(s, 0);
    RingNext(s.takenIdx, |s.pending|, s.availIdx, 0);
    var h, t := s.pending[0], Taken(s);
    forall k | k in t.reqs
      ensures RequestOk(t, k)
    {
      assert RequestOk(s, k) && RequestOk(s, h);
      HeadTail(s.pending, k);
    }
    forall i | 0 <= i < NUM
      ensures DescOk(t, i)
    {
      assert DescOk(s, i);
    }
    forall j | 0 <= j < |t.pending|
      ensures AvailOk(t, j)
    {
      assert AvailOk(s, j + 1);
      RingNext(s.takenIdx, |s.pending|, s.availIdx, j);
    }
    forall j | 0 <= j < |t.done|
      ensures UsedOk(t, j)
    {
      assert UsedOk(s, j);
    }
    forall k, l
      ensures BuffersApart(t, k, l)
    {
      assert BuffersApart(s, k, l);
    }
  }

  lemma HeadTail(q: seq<int>, k: int)
    requires q != [] && Distinct(q)
    ensures k in q[1..] <==> k in q && k != q[0]
  {
    assert q == [q[0]] + q[1..];
  }

  /** The device finishes a request it has: the status byte, then the used ring, then its index. */
  function Finished(s: State, h: int, status: int): State
    requires Shaped(s) && h in s.reqs && 0 <= h < NUM
  {
    s.(info := s.info[h := s.info[h].(status := status)], usedRing := s.usedRing[s.deviceIdx % NUM := h], deviceIdx := Inc(s.deviceIdx),
       done := s.done + [h], reqs := s.reqs[h := s.reqs[h].(stage := Used)])
  }

  lemma RoomInUsed(s: State, h: int)
    requires Inv(s) && h in s.reqs && s.reqs[h].stage.Working?
    ensures 0 <= h < NUM && |s.done| < NUM && h !in s.done && h !in s.pending
  {
    assert RequestOk(s, h);
    forall j | 0 <= j < |s.done|
      ensures s.done[j] != h && 0 <= s.done[j] < NUM
    {
      assert UsedOk(s, j) && RequestOk(s, s.done[j]);
    }
    Counting.Pigeonhole(s.done + [h], NUM);
  }

  lemma FinishedUsed(s: State, h: int, status: int, j: int)
    requires Inv(s) && h in s.reqs && s.reqs[h].stage.Working? && 0 <= h < NUM && |s.done| < NUM && 0 <= j <= |s.done|
    ensures Shaped(Finished(s, h, status)) && UsedOk(Finished(s, h, status), j)
  {
    hide Inc, Place, Ahead;
    RingPlace(s.usedIdx, |s.done|, s.deviceIdx, j);
    assert j < |s.done| ==> UsedOk(s, j);
  }

  lemma FinishedKeeps(s: State, h: int, status: int)
    requires Inv(s) && h in s.reqs && s.reqs[h].stage.Working?
    ensures 0 <= h < NUM && Inv(Finished(s, h, status))
  {
    hide Inc, Place, Ahead;
    RoomInUsed(s, h);
    RingPlace(s.usedIdx, |s.done|, s.deviceIdx, 0);
    var t := Finished(s, h, status);
    forall k | k in t.reqs
      ensures RequestOk(t, k)
    {
      assert RequestOk(s, k);
      assert k in t.done <==> k in s.done || k == h;
    }
    forall i | 0 <= i < NUM
      ensures DescOk(t, i)
    {
      assert DescOk(s, i);
    }
    forall j | 0 <= j < |t.pending|
      ensures AvailOk(t, j)
    {
      assert AvailOk(s, j);
    }
    forall j | 0 <= j < |t.done|
      ensures UsedOk(t, j)
    {
      FinishedUsed(s, h, status, j);
    }
    forall k, l
      ensures BuffersApart(t, k, l)
    {
      assert BuffersApart(s, k, l);
    }
  }

  /** virtio_disk_intr() has seen one used entry: that request's buffer, and no other, is released. */
  function Seen(s: State): State
    requires s.done != [] && s.done[0] in s.reqs && 0 <= s.usedIdx
  {
    var h := s.done[0];
    s.(busy := s.busy[s.reqs[h].b := false], usedIdx := Inc(s.usedIdx), done := s.done[1..], reqs := s.reqs[h := s.reqs[h].(stage := Over)])
  }

  lemma SeenKeeps(s: State)
    requires Inv(s) && s.done != []
    ensures s.done[0] in s.reqs && Inv(Seen(s))
  {
    hide Inc, Place, Ahead;
    assert UsedOk(s, 0);
    var h, t := s.done[0], Seen(s);
    RingNext(s.usedIdx, |s.done|, s.deviceIdx, 0);
    forall k | k in t.reqs
      ensures RequestOk(t, k)
    {
      assert RequestOk(s, k) && RequestOk(s, h) && BuffersApart(s, h, k);
      HeadTail(s.done, k);
    }
    forall i | 0 <= i < NUM
      ensures DescOk(t, i)
    {
      assert DescOk(s, i);
    }
    forall j | 0 <= j < |t.pending|
      ensures AvailOk(t, j)
    {
      assert AvailOk(s, j) && RequestOk(s, h);
    }
    forall j | 0 <= j < |t.done|
      ensures UsedOk(t, j)
    {
      assert UsedOk(s, j + 1);
      RingNext(s.usedIdx, |s.done|, s.deviceIdx, j);
    }
    forall k, l
      ensures BuffersApart(t, k, l)
    {
      assert BuffersApart(s, k, l);
    }
  }

  /** The end of virtio_disk_rw(): the chain's descriptors are free again. */
  function Returned(s: State, h: int): State
    requires Shaped(s) && h in s.reqs && 0 <= h < NUM && 0 <= s.reqs[h].d1 < NUM && 0 <= s.reqs[h].d2 < NUM
  {
    var r := s.reqs[h];
    s.(free := s.free[h := true][r.d1 := true][r.d2 := true], desc := s.desc[h := ZERO][r.d1 := ZERO][r.d2 := ZERO],
       info := s.info[h := s.info[h].(b := NONE)], reqs := s.reqs - {h}, chainOf := s.chainOf[h := NONE][r.d1 := NONE][r.d2 := NONE])
  }

  lemma ReturnedKeeps(s: State, h: int)
    requires Inv(s) && h in s.reqs && s.reqs[h].stage.Over?
    ensures 0 <= h < NUM && 0 <= s.reqs[h].d1 < NUM && 0 <= s.reqs[h].d2 < NUM && Inv(Returned(s, h))
  {
    hide Inc, Place, Ahead;
    assert RequestOk(s, h);
    var t := Returned(s, h);
    forall k | k in t.reqs
      ensures RequestOk(t, k)
    {
      assert RequestOk(s, k);
    }
    forall i | 0 <= i < NUM
      ensures DescOk(t, i)
    {
      assert DescOk(s, i);
    }
    forall j | 0 <= j < |t.pending|
      ensures AvailOk(t, j)
    {
      assert AvailOk(s, j);
    }
    forall j | 0 <= j < |t.done|
      ensures UsedOk(t, j)
    {
      assert UsedOk(s, j);
    }
    forall k, l
      ensures BuffersApart(t, k, l)
    {
      assert BuffersApart(s, k, l);
    }
  }

  class Disk {
    var free: seq<bool>
    var desc: seq<Desc>
    var info: seq<Info>
    var ops: seq<Command>
    var availRing: seq<int>
    var availIdx: int
    var takenIdx: int          // how far the device has looked
    var usedRing: seq<int>     // written by the device
    var deviceIdx: int         // used->idx, written by the device
    var usedIdx: int           // how far the driver has looked
    var busy: map<int, bool>   // b->disk of each buffer
    ghost var reqs: map<int, Request>
    ghost var chainOf: seq<int>
    ghost var pending: seq<int>
    ghost var done: seq<int>

    ghost function Now(): State
      reads this
    {
      State(free, desc, info, ops, availRing, availIdx, takenIdx, usedRing, deviceIdx, usedIdx, busy, reqs, chainOf, pending, done)
    }

    /** What holds whenever vdisk_lock is free. */
    ghost predicate Valid()
      reads this
    {
      Inv(Now())
    }

    ghost predicate Sized()
      reads this
    {
      |free| == NUM && |desc| == NUM
    }

    /** All descriptors free and both rings empty, as virtio_disk_init() leaves them. */
    constructor ()
      ensures Valid() && reqs == map[] && busy == map[]
    {
      free, desc, info, ops := seq(NUM, _ => true), seq(NUM, _ => ZERO), seq(NUM, _ => Info(NONE, 0)), seq(NUM, _ => Command(false, 0));
      availRing, availIdx, takenIdx, usedRing, deviceIdx, usedIdx := seq(NUM, _ => 0), 0, 0, seq(NUM, _ => 0), 0, 0;
      busy, reqs, chainOf, pending, done := map[], map[], seq(NUM, _ => NONE), [], [];
    }

    /** virtio_disk_rw() up to the wait for its request: false when it must sleep for descriptors. The
        caller holds the buffer, so no request for it is in flight. */
    method Submit(b: int, blockno: int, write: bool) returns (ok: bool, head: int)
      requires Valid() && forall h {:trigger reqs[h]} :: h in reqs ==> reqs[h].b != b
      modifies this
      ensures Valid() && (ok <==> |FreeSet(old(free))| >= 3)
      ensures !ok ==> reqs == old(reqs) && pending == old(pending) && done == old(done) && busy == old(busy)
      ensures ok ==>
        head in reqs && head !in old(reqs) && reqs == old(reqs)[head := reqs[head]] && reqs[head].b == b &&
          reqs[head].blockno == blockno && reqs[head].write == write
      ensures ok ==> pending == old(pending) + [head] && done == old(done) && b in busy && busy[b]
      ensures ok ==> 0 <= head < |ops| && ops[head].sector * 512 == blockno * 1024 && ops[head].out == write
    {
      hide Inv;
      ghost var s := Now();
      InvSizes(s);
      var idx;
      ok, idx := Alloc3Desc();
      if !ok {
        DescAside(s, Now());
        return false, NONE;
      }
      head := idx[0];
      RoomInAvail(s, head);
      SubmittedKeeps(s, idx[0], idx[1], idx[2], b, blockno, write);
      SectorBytes(blockno);
      Announce(idx, b, blockno, write, s);
      OpsOf(s, idx[0], idx[1], idx[2], b, blockno, write);
    }

    /** The descriptors formatted and the first of them put in the avail ring. */
    method Announce(idx: seq<int>, b: int, blockno: int, write: bool, ghost s: State)
      requires Shaped(s) && |idx| == 3 && (forall k :: 0 <= k < 3 ==> 0 <= idx[k] < NUM)
      requires Now() == s.(free := s.free[idx[0] := false][idx[1] := false][idx[2] := false])
      modifies this`ops, this`desc, this`busy, this`info, this`reqs, this`chainOf, this`availRing, this`availIdx, this`pending
      ensures Now() == Submitted(s, idx[0], idx[1], idx[2], b, blockno, write)
    {
      hide Inc, Shaped;
      ShapedFacts(s);
      ops := ops[idx[0] := Command(write, Sector(blockno))];
      Format(idx[0], idx[1], idx[2], b, write);
      Record(idx[0], idx[1], idx[2], b, blockno, write);
      Publish(idx[0]);
    }

    /** The head goes into the avail ring, and the ring's index past it. */
    method Publish(head: int)
      requires |availRing| == NUM && 0 <= availIdx
      modifies this`availRing, this`availIdx, this`pending
      ensures availRing == old(availRing)[old(availIdx) % NUM := head] && availIdx == Inc(old(availIdx)) && pending == old(pending) + [head]
    {
      availRing := availRing[availIdx % NUM := head];
      availIdx := Inc(availIdx);
      pending := pending + [head];
    }

    /** The three descriptors of a request. */
    method Format(a: int, d1: int, d2: int, b: int, write: bool)
      requires Sized() && 0 <= a < NUM && 0 <= d1 < NUM && 0 <= d2 < NUM
      modifies this`desc
      ensures desc == Chained(old(desc), a, d1, d2, b, write)
    {
      desc := desc[a := Desc(Header(a), HEADER_SIZE, true, false, d1)];
      desc := desc[d1 := Desc(Data(b), BSIZE, true, !write, d2)];
      desc := desc[d2 := Desc(StatusByte(a), 1, false, true, 0)];
    }

    /** The buffer is marked as the disk's, and info[] notes which buffer the chain is for and that its status is open. */
    method Record(a: int, d1: int, d2: int, b: int, blockno: int, write: bool)
      requires |info| == NUM == |chainOf| && 0 <= a < NUM && 0 <= d1 < NUM && 0 <= d2 < NUM
      modifies this`busy, this`info, this`reqs, this`chainOf
      ensures busy == old(busy)[b := true] && info == old(info)[a := Info(b, 0xff)] &&
        reqs == old(reqs)[a := Request(d1, d2, b, blockno, write, Pending)]
      ensures chainOf == old(chainOf)[a := a][d1 := a][d2 := a]
    {
      busy, info := busy[b := true], info[a := Info(b, 0xff)];
      reqs, chainOf := reqs[a := Request(d1, d2, b, blockno, write, Pending)], chainOf[a := a][d1 := a][d2 := a];
    }

    /** The device takes a request; what it finds in the ring is a head that was announced. */
    method DeviceTakes() returns (head: int)
      requires Valid() && pending != []
      modifies this`pending, this`reqs, this`takenIdx
      ensures Valid() && old(pending[0] in reqs) && head == old(pending[0]) && Now() == Taken(old(Now()))
    {
      TakenKeeps(Now());
      assert AvailOk(Now(), 0);
      head := availRing[takenIdx % NUM];
      takenIdx := Inc(takenIdx);
      reqs, pending := reqs[pending[0] := reqs[pending[0]].(stage := Working)], pending[1..];
    }

    /** The device finishes a request, in any order. */
    method DeviceFinishes(head: int, status: int)
      requires Valid() && head in reqs && reqs[head].stage.Working?
      modifies this`info, this`usedRing, this`deviceIdx, this`done, this`reqs
      ensures Valid() && 0 <= head < NUM && Now() == Finished(old(Now()), head, status)
    {
      hide Inc, Place, Ahead;
      FinishedKeeps(Now(), head, status);
      info := info[head := info[head].(status := status)];
      usedRing := usedRing[deviceIdx % NUM := head];
      deviceIdx := Inc(deviceIdx);
      done, reqs := done + [head], reqs[head := reqs[head].(stage := Used)];
    }

    /** virtio_disk_intr(): every finished request's buffer is released, unless one reports failure: that
        is a panic, and `panicked` says so. It happens exactly if the device has put a request with another
        status than 0 on the used ring. */
    method Interrupt() returns (panicked: bool)
      requires Valid()
      modifies this`busy, this`usedIdx, this`done, this`reqs
      ensures Valid() && reqs.Keys == old(reqs).Keys
      ensures panicked <==> old(SomeFailed(Now()))
      ensures !panicked ==> done == []
      ensures forall h {:trigger reqs[h]} :: h in reqs ==> Progress(old(reqs)[h], reqs[h])
      ensures !panicked ==> forall h {:trigger reqs[h]} :: h in reqs && old(reqs)[h].stage.Used? ==> reqs[h].stage.Over?
      ensures forall x {:trigger busy[x]} :: x in busy ==>
        x in old(busy) && (busy[x] == old(busy)[x] || (!busy[x] && CompletedFor(old(reqs), x)))
    {
      hide Inv, Ahead;
      ghost var s := Now();
      UsedEntries(s);
      while usedIdx != deviceIdx
        invariant Valid() && reqs.Keys == s.reqs.Keys && (usedIdx != deviceIdx <==> done != [])
        invariant SomeFailed(Now()) <==> SomeFailed(s)
        invariant forall h {:trigger reqs[h]} :: h in reqs ==> Progress(s.reqs[h], reqs[h])
        invariant forall x {:trigger busy[x]} :: x in busy ==>
          x in s.busy && (busy[x] == s.busy[x] || (!busy[x] && CompletedFor(s.reqs, x)))
        decreases |done|
      {
        ghost var before := Now();
        panicked := SeeOne(s);
        FailedTail(before);
        if panicked {
          return;
        }
        UsedEntries(Now());
      }
      NoneUsed(Now());
      panicked := false;
    }

    /** The loop body of virtio_disk_intr(). */
    method SeeOne(ghost s: State) returns (panicked: bool)
      requires Valid() && done != [] && reqs.Keys == s.reqs.Keys
      requires forall h {:trigger reqs[h]} :: h in reqs ==> Progress(s.reqs[h], reqs[h])
      modifies this`busy, this`usedIdx, this`done, this`reqs
      ensures panicked ==> Now() == old(Now())
      ensures panicked <==> old(Failed(Now(), done[0]))
      ensures !panicked ==> Valid() && old(done)[0] in old(reqs) && 0 <= old(usedIdx) && Now() == Seen(old(Now()))
      ensures reqs.Keys == s.reqs.Keys && forall h {:trigger reqs[h]} :: h in reqs ==> Progress(s.reqs[h], reqs[h])
      ensures !panicked ==> var b := old(reqs[done[0]]).b; busy == old(busy)[b := false] && b in old(busy) && CompletedFor(s.reqs, b)
    {
      hide Inv, Inc;
      SeenKeeps(Now());
      SeenFacts(Now());
      var id := usedRing[usedIdx % NUM];
      if info[id].status != 0 {
        return true;
      }
      panicked := false;
      var b := info[id].b;
      assert Progress(s.reqs[id], reqs[id]);
      busy := busy[b := false];
      usedIdx := Inc(usedIdx);
      reqs, done := reqs[id := reqs[id].(stage := Over)], done[1..];
    }

    /** virtio_disk_rw() after its wait: the request is forgotten and its chain freed. */
    method Finish(head: int)
      requires Valid() && head in reqs && reqs[head].stage.Over?
      modifies this
      ensures Valid() && reqs == old(reqs) - {head} && pending == old(pending) && done == old(done) && busy == old(busy)
      ensures var r := old(reqs[head]);
        |old(free)| == NUM && 0 <= head < NUM && 0 <= r.d1 < NUM && 0 <= r.d2 < NUM &&
          free == old(free)[head := true][r.d1 := true][r.d2 := true]
    {
      hide Inv;
      ghost var s, r := Now(), reqs[head];
      ChainFacts(s, head);
      ReturnedKeeps(s, head);
      info := info[head := info[head].(b := NONE)];
      FreeChain(head, r);
      chainOf := chainOf[head := NONE][r.d1 := NONE][r.d2 := NONE];
      reqs := reqs - {head};
      assert Now() == Returned(s, head);
    }

    /** free_chain(): it walks the chain's three links, freeing each, and panics on none. */
    method FreeChain(head: int, ghost r: Request)
      requires Sized() && 0 <= head < NUM && 0 <= r.d1 < NUM && 0 <= r.d2 < NUM && AllDifferent3([head, r.d1, r.d2])
      requires desc[head].next && desc[head].link == r.d1 && desc[r.d1].next && desc[r.d1].link == r.d2 && !desc[r.d2].next
      requires !free[head] && !free[r.d1] && !free[r.d2]
      modifies this`free, this`desc
      ensures free == old(free)[head := true][r.d1 := true][r.d2 := true]
      ensures desc == old(desc)[head := ZERO][r.d1 := ZERO][r.d2 := ZERO]
    {
      var i := head;
      ghost var step := 0;
      while true
        invariant 0 <= step <= 2 && Sized() && i == (if step == 0 then head else if step == 1 then r.d1 else r.d2)
        invariant free == (if step == 0 then old(free)
                           else if step == 1 then old(free)[head := true]
                           else old(free)[head := true][r.d1 := true])
        invariant desc == (if step == 0 then old(desc)
                           else if step == 1 then old(desc)[head := ZERO]
                           else old(desc)[head := ZERO][r.d1 := ZERO])
        decreases 2 - step
      {
        var flag, nxt := desc[i].next, desc[i].link;
        FreeDesc(i);
        if flag {
          i := nxt;
          step := step + 1;
        } else {
          break;
        }
      }
    }

    /** alloc_desc(): the lowest free descriptor, or -1. */
    method AllocDesc() returns (r: int)
      requires Sized()
      modifies this`free
      ensures Sized()
      ensures r == -1 <==> FreeSet(old(free)) == {}
      ensures r == -1 ==> free == old(free)
      ensures r != -1 ==> 0 <= r < NUM && old(free)[r] && free == old(free)[r := false] && forall i :: 0 <= i < r ==> !old(free)[i]
    {
      for i := 0 to NUM
        invariant forall j :: 0 <= j < i ==> !free[j]
        invariant free == old(free)
      {
        if free[i] {
          assert i in FreeSet(free);
          free := free[i := false];
          return i;
        }
      }
      FreeSetEmpty(free);
      r := -1;
    }

    /** free_desc(), on a descriptor in use: it panics on any other. */
    method FreeDesc(i: int)
      requires Sized() && 0 <= i < NUM && !free[i]
      modifies this`free, this`desc
      ensures free == old(free)[i := true] && desc == old(desc)[i := Desc(Nothing, 0, false, false, 0)]
    {
      desc := desc[i := ZERO];
      free := free[i := true];
    }

    /** alloc3_desc(): three different free descriptors, or none taken when fewer than three are free. */
    method Alloc3Desc() returns (ok: bool, idx: seq<int>)
      requires Sized()
      modifies this`free, this`desc
      ensures Sized() && (ok <==> |FreeSet(old(free))| >= 3)
      ensures !ok ==> free == old(free)
      ensures ok ==> |idx| == 3 && desc == old(desc) && AllDifferent3(idx)
      ensures ok ==> forall k :: 0 <= k < 3 ==> 0 <= idx[k] < NUM && old(free)[idx[k]]
      ensures ok ==> free == old(free)[idx[0] := false][idx[1] := false][idx[2] := false]
      ensures forall i {:trigger desc[i]} :: 0 <= i < NUM && !old(free)[i] ==> desc[i] == old(desc)[i]
    {
      idx := [];
      var a := AllocDesc();
      if a < 0 {
        return false, idx;
      }
      FreeSetLess(old(free), a);
      var b := AllocDesc();
      if b < 0 {
        FreeDesc(a);
        return false, idx;
      }
      FreeSetLess(old(free)[a := false], b);
      var c := AllocDesc();
      if c < 0 {
        FreeDesc(a);
        FreeDesc(b);
        return false, idx;
      }
      FreeSetLess(old(free)[a := false][b := false], c);
      idx := [a, b, c];
      ok := true;
    }
  }

  predicate AllDifferent3(idx: seq<int>)
    requires |idx| == 3
  {
    idx[0] != idx[1] && idx[0] != idx[2] && idx[1] != idx[2]
  }

  lemma ShapedFacts(s: State)
    requires Shaped(s)
    ensures |s.free| == |s.desc| == |s.info| == |s.ops| == |s.availRing| == |s.chainOf| == NUM && 0 <= s.availIdx
  {
  }

  lemma InvSizes(s: State)
    requires Inv(s)
    ensures Shaped(s)
  {
  }

  /** Descriptors not in a chain may hold anything. */
  lemma DescAside(s: State, t: State)
    requires Inv(s) && t == s.(desc := t.desc) && |t.desc| == NUM
    requires forall i {:trigger t.desc[i]} :: 0 <= i < NUM && !s.free[i] ==> t.desc[i] == s.desc[i]
    ensures Inv(t)
  {
    forall h | h in t.reqs
      ensures RequestOk(t, h)
    {
      assert RequestOk(s, h);
      assert DescOk(s, h) && DescOk(s, s.reqs[h].d1) && DescOk(s, s.reqs[h].d2);
    }
    forall i | 0 <= i < NUM
      ensures DescOk(t, i)
    {
      assert DescOk(s, i);
    }
    forall j | 0 <= j < |t.pending|
      ensures AvailOk(t, j)
    {
      assert AvailOk(s, j);
    }
    forall j | 0 <= j < |t.done|
      ensures UsedOk(t, j)
    {
      assert UsedOk(s, j);
    }
    forall k, l
      ensures BuffersApart(t, k, l)
    {
      assert BuffersApart(s, k, l);
    }
  }

  /** A request moves on to being over or stays as it was. */
  predicate Progress(r: Request, r': Request) {
    r' == r || (r.stage.Used? && r' == r.(stage := Over))
  }

  /** The device had finished a request for buffer x. */
  /** The device has reported a failure of request h. */
  predicate Failed(s: State, h: int) {
    0 <= h < |s.info| && s.info[h].status != 0
  }

  /** One of the requests on the used ring has failed. */
  predicate SomeFailed(s: State) {
    exists j {:trigger s.done[j]} :: 0 <= j < |s.done| && Failed(s, s.done[j])
  }

  lemma FailedTail(s: State)
    requires Inv(s) && s.done != []
    ensures s.done[0] in s.reqs && 0 <= s.usedIdx
    ensures SomeFailed(s) <==> Failed(s, s.done[0]) || SomeFailed(Seen(s))
  {
    assert UsedOk(s, 0);
    SeenFacts(s);
    if j :| 0 < j < |s.done| && Failed(s, s.done[j]) {
      assert Failed(Seen(s), Seen(s).done[j - 1]);
    }
    if j :| 0 <= j < |Seen(s).done| && Failed(Seen(s), Seen(s).done[j]) {
      assert Failed(s, s.done[j + 1]);
    }
  }

  predicate CompletedFor(reqs: map<int, Request>, x: int) {
    exists h {:trigger reqs[h]} :: h in reqs && reqs[h].b == x && reqs[h].stage.Used?
  }

  lemma SeenFacts(s: State)
    requires Inv(s) && s.done != [] && s.done[0] in s.reqs
    ensures Shaped(s) && 0 <= s.done[0] < NUM && s.usedRing[s.usedIdx % NUM] == s.done[0] && s.info[s.done[0]].b == s.reqs[s.done[0]].b
    ensures s.reqs[s.done[0]].stage.Used? && s.reqs[s.done[0]].b in s.busy
  {
    assert UsedOk(s, 0) && RequestOk(s, s.done[0]);
    RingNext(s.usedIdx, |s.done|, s.deviceIdx, 0);
  }

  lemma UsedEntries(s: State)
    requires Inv(s)
    ensures s.usedIdx != s.deviceIdx <==> s.done != []
  {
    RingEmpty(s.usedIdx, |s.done|, s.deviceIdx);
  }

  lemma NoneUsed(s: State)
    requires Inv(s) && s.done == []
    ensures forall h {:trigger s.reqs[h]} :: h in s.reqs ==> !s.reqs[h].stage.Used?
  {
    forall h | h in s.reqs
      ensures !s.reqs[h].stage.Used?
    {
      assert RequestOk(s, h);
    }
  }

  lemma ChainFacts(s: State, h: int)
    requires Inv(s) && h in s.reqs
    ensures var r := s.reqs[h];
      && Shaped(s) && 0 <= h < NUM && 0 <= r.d1 < NUM && 0 <= r.d2 < NUM && AllDifferent3([h, r.d1, r.d2])
      && s.desc[h].next && s.desc[h].link == r.d1 && s.desc[r.d1].next && s.desc[r.d1].link == r.d2 && !s.desc[r.d2].next
      && !s.free[h] && !s.free[r.d1] && !s.free[r.d2]
  {
    assert RequestOk(s, h);
    assert DescOk(s, h) && DescOk(s, s.reqs[h].d1) && DescOk(s, s.reqs[h].d2);
  }
}
