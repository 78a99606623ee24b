/** malloc(), free() and morecore() of user/umalloc.c over the heap's specification. */
module Malloc {
  import opened UserAllocator

  const HEADER := 16  // sizeof(Header)
  const NULL := 0

  /** The value an unsigned number has as an int. */
  function Trunc32(n: nat): (r: int)
    ensures -0x8000_0000 <= r < 0x8000_0000
  {
    var m := n % 0x1_0000_0000;
    if m < 0x8000_0000 then m else m - 0x1_0000_0000
  }

  /** Units asked for: the bytes rounded up, and one for the header. */
  function UnitsFor(nbytes: nat): (n: nat)
    ensures n >= 1 && (n - 1) * HEADER >= nbytes && (n - 1) * HEADER < nbytes + HEADER
  {
    (nbytes + HEADER - 1) / HEADER + 1
  }

  /** What morecore() takes: the units wanted, and never less than 4096 of them. */
  function Wanted(nu: nat): (r: nat)
    ensures nu <= r && 4096 <= r && (nu < r ==> r == 4096)
  {
    if nu < 4096 then 4096 else nu
  }

  /** sbrk() is asked for the right number of bytes exactly below 2^27 units: its argument is an int. */
  lemma SbrkArgument(nu: nat)
    requires 1 <= nu <= UnitsFor(0xffff_ffff)
    ensures Trunc32(Wanted(nu) * HEADER) == Wanted(nu) * HEADER <==> nu < 0x800_0000
  {
  }

  /** The size of a process after growproc(n) has succeeded: size and n are added as unsigned numbers, and a
      sum on the wrong side of the old size changes nothing. */
  function Resized(sz: nat, n: int): int {
    var sum := (sz + n) % 0x1_0000_0000;
    if (n > 0 && sum > sz) || (n < 0 && sum < sz) then sum else sz
  }

  /** A negative request takes what it says, or nothing at all if the process is smaller than that. */
  lemma NegativeSbrk(sz: nat, n: int)
    requires sz < 0x1_0000_0000 && -0x8000_0000 <= n < 0
    ensures Resized(sz, n) == if sz + n >= 0 then sz + n else sz
  {
  }

  /** A request of two gigabytes makes malloc() ask for -2147483648 bytes. For a process below two gigabytes
      sbrk() then succeeds and gives nothing, and malloc() goes on as if it had. */
  lemma SbrkGivesNothing(sz: nat)
    requires sz < 0x8000_0000
    ensures Trunc32(Wanted(UnitsFor(0x7fff_fff0)) * HEADER) == -0x8000_0000
    ensures Resized(sz, Trunc32(Wanted(UnitsFor(0x7fff_fff0)) * HEADER)) == sz
  {
    NegativeSbrk(sz, -0x8000_0000);
  }

  /** The node d steps after node s. */
  function Around(h: Heap, s: int, d: int): int
    requires 0 <= s < |h.order| && 0 <= d <= |h.order|
  {
    h.order[if s + d < |h.order| then s + d else s + d - |h.order|]
  }

  ghost predicate LargeAt(h: Heap, n: int, p: int) {
    p in h.hdr && h.hdr[p].size >= n
  }

  /** A node that is not base is a block nobody has. */
  lemma FreeBlock(h: Heap, j: int)
    requires Inv(h) && 1 <= j < |h.order|
    ensures h.order[j] in h.hdr && h.order[j] !in h.live
    ensures forall u :: h.order[j] <= u < h.order[j] + h.hdr[h.order[j]].size ==> u in h.home && h.home[u] == h.order[j]
  {
    var p := h.order[j];
    assert NodeOk(h, j) && IsBlock(h, p);
    assert p in h.live ==> LiveOk(h, p);
    forall u | p <= u < p + h.hdr[p].size
      ensures u in h.home && h.home[u] == p
    {
      assert Covers(h, p, u);
    }
  }

  lemma UnitsBound(nbytes: nat)
    requires nbytes <= 0xffff_ffff
    ensures 1 <= UnitsFor(nbytes) <= UnitsFor(0xffff_ffff)
  {
  }

  /** The list of one empty node that malloc() starts with. */
  lemma InitInv(base: int, hdr: map<int, Header>, top: int)
    requires 0 < base < top
    ensures Inv(Heap(base, hdr[base := Header(base, 0)], [base], map[], map[], top))
  {
  }

  lemma OnlyBase(h: Heap, n: int)
    requires h.order == [h.base] && h.base in h.hdr && h.hdr[h.base].size == 0 && n >= 1
    ensures !SomeFit(h, n)
  {
  }

  lemma FoundFits(h: Heap, n: int, s: int, d: int, found: bool)
    requires 0 <= s < |h.order| && 1 <= d <= |h.order| && (if found then LargeAt(h, n, Around(h, s, d)) else !SomeFit(h, n))
    ensures found <==> SomeFit(h, n)
  {
    var k := if s + d < |h.order| then s + d else s + d - |h.order|;
    assert found ==> Fits(h, n, k);
  }

  lemma ExtendedFacts(h: Heap, at: int, n: int)
    requires at !in h.live || at < h.top
    ensures var e := Extended(h, at, n); at in e.live && e.live[at] == n && e.top == at + n && e.order == h.order
    ensures at !in h.live ==> Extended(h, at, n).live - {at} == h.live
  {
  }

  lemma LessFits(h: Heap, n: int, m: int)
    requires SomeFit(h, n) && m <= n
    ensures SomeFit(h, m)
  {
    var k :| 0 <= k < |h.order| && Fits(h, n, k);
    assert Fits(h, m, k);
  }

  lemma AboveAll(h: Heap, at: int)
    requires Inv(h)
    ensures at >= h.top ==> at !in h.live
  {
    assert at in h.live ==> LiveOk(h, at);
  }

  /** A step along the list; a whole turn ends where it began. */
  lemma Step(h: Heap, s: int, d: int)
    requires Inv(h) && 0 <= s < |h.order| && 0 <= d <= |h.order|
    ensures Around(h, s, d) in h.hdr && (d < |h.order| ==> h.hdr[Around(h, s, d)].ptr == Around(h, s, d + 1))
    ensures Around(h, s, d) == h.order[s] <==> d == 0 || d == |h.order|
  {
    var j := if s + d < |h.order| then s + d else s + d - |h.order|;
    NodeFacts(h, j);
    Different(h.order, s, j);
  }

  /** A whole turn without a fit. */
  lemma NoneFits(h: Heap, n: int, s: int)
    requires 0 <= s < |h.order| && forall e {:trigger Around(h, s, e)} :: 1 <= e <= |h.order| ==> !LargeAt(h, n, Around(h, s, e))
    ensures !SomeFit(h, n)
  {
    forall k | 0 <= k < |h.order|
      ensures !Fits(h, n, k)
    {
      assert Around(h, s, if k > s then k - s else k - s + |h.order|) == h.order[k];
    }
  }

  /** The last node below bp. */
  ghost function PlaceOf(s: seq<int>, bp: int, n: nat): (i: int)
    requires 1 <= n <= |s| && s[0] < bp
    ensures 0 <= i < n && s[i] < bp && (i + 1 < n ==> bp <= s[i + 1])
  {
    if n == 1 || s[n - 1] < bp then n - 1 else PlaceOf(s, bp, n - 1)
  }

  /** Where the search of free() stops: between two nodes, or at either end of the memory. */
  lemma PlaceFound(h: Heap, i: int, bp: int)
    requires Inv(h) && bp in h.live && 0 <= i < |h.order| && h.order[i] in h.hdr
    requires var p, q := h.order[i], h.hdr[h.order[i]].ptr; (p < bp < q) || (p >= q && (bp > p || bp < q))
    ensures Place(h, i, bp) && h.order[i] < bp && (bp < h.hdr[h.order[i]].ptr || h.hdr[h.order[i]].ptr == h.base)
  {
    LiveFacts(h, bp);
    NodeFacts(h, i);
    NodeFacts(h, 0);
    Different(h.order, i, if i + 1 == |h.order| then 0 else i + 1);
    Different(h.order, 0, i);
  }

  class Allocator {
    const base: int
    var freep: int
    var hdr: map<int, Header>
    ghost var order: seq<int>
    ghost var live: map<int, int>
    ghost var home: map<int, int>
    ghost var top: int
    ghost var granted: set<int>  // the units sbrk() has really given

    ghost function Now(): Heap
      reads this
    {
      Heap(base, hdr, order, live, home, top)
    }

    /** The allocator's own view is consistent. */
    ghost predicate Sound()
      reads this
    {
      if freep == NULL then order == [] && live == map[] && home == map[] && 0 < base < top
      else Inv(Now()) && freep in order
    }

    /** It is, and the blocks tile exactly the memory sbrk() gave. */
    ghost predicate Valid()
      reads this
    {
      Sound() && home.Keys == granted
    }

    constructor (where: int, end: int)
      requires 0 < where < end
      ensures Valid() && freep == NULL && live == map[] && granted == {}
    {
      base, freep, hdr, order, live, home, top, granted := where, NULL, map[], [], map[], map[], end, {};
    }

    /** The search of free(): it ends at the node bp belongs behind. */
    method FindPlace(bp: int) returns (p: int, ghost i: int)
      requires Sound() && freep != NULL && bp in live
      ensures p in hdr && p < bp && (bp < hdr[p].ptr || hdr[p].ptr == base)
      ensures Place(Now(), i, bp) && order[i] == p
    {
      hide Tiled, Apart;
      ghost var h := Now();
      LiveFacts(h, bp);
      NodeFacts(h, 0);
      ghost var t := PlaceOf(order, bp, |order|);
      ghost var s :| 0 <= s < |order| && order[s] == freep;
      p, i := freep, s;
      NodeFacts(h, i);
      while !(bp > p && bp < hdr[p].ptr)
        invariant 0 <= i < |order| && order[i] == p && p in hdr && hdr[p].ptr == Next(h, i)
        decreases if i <= t then t - i else |order| + t - i
      {
        Different(order, i, if i + 1 == |order| then 0 else i + 1);
        Different(order, i, t);
        if p >= hdr[p].ptr && (bp > p || bp < hdr[p].ptr) {
          break;
        }
        p := hdr[p].ptr;
        i := if i + 1 == |order| then 0 else i + 1;
        NodeFacts(h, i);
      }
      PlaceFound(h, i, bp);
    }

    /** free(): the block goes back, joined to its neighbours. */
    method Free(ap: int)
      requires Sound() && freep != NULL && ap - 1 in live
      modifies this`freep, this`hdr, this`order, this`live, this`home
      ensures Sound() && freep != NULL && freep in order
      ensures live == old(live) - {ap - 1} && home.Keys == old(home).Keys && top == old(top)
      ensures ap - 1 in old(live) && SomeFit(Now(), old(live)[ap - 1]) && (old(Valid()) ==> Valid())
    {
      hide Tidy, Freed;
      var bp := ap - 1;
      ghost var h := Now();
      var p;
      ghost var i;
      p, i := FindPlace(bp);
      FreedTidy(h, i, bp);
      FreedFits(h, i, bp);
      Relink(p, bp, i);
      ghost var t := Freed(h, i, bp);
      order, live, home := t.order, t.live, t.home;
      freep := p;
      NodeFacts(h, i);
      assert Now() == t;
    }

    /** The loop of malloc() up to the node it started from: it goes d steps along the list from node s,
        freep, to the first node that is large enough, unless none is. */
    method Search(nunits: int) returns (found: bool, prevp: int, p: int, ghost s: int, ghost d: int)
      requires Sound() && freep != NULL && nunits >= 1
      ensures 0 <= s < |order| && order[s] == freep && 1 <= d <= |order| && p == Around(Now(), s, d) && prevp == Around(Now(), s, d - 1)
      ensures forall e {:trigger Around(Now(), s, e)} :: 1 <= e < d ==> !LargeAt(Now(), nunits, Around(Now(), s, e))
      ensures found ==> LargeAt(Now(), nunits, p)
      ensures !found ==> !SomeFit(Now(), nunits)
    {
      hide Inv, Around;
      ghost var h := Now();
      s :| 0 <= s < |order| && order[s] == freep;
      Step(h, s, 0);
      prevp, d := freep, 1;
      p := hdr[prevp].ptr;
      while true
        invariant 1 <= d <= |order| && p == Around(h, s, d) && prevp == Around(h, s, d - 1)
        invariant forall e {:trigger Around(h, s, e)} :: 1 <= e < d ==> !LargeAt(h, nunits, Around(h, s, e))
        decreases |order| - d
      {
        Step(h, s, d);
        if hdr[p].size >= nunits {
          return true, prevp, p, s, d;
        }
        if p == freep {
          NoneFits(h, nunits, s);
          return false, prevp, p, s, d;
        }
        prevp := p;
        p := hdr[p].ptr;
        d := d + 1;
      }
    }

    /** A node of exactly the size asked for is taken off the list. */
    method TakeWhole(prevp: int, p: int, ghost j: int)
      requires Inv(Now()) && 1 <= j < |order| && p == order[j] && prevp == order[j - 1]
      modifies this`hdr, this`order, this`live
      ensures prevp in old(hdr) && p in old(hdr) && Now() == Unlinked(old(Now()), j) && Inv(Now()) && order[j - 1] == prevp
    {
      hide Tidy;
      ghost var h := Now();
      UnlinkedTidy(h, j);
      hdr := hdr[prevp := Header(hdr[p].ptr, hdr[prevp].size)];
      order, live := Unlinked(h, j).order, Unlinked(h, j).live;
    }

    /** A larger node: its end is cut off. */
    method TakeEnd(p: int, nunits: int, ghost j: int) returns (b: int)
      requires Inv(Now()) && 1 <= j < |order| && p == order[j] && nunits >= 1 && p in hdr && nunits < hdr[p].size
      modifies this`hdr, this`live, this`home
      ensures Now() == Split(old(Now()), j, nunits) && Inv(Now()) && b == p + old(hdr)[p].size - nunits && b !in old(live)
    {
      hide Tidy;
      ghost var h := Now();
      SplitTidy(h, j, nunits);
      SplitPlace(h, j, p + hdr[p].size - nunits);
      hdr := hdr[p := Header(hdr[p].ptr, hdr[p].size - nunits)];
      b := p + hdr[p].size;
      hdr := hdr[b := Header(if b in hdr then hdr[b].ptr else 0, nunits)];
      live, home := Split(h, j, nunits).live, Split(h, j, nunits).home;
    }

    /** What malloc() does with the node it found: all of it, or its end, goes to the user. */
    method Take(prevp: int, p: int, nunits: int, ghost s: int, ghost d: int) returns (ap: int)
      requires Sound() && freep != NULL && nunits >= 1 && 0 <= s < |order| && 1 <= d <= |order|
      requires p == Around(Now(), s, d) && prevp == Around(Now(), s, d - 1) && LargeAt(Now(), nunits, p)
      modifies this`freep, this`hdr, this`order, this`live, this`home
      ensures Sound() && freep != NULL && home.Keys == old(home).Keys && top == old(top)
      ensures ap > 0 && ap - 1 !in old(live) && live == old(live)[ap - 1 := nunits]
      ensures ap - 1 in old(home) && old(home)[ap - 1] == p
    {
      hide Tidy;
      ghost var h := Now();
      ghost var j := if s + d < |order| then s + d else s + d - |order|;
      NodeFacts(h, j);
      NodeFacts(h, j - 1);
      FreeBlock(h, j);
      var b := p;
      if hdr[p].size == nunits {
        TakeWhole(prevp, p, j);
      } else {
        b := TakeEnd(p, nunits, j);
      }
      assert order[j - 1] == prevp;
      freep := prevp;
      ap := b + 1;
    }

    /** sbrk() of n bytes, the program break being at `at` before (-1: it is refused): memory from there
        on, or nothing and perhaps some taken back when n is negative. */
    ghost method Sbrk(n: int, at: int)
      requires at == -1 || at >= top
      modifies this`granted
      ensures at == -1 || n < 0 ==> granted <= old(granted)
      ensures at == -1 ==> granted == old(granted)
      ensures at != -1 && n >= 0 ==> granted == old(granted) + Units(at, n / HEADER)
    {
      if at != -1 {
        if n >= 0 {
          granted := granted + Units(at, n / HEADER);
        } else {
          var kept: set<int> :| kept <= granted;
          granted := kept;
        }
      }
    }

    /** morecore(): a new block of at least nu units, unless sbrk() refuses. */
    method Morecore(nu: nat, at: int) returns (r: int)
      requires Valid() && freep != NULL && 1 <= nu <= UnitsFor(0xffff_ffff) && (at == -1 || at >= top)
      modifies this
      ensures Sound() && freep != NULL && live == old(live)
      ensures at == -1 ==> r == NULL && Now() == old(Now()) && Valid()
      ensures at != -1 ==> r == freep && SomeFit(Now(), nu) && (Valid() <==> nu < 0x800_0000)
    {
      hide Inv, Extended, Trunc32, SomeFit;
      var n := Wanted(nu);
      AboveAll(Now(), at);
      ExtendedFacts(Now(), at, n);
      Sbrk(Trunc32(n * HEADER), at);
      if at == -1 {
        return NULL;
      }
      WriteBlock(at, n);
      GrantedRight(old(Now()), old(granted), granted, at, nu, n);
      Free(at + 1);
      LessFits(Now(), n, nu);
      r := freep;
    }

    /** morecore() writes the size of the new memory into its header. */
    method WriteBlock(at: int, n: nat)
      requires Sound() && freep != NULL && at >= top && n >= 1
      modifies this`hdr, this`live, this`home, this`top
      ensures Sound() && at !in old(live) && Now() == Extended(old(Now()), at, n)
    {
      hide Tidy;
      ghost var h := Now();
      ExtendedTidy(h, at, n);
      AboveAll(h, at);
      hdr := hdr[at := Header(if at in hdr then hdr[at].ptr else 0, n)];
      live, home, top := Extended(h, at, n).live, Extended(h, at, n).home, at + n;
    }

    /** malloc(): a block of the size asked for, cut from the first free block that is large enough; NULL
        exactly when there was none and sbrk() refused. `at` is what sbrk() will answer if asked. The
        blocks go on tiling what sbrk() gave unless it is asked for 2^27 units or more. */
    method Malloc(nbytes: nat, at: int) returns (ap: int)
      requires Valid() && nbytes <= 0xffff_ffff && (at == -1 || at >= top)
      modifies this
      ensures Sound() && freep != NULL
      ensures ap == NULL <==> at == -1 && !old(freep != NULL && SomeFit(Now(), UnitsFor(nbytes)))
      ensures ap == NULL ==> live == old(live)
      ensures ap != NULL ==> ap > 0 && ap - 1 !in old(live) && live == old(live)[ap - 1 := UnitsFor(nbytes)]
      ensures Valid() <==> UnitsFor(nbytes) < 0x800_0000 || at == -1 || old(freep != NULL && SomeFit(Now(), UnitsFor(nbytes)))
    {
      hide Inv, SomeFit, UnitsFor;
      var nunits := UnitsFor(nbytes);
      UnitsBound(nbytes);
      if freep == NULL {
        InitInv(base, hdr, top);
        hdr := hdr[base := Header(base, 0)];
        order := [base];
        freep := base;
        OnlyBase(Now(), nunits);
      }
      ghost var ready := Now();
      var found, prevp, p;
      ghost var s, d;
      found, prevp, p, s, d := Search(nunits);
      FoundFits(ready, nunits, s, d, found);
      if !found {
        p := Morecore(nunits, at);
        if p == NULL {
          return NULL;
        }
        found, prevp, p, s, d := Search(nunits);
      }
      ap := Take(prevp, p, nunits, s, d);
    }

    /** The stores of free(). */
    method Relink(p: int, bp: int, ghost i: int)
      requires Inv(Now()) && bp in live && Place(Now(), i, bp) && order[i] == p
      modifies this`hdr
      ensures p in old(hdr) && bp in old(hdr) && hdr == Freed(old(Now()), i, bp).hdr
    {
      hide Tidy;
      ghost var h := Now();
      LiveFacts(h, bp);
      NodeFacts(h, i);
      NodeFacts(h, 0);
      if i + 1 < |order| {
        NodeFacts(h, i + 1);
      }
      FreedHeaders(h, i, bp);
      if bp + hdr[bp].size == hdr[p].ptr {
        hdr := hdr[bp := Header(hdr[hdr[p].ptr].ptr, hdr[bp].size + hdr[hdr[p].ptr].size)];
      } else {
        hdr := hdr[bp := Header(hdr[p].ptr, hdr[bp].size)];
      }
      if p + hdr[p].size == bp {
        hdr := hdr[p := Header(hdr[bp].ptr, hdr[p].size + hdr[bp].size)];
      } else {
        hdr := hdr[p := Header(bp, hdr[p].size)];
      }
    }
  }

  /** The headers free() should leave, by the four ways a block can have free neighbours. */
  lemma FreedHeaders(h: Heap, i: int, bp: int)
    requires Inv(h) && bp in h.live && Place(h, i, bp)
    ensures h.order[i] in h.hdr && bp in h.hdr && Next(h, i) in h.hdr
    ensures var p, q := h.order[i], Next(h, i);
      var up, down := bp + h.hdr[bp].size == q, p + h.hdr[p].size == bp;
      var b := if up then Header(h.hdr[q].ptr, h.hdr[bp].size + h.hdr[q].size) else Header(q, h.hdr[bp].size);
      Freed(h, i, bp).hdr == h.hdr[bp := b][p := if down then Header(b.ptr, h.hdr[p].size + b.size) else Header(bp, h.hdr[p].size)]
  {
    hide Tidy;
    LiveFacts(h, bp);
    NodeFacts(h, 0);
    NodeFacts(h, i);
    if i + 1 < |h.order| {
      NodeFacts(h, i + 1);
    }
    var t := Inserted(h, i, bp);
    assert t.order[i] == h.order[i] && t.order[i + 1] == bp && (i + 1 < |h.order| ==> t.order[i + 2] == h.order[i + 1]);
    var u := Closed(t, i + 1);
    assert Touches(t, i + 1) <==> bp + h.hdr[bp].size == Next(h, i);
    assert u.order[i] == h.order[i] && u.order[i + 1] == bp;
    assert Touches(u, i) <==> h.order[i] + h.hdr[h.order[i]].size == bp;
  }

  /** The new block is what sbrk() gave exactly when the byte count survived as an int. */
  lemma GrantedRight(h: Heap, was: set<int>, now: set<int>, at: int, nu: nat, n: nat)
    requires Inv(h) && h.home.Keys == was && at >= h.top && 1 <= nu <= UnitsFor(0xffff_ffff) && n == Wanted(nu)
    requires var m := Trunc32(n * HEADER); if m < 0 then now <= was else now == was + Units(at, m / HEADER)
    ensures Extended(h, at, n).home.Keys == now <==> nu < 0x800_0000
  {
    SbrkArgument(nu);
    var e := Extended(h, at, n);
    if nu < 0x800_0000 {
      assert e.home.Keys == was + Units(at, n);
    } else {
      var u := at + n - 1;
      assert u in e.home.Keys;
      if u in h.home {
        assert UnitOk(h, u);
        Blocks(h, 0, 0, h.home[u]);
      }
      assert u !in now;
    }
  }

  /** What is freed can be had again: a block of the size of one just freed, or smaller, is there without sbrk(). */
  method FreeThenMalloc(a: Allocator, ap: int, nbytes: nat) returns (p: int)
    requires a.Valid() && a.freep != NULL && ap - 1 in a.live && nbytes <= 0xffff_ffff
    requires nbytes + HEADER <= a.live[ap - 1] * HEADER
    modifies a
    ensures a.Sound() && p != NULL && p - 1 in a.live && (a.live[p - 1] - 1) * HEADER >= nbytes
  {
    hide SomeFit, Inv;
    RoomFor(nbytes, a.live[ap - 1]);
    a.Free(ap);
    LessFits(a.Now(), old(a.live)[ap - 1], UnitsFor(nbytes));
    p := a.Malloc(nbytes, -1);
  }

  /** A block of n units has room for its header and the bytes asked for. */
  lemma RoomFor(nbytes: nat, n: int)
    requires nbytes + HEADER <= n * HEADER
    ensures UnitsFor(nbytes) <= n
  {
  }
}
