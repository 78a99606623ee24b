/** The K&R allocator (user/umalloc.c). Addresses count Header units of sixteen bytes; `base` lies in the
    program's data, below every address sbrk() returns. */
module UserAllocator {
  import opened Sequences

  /** union header: the link and the size in units. The word pair in front of every block is one. */
  datatype Header = Header(ptr: int, size: int)

  /** The allocator's memory. `order` is the free list from base on, `live` the size of each block in the
      user's hands, `home` the block each unit taken from sbrk() belongs to, `top` the end of that memory. */
  datatype Heap = Heap(base: int, hdr: map<int, Header>, order: seq<int>, live: map<int, int>, home: map<int, int>, top: int)

  // ---- Sequences without slices in the way ----

  function InsertAt(s: seq<int>, i: int, x: int): (r: seq<int>)
    requires 0 <= i <= |s|
    ensures |r| == |s| + 1
    ensures forall k :: 0 <= k < |r| ==> r[k] == if k < i then s[k] else if k == i then x else s[k - 1]
  {
    s[..i] + [x] + s[i..]
  }

  predicate Ascending(s: seq<int>) {
    forall i, j :: 0 <= i < j < |s| ==> s[i] < s[j]
  }

  lemma InsertAscending(s: seq<int>, i: int, x: int)
    requires Ascending(s) && 0 <= i < |s| && s[i] < x && (i + 1 < |s| ==> x < s[i + 1])
    ensures Ascending(InsertAt(s, i + 1, x))
  {
    assert forall j :: 0 <= j <= i ==> s[j] < x;
    assert forall j :: i < j < |s| ==> x < s[j];
  }

  lemma InInserted(s: seq<int>, i: int, x: int, y: int)
    requires 0 <= i <= |s|
    ensures y in InsertAt(s, i, x) <==> y in s || y == x
  {
    var r := InsertAt(s, i, x);
    assert r[i] == x;
    if k :| 0 <= k < |s| && s[k] == y {
      assert r[if k < i then k else k + 1] == y;
    }
  }

  lemma InRemoved(s: seq<int>, i: int, y: int)
    requires 0 <= i < |s| && Ascending(s)
    ensures y in RemoveAt(s, i) <==> y in s && y != s[i]
  {
    var r := RemoveAt(s, i);
    if k :| 0 <= k < |s| && s[k] == y && y != s[i] {
      assert r[if k < i then k else k - 1] == y;
    }
  }

  // ---- The invariant ----

  predicate IsBlock(h: Heap, b: int) {
    b in h.live || (b in h.order && b != h.base)
  }

  function Next(h: Heap, i: int): int
    requires 0 <= i < |h.order|
  {
    h.order[if i + 1 == |h.order| then 0 else i + 1]
  }

  /** The list is linked in address order, with one wrap back to base; base is empty and no block is. */
  predicate NodeOk(h: Heap, i: int)
    requires 0 <= i < |h.order|
  {
    var b := h.order[i];
    && b in h.hdr && h.hdr[b].ptr == Next(h, i)
    && (if i == 0 then b == h.base && h.hdr[b].size == 0 else b > h.base && h.hdr[b].size >= 1 && b + h.hdr[b].size <= h.top)
  }

  /** A free block ends before the next begins: strictly, unless the gap may still be closed. */
  predicate Apart(h: Heap, i: int, x: int, y: int)
    requires 1 <= i && i + 1 < |h.order| && h.order[i] in h.hdr
  {
    var end := h.order[i] + h.hdr[h.order[i]].size;
    if i == x || i == y then end <= h.order[i + 1] else end < h.order[i + 1]
  }

  predicate LiveOk(h: Heap, b: int)
    requires b in h.live
  {
    b in h.hdr && h.hdr[b].size == h.live[b] >= 1 && b > h.base && b !in h.order && b + h.live[b] <= h.top
  }

  /** Each unit is in the block it is said to be in. */
  predicate UnitOk(h: Heap, u: int)
    requires u in h.home
  {
    IsBlock(h, h.home[u]) && h.home[u] in h.hdr && h.home[u] <= u < h.home[u] + h.hdr[h.home[u]].size
  }

  /** Each unit of a block is in no other. */
  predicate Covers(h: Heap, b: int, u: int) {
    IsBlock(h, b) && b in h.hdr && b <= u < b + h.hdr[b].size ==> u in h.home && h.home[u] == b
  }

  ghost predicate Listed(h: Heap, x: int, y: int) {
    && |h.order| >= 1 && h.base > 0 && h.base < h.top
    && (forall i {:trigger NodeOk(h, i)} :: 0 <= i < |h.order| ==> NodeOk(h, i))
    && Ascending(h.order)
    && (forall i {:trigger Apart(h, i, x, y)} :: 1 <= i && i + 1 < |h.order| ==> h.order[i] in h.hdr && Apart(h, i, x, y))
  }

  ghost predicate Tiled(h: Heap) {
    && (forall b {:trigger LiveOk(h, b)} :: b in h.live ==> LiveOk(h, b))
    && (forall u {:trigger UnitOk(h, u)} :: u in h.home ==> UnitOk(h, u))
    && (forall b, u {:trigger Covers(h, b, u)} :: Covers(h, b, u))
  }

  ghost predicate Tidy(h: Heap, x: int, y: int) {
    Listed(h, x, y) && Tiled(h)
  }

  /** The free list is circular with one wrap and address-ordered, free and live blocks tile the memory
      taken from sbrk(), and no two free blocks touch. */
  ghost predicate Inv(h: Heap) {
    Tidy(h, 0, 0)
  }

  // ---- free() ----

  /** Two blocks do not overlap. */
  lemma Disjoint(h: Heap, x: int, y: int, a: int, b: int)
    requires Tidy(h, x, y) && IsBlock(h, a) && IsBlock(h, b) && a in h.hdr && b in h.hdr && a < b && h.hdr[b].size >= 1
    ensures a + h.hdr[a].size <= b
  {
    assert Covers(h, a, b) && Covers(h, b, b);
  }

  lemma Blocks(h: Heap, x: int, y: int, b: int)
    requires Tidy(h, x, y) && IsBlock(h, b)
    ensures b in h.hdr && h.hdr[b].size >= 1 && b > h.base && b + h.hdr[b].size <= h.top
  {
    if b in h.live {
      assert LiveOk(h, b);
    } else {
      var i :| 0 <= i < |h.order| && h.order[i] == b;
      assert NodeOk(h, i);
    }
  }

  /** The block bp put on the list behind node i. */
  function Inserted(h: Heap, i: int, bp: int): Heap
    requires 0 <= i < |h.order| && bp in h.hdr && h.order[i] in h.hdr
  {
    var p := h.order[i];
    h.(order := InsertAt(h.order, i + 1, bp), live := h.live - {bp},
       hdr := h.hdr[bp := Header(h.hdr[p].ptr, h.hdr[bp].size)][p := Header(bp, h.hdr[p].size)])
  }

  /** i is where free() stops its search: bp belongs right behind node i. */
  predicate Place(h: Heap, i: int, bp: int) {
    0 <= i < |h.order| && h.order[i] < bp && (i + 1 < |h.order| ==> bp < h.order[i + 1])
  }

  lemma InsertedTidy(h: Heap, i: int, bp: int)
    requires Inv(h) && bp in h.live && Place(h, i, bp)
    ensures h.order[i] in h.hdr && bp in h.hdr
    ensures Tidy(Inserted(h, i, bp), i, i + 1)
  {
    assert LiveOk(h, bp) && NodeOk(h, i);
    InsertedListed(h, i, bp);
    InsertedTiled(h, i, bp);
  }

  lemma InsertedNode(h: Heap, i: int, bp: int, k: int)
    requires Inv(h) && bp in h.live && Place(h, i, bp) && h.order[i] in h.hdr && bp in h.hdr && 0 <= k <= |h.order|
    ensures NodeOk(Inserted(h, i, bp), k)
  {
    hide Tiled, Apart, Ascending;
    LiveFacts(h, bp);
    var j := if k <= i then k else k - 1;
    Different(h.order, i, j);
    assert NodeOk(h, i) && NodeOk(h, j);
    assert h.order[j] != bp;
  }

  lemma LiveFacts(h: Heap, b: int)
    requires Inv(h) && b in h.live
    ensures b in h.hdr && h.hdr[b].size == h.live[b] >= 1 && b > h.base && b !in h.order && b + h.hdr[b].size <= h.top
  {
    assert LiveOk(h, b);
  }

  lemma Different(s: seq<int>, i: int, j: int)
    requires Ascending(s) && 0 <= i < |s| && 0 <= j < |s|
    ensures s[i] == s[j] <==> i == j
    ensures i < j ==> s[i] < s[j]
  {
  }

  lemma InsertedListed(h: Heap, i: int, bp: int)
    requires Inv(h) && bp in h.live && Place(h, i, bp) && h.order[i] in h.hdr && bp in h.hdr
    ensures Listed(Inserted(h, i, bp), i, i + 1)
  {
    hide Apart, Ascending, NodeOk;
    var t := Inserted(h, i, bp);
    InsertAscending(h.order, i, bp);
    assert t.order == InsertAt(h.order, i + 1, bp) && |t.order| == |h.order| + 1;
    forall k | 0 <= k < |t.order|
      ensures NodeOk(t, k)
    {
      InsertedNode(h, i, bp, k);
    }
    forall k | 1 <= k && k + 1 < |t.order|
      ensures t.order[k] in t.hdr && Apart(t, k, i, i + 1)
    {
      InsertedApart(h, i, bp, k);
    }
  }

  lemma InsertedTiled(h: Heap, i: int, bp: int)
    requires Inv(h) && bp in h.live && Place(h, i, bp) && h.order[i] in h.hdr && bp in h.hdr
    ensures Tiled(Inserted(h, i, bp))
  {
    hide Apart, InsertAt;
    assert LiveOk(h, bp) && NodeOk(h, i);
    var t := Inserted(h, i, bp);
    forall b
      ensures b in t.order <==> b in h.order || b == bp
    {
      InInserted(h.order, i + 1, bp, b);
    }
    forall b | b in t.live
      ensures LiveOk(t, b)
    {
      assert LiveOk(h, b);
    }
    forall u | u in t.home
      ensures UnitOk(t, u)
    {
      assert UnitOk(h, u);
    }
    forall b, u
      ensures Covers(t, b, u)
    {
      assert Covers(h, b, u);
    }
  }

  lemma InsertedApart(h: Heap, i: int, bp: int, k: int)
    requires Inv(h) && bp in h.live && Place(h, i, bp) && h.order[i] in h.hdr && bp in h.hdr
    requires 1 <= k && k + 1 < |h.order| + 1
    ensures var t := Inserted(h, i, bp); t.order[k] in t.hdr && Apart(t, k, i, i + 1)
  {
    assert LiveOk(h, bp);
    if k < i {
      assert NodeOk(h, k) && Apart(h, k, 0, 0);
    } else if k == i {
      assert NodeOk(h, i);
      Disjoint(h, 0, 0, h.order[i], bp);
    } else if k == i + 1 {
      assert NodeOk(h, i + 1);
      Disjoint(h, 0, 0, bp, h.order[i + 1]);
    } else {
      assert NodeOk(h, k - 1) && Apart(h, k - 1, 0, 0);
    }
  }

  /** Node k absorbs the node after it. */
  function Merged(h: Heap, k: int): Heap
    requires 0 <= k && k + 1 < |h.order| && h.order[k] in h.hdr && h.order[k + 1] in h.hdr
  {
    var a, b := h.order[k], h.order[k + 1];
    h.(order := RemoveAt(h.order, k + 1), hdr := h.hdr[a := Header(h.hdr[b].ptr, h.hdr[a].size + h.hdr[b].size)],
       home := map u | u in h.home :: if h.home[u] == b then a else h.home[u])
  }

  lemma MergedTidy(h: Heap, k: int, y: int)
    requires Tidy(h, k, y) && 1 <= k && k + 1 < |h.order| && (y == k - 1 || y == 0)
    requires h.order[k] in h.hdr && h.order[k] + h.hdr[h.order[k]].size == h.order[k + 1]
    ensures h.order[k + 1] in h.hdr
    ensures Tidy(Merged(h, k), y, y)
  {
    assert NodeOk(h, k + 1);
    MergedListed(h, k, y);
    MergedTiled(h, k, y);
  }

  lemma MergedNode(h: Heap, k: int, y: int, i: int)
    requires Tidy(h, k, y) && 1 <= k && k + 1 < |h.order| && h.order[k] in h.hdr && h.order[k + 1] in h.hdr
    requires h.order[k] + h.hdr[h.order[k]].size == h.order[k + 1] && 0 <= i < |h.order| - 1
    ensures NodeOk(Merged(h, k), i)
  {
    hide Tiled, Apart, Ascending;
    var j := if i <= k then i else i + 1;
    Different(h.order, k, j);
    assert NodeOk(h, k) && NodeOk(h, k + 1) && NodeOk(h, j);
  }

  lemma RemoveAscending(s: seq<int>, i: int)
    requires Ascending(s) && 0 <= i < |s|
    ensures Ascending(RemoveAt(s, i))
  {
  }

  lemma MergedListed(h: Heap, k: int, y: int)
    requires Tidy(h, k, y) && 1 <= k && k + 1 < |h.order| && (y == k - 1 || y == 0)
    requires h.order[k] in h.hdr && h.order[k + 1] in h.hdr && h.order[k] + h.hdr[h.order[k]].size == h.order[k + 1]
    ensures Listed(Merged(h, k), y, y)
  {
    hide Apart, Tiled, Ascending, NodeOk;
    var t := Merged(h, k);
    RemoveAscending(h.order, k + 1);
    forall i | 0 <= i < |t.order|
      ensures NodeOk(t, i)
    {
      MergedNode(h, k, y, i);
    }
    forall i | 1 <= i && i + 1 < |t.order|
      ensures t.order[i] in t.hdr && Apart(t, i, y, y)
    {
      MergedApart(h, k, y, i);
    }
  }

  lemma MergedTiled(h: Heap, k: int, y: int)
    requires Tidy(h, k, y) && 1 <= k && k + 1 < |h.order|
    requires h.order[k] in h.hdr && h.order[k + 1] in h.hdr && h.order[k] + h.hdr[h.order[k]].size == h.order[k + 1]
    ensures Tiled(Merged(h, k))
  {
    hide Apart, RemoveAt;
    var a, b := h.order[k], h.order[k + 1];
    assert NodeOk(h, k) && NodeOk(h, k + 1);
    var t := Merged(h, k);
    forall c
      ensures c in t.order <==> c in h.order && c != b
    {
      InRemoved(h.order, k + 1, c);
    }
    forall c | c in t.live
      ensures LiveOk(t, c)
    {
      assert LiveOk(h, c);
    }
    forall u | u in t.home
      ensures UnitOk(t, u)
    {
      assert UnitOk(h, u);
    }
    forall c, u
      ensures Covers(t, c, u)
    {
      assert IsBlock(h, a) && IsBlock(h, b);
      assert b in h.live ==> LiveOk(h, b);
      assert Covers(h, c, u) && Covers(h, b, u);
    }
  }

  lemma MergedApart(h: Heap, k: int, y: int, i: int)
    requires Tidy(h, k, y) && 1 <= k && k + 1 < |h.order| && (y == k - 1 || y == 0)
    requires h.order[k] in h.hdr && h.order[k + 1] in h.hdr && h.order[k] + h.hdr[h.order[k]].size == h.order[k + 1]
    requires 1 <= i && i + 1 < |h.order| - 1
    ensures var t := Merged(h, k); t.order[i] in t.hdr && Apart(t, i, y, y)
  {
    if i < k {
      assert NodeOk(h, i) && Apart(h, i, k, y);
    } else {
      assert NodeOk(h, i + 1) && Apart(h, i + 1, k, y);
    }
  }

  predicate Touches(h: Heap, k: int) {
    1 <= k && k + 1 < |h.order| && h.order[k] in h.hdr && h.order[k] + h.hdr[h.order[k]].size == h.order[k + 1] && h.order[k + 1] in h.hdr
  }

  function Closed(h: Heap, k: int): Heap {
    if Touches(h, k) then Merged(h, k) else h
  }

  /** free() of bp behind node i: on the list, then joined to the block above and to the block below. */
  function Freed(h: Heap, i: int, bp: int): Heap
    requires 0 <= i < |h.order| && bp in h.hdr && h.order[i] in h.hdr
  {
    Closed(Closed(Inserted(h, i, bp), i + 1), i)
  }

  lemma NotLoose(h: Heap, x: int, y: int, z: int)
    requires Tidy(h, x, y) && !Touches(h, x) && (z == y || z == 0)
    requires x != y ==> z == y
    ensures Tidy(h, z, z)
  {
    forall i | 1 <= i && i + 1 < |h.order|
      ensures h.order[i] in h.hdr && Apart(h, i, z, z)
    {
      assert NodeOk(h, i) && NodeOk(h, i + 1) && Apart(h, i, x, y);
    }
  }

  /** free() keeps the invariant and the memory, and gives up exactly the block it was given. */
  lemma FreedTidy(h: Heap, i: int, bp: int)
    requires Inv(h) && bp in h.live && Place(h, i, bp)
    ensures h.order[i] in h.hdr && bp in h.hdr
    ensures var t := Freed(h, i, bp);
      && Inv(t) && t.live == h.live - {bp} && t.home.Keys == h.home.Keys && t.top == h.top && t.base == h.base
      && i < |t.order| && t.order[i] == h.order[i]
  {
    hide Tidy;
    InsertedTidy(h, i, bp);
    var t := Inserted(h, i, bp);
    assert Tidy(t, i + 1, i) by { TidySwap(t, i, i + 1); }
    var u := Closed(t, i + 1);
    if Touches(t, i + 1) {
      MergedTidy(t, i + 1, i);
    } else {
      NotLoose(t, i + 1, i, i);
    }
    if Touches(u, i) {
      TidyLess(u, i);
      MergedTidy(u, i, 0);
    } else {
      NotLoose(u, i, i, 0);
    }
  }

  lemma TidySwap(h: Heap, x: int, y: int)
    requires Tidy(h, x, y)
    ensures Tidy(h, y, x)
  {
    forall i | 1 <= i && i + 1 < |h.order|
      ensures h.order[i] in h.hdr && Apart(h, i, y, x)
    {
      assert NodeOk(h, i) && Apart(h, i, x, y);
    }
  }

  lemma TidyLess(h: Heap, x: int)
    requires Tidy(h, x, x)
    ensures Tidy(h, x, 0)
  {
    forall i | 1 <= i && i + 1 < |h.order|
      ensures h.order[i] in h.hdr && Apart(h, i, x, 0)
    {
      assert NodeOk(h, i) && Apart(h, i, x, x);
    }
  }

  ghost predicate Fits(h: Heap, n: int, k: int) {
    0 <= k < |h.order| && h.order[k] in h.hdr && h.hdr[h.order[k]].size >= n
  }

  ghost predicate SomeFit(h: Heap, n: int) {
    exists k {:trigger Fits(h, n, k)} :: 0 <= k < |h.order| && Fits(h, n, k)
  }

  lemma NodeFacts(h: Heap, i: int)
    requires Inv(h) && 0 <= i < |h.order|
    ensures h.order[i] in h.hdr && h.hdr[h.order[i]].size >= 0 && h.hdr[h.order[i]].ptr == Next(h, i)
    ensures i == 0 <==> h.order[i] == h.base
    ensures i == 0 ==> h.hdr[h.order[i]].size == 0
    ensures h.order[i] >= h.base > 0
  {
    assert NodeOk(h, i);
  }

  /** After free() some free block is at least as large as the block given up. */
  lemma FreedFits(h: Heap, i: int, bp: int)
    requires Inv(h) && bp in h.live && Place(h, i, bp)
    ensures h.order[i] in h.hdr && bp in h.hdr
    ensures SomeFit(Freed(h, i, bp), h.live[bp])
  {
    hide Tidy, Listed, Tiled;
    LiveFacts(h, bp);
    NodeFacts(h, i);
    if i + 1 < |h.order| {
      NodeFacts(h, i + 1);
    }
    var a, t := Inserted(h, i, bp), Freed(h, i, bp);
    var u := Closed(a, i + 1);
    assert u.order[i + 1] == bp && u.hdr[bp].size >= h.live[bp];
    if Touches(u, i) {
      assert Fits(t, h.live[bp], i);
    } else {
      assert Fits(t, h.live[bp], i + 1);
    }
  }

  // ---- malloc() ----

  /** Node j, which fits exactly, goes to the user. */
  function Unlinked(h: Heap, j: int): Heap
    requires 1 <= j < |h.order| && h.order[j] in h.hdr && h.order[j - 1] in h.hdr
  {
    var q, p := h.order[j - 1], h.order[j];
    h.(order := RemoveAt(h.order, j), hdr := h.hdr[q := Header(h.hdr[p].ptr, h.hdr[q].size)], live := h.live[p := h.hdr[p].size])
  }

  lemma UnlinkedNode(h: Heap, j: int, i: int)
    requires Inv(h) && 1 <= j < |h.order| && h.order[j] in h.hdr && h.order[j - 1] in h.hdr && 0 <= i < |h.order| - 1
    ensures NodeOk(Unlinked(h, j), i)
  {
    hide Tiled, Apart, Ascending;
    var k := if i < j then i else i + 1;
    Different(h.order, j - 1, k);
    assert NodeOk(h, k) && NodeOk(h, j) && NodeOk(h, j - 1);
  }

  lemma UnlinkedApart(h: Heap, j: int, i: int)
    requires Inv(h) && 1 <= j < |h.order| && h.order[j] in h.hdr && h.order[j - 1] in h.hdr && 1 <= i && i + 1 < |h.order| - 1
    ensures var t := Unlinked(h, j); t.order[i] in t.hdr && Apart(t, i, 0, 0)
  {
    var k := if i < j then i else i + 1;
    assert NodeOk(h, k) && Apart(h, k, 0, 0);
    Different(h.order, if i == j - 1 then j else k, k + 1);
  }

  lemma UnlinkedListed(h: Heap, j: int)
    requires Inv(h) && 1 <= j < |h.order| && h.order[j] in h.hdr && h.order[j - 1] in h.hdr
    ensures Listed(Unlinked(h, j), 0, 0)
  {
    hide Apart, Tiled, Ascending, NodeOk;
    var t := Unlinked(h, j);
    RemoveAscending(h.order, j);
    forall i | 0 <= i < |t.order|
      ensures NodeOk(t, i)
    {
      UnlinkedNode(h, j, i);
    }
    forall i | 1 <= i && i + 1 < |t.order|
      ensures t.order[i] in t.hdr && Apart(t, i, 0, 0)
    {
      UnlinkedApart(h, j, i);
    }
  }

  lemma UnlinkedTidy(h: Heap, j: int)
    requires Inv(h) && 1 <= j < |h.order|
    ensures h.order[j] in h.hdr && h.order[j - 1] in h.hdr
    ensures Inv(Unlinked(h, j))
  {
    assert NodeOk(h, j) && NodeOk(h, j - 1);
    UnlinkedListed(h, j);
    hide Apart, Listed;
    var t, p := Unlinked(h, j), h.order[j];
    forall c
      ensures c in t.order <==> c in h.order && c != p
    {
      InRemoved(h.order, j, c);
    }
    assert IsBlock(h, p) && !(p in h.live && LiveOk(h, p));
    forall b | b in t.live
      ensures LiveOk(t, b)
    {
      assert b != p ==> LiveOk(h, b);
    }
    forall u | u in t.home
      ensures UnitOk(t, u)
    {
      assert UnitOk(h, u);
    }
    forall b, u
      ensures Covers(t, b, u)
    {
      assert Covers(h, b, u);
    }
  }

  /** The header the code leaves behind when it writes only the size at a new place. */
  function Sized(h: Heap, b: int, n: int): Header {
    Header(if b in h.hdr then h.hdr[b].ptr else 0, n)
  }

  /** The last n units of node j go to the user. */
  function Split(h: Heap, j: int, n: int): Heap
    requires 0 <= j < |h.order| && h.order[j] in h.hdr
  {
    var p := h.order[j];
    var left := h.hdr[p].size - n;
    h.(hdr := h.hdr[p := Header(h.hdr[p].ptr, left)][p + left := Sized(h, p + left, n)], live := h.live[p + left := n],
       home := map u | u in h.home :: if p + left <= u < p + left + n then p + left else h.home[u])
  }

  lemma SplitTidy(h: Heap, j: int, n: int)
    requires Inv(h) && 1 <= j < |h.order| && n >= 1 && h.order[j] in h.hdr && n < h.hdr[h.order[j]].size
    ensures Inv(Split(h, j, n))
  {
    var t, p := Split(h, j, n), h.order[j];
    var b := p + (h.hdr[p].size - n);
    assert NodeOk(h, j) && IsBlock(h, p);
    SplitPlace(h, j, b);
    forall i | 0 <= i < |t.order|
      ensures NodeOk(t, i)
    {
      assert NodeOk(h, i);
      Different(h.order, i, j);
    }
    forall i | 1 <= i && i + 1 < |t.order|
      ensures t.order[i] in t.hdr && Apart(t, i, 0, 0)
    {
      assert NodeOk(h, i) && Apart(h, i, 0, 0);
    }
    SplitTiled(h, j, n);
  }

  /** The inside of a block is no block and no list node. */
  lemma SplitPlace(h: Heap, j: int, b: int)
    requires Inv(h) && 1 <= j < |h.order| && h.order[j] in h.hdr && h.order[j] < b < h.order[j] + h.hdr[h.order[j]].size
    ensures !IsBlock(h, b) && b !in h.order && b !in h.live
  {
    var p := h.order[j];
    assert NodeOk(h, j) && IsBlock(h, p);
    assert NodeOk(h, 0);
    assert Covers(h, b, b) && Covers(h, p, b);
    if IsBlock(h, b) {
      Blocks(h, 0, 0, b);
    }
  }

  lemma SplitTiled(h: Heap, j: int, n: int)
    requires Inv(h) && 1 <= j < |h.order| && n >= 1 && h.order[j] in h.hdr && n < h.hdr[h.order[j]].size
    ensures Tiled(Split(h, j, n))
  {
    var t, p := Split(h, j, n), h.order[j];
    var b := p + (h.hdr[p].size - n);
    assert NodeOk(h, j) && IsBlock(h, p);
    SplitPlace(h, j, b);
    assert p in h.live ==> LiveOk(h, p);
    forall c | c in t.live
      ensures LiveOk(t, c)
    {
      assert c != b ==> LiveOk(h, c);
    }
    forall u | u in t.home
      ensures UnitOk(t, u)
    {
      assert UnitOk(h, u);
      assert Covers(h, p, u);
    }
    forall c, u
      ensures Covers(t, c, u)
    {
      assert Covers(h, c, u) && Covers(h, p, u);
    }
  }

  function Units(g: int, n: int): (r: set<int>)
    ensures forall u :: u in r <==> g <= u < g + n
    decreases n
  {
    if n <= 0 then {} else Units(g, n - 1) + {g + n - 1}
  }

  /** Memory newly taken from sbrk(), written up as one block in the user's hands. */
  function Extended(h: Heap, g: int, n: int): Heap {
    h.(hdr := h.hdr[g := Sized(h, g, n)], live := h.live[g := n], top := g + n,
       home := h.home + map u | u in Units(g, n) :: g)
  }

  lemma ExtendedTidy(h: Heap, g: int, n: int)
    requires Inv(h) && g >= h.top && n >= 1
    ensures Inv(Extended(h, g, n))
  {
    var t := Extended(h, g, n);
    assert NodeOk(h, 0);
    forall i | 0 <= i < |t.order|
      ensures NodeOk(t, i)
    {
      assert NodeOk(h, i);
    }
    forall i | 1 <= i && i + 1 < |t.order|
      ensures t.order[i] in t.hdr && Apart(t, i, 0, 0)
    {
      assert NodeOk(h, i) && Apart(h, i, 0, 0);
    }
    ExtendedTiled(h, g, n);
  }

  lemma ExtendedTiled(h: Heap, g: int, n: int)
    requires Inv(h) && g >= h.top && n >= 1
    ensures Tiled(Extended(h, g, n))
  {
    var t := Extended(h, g, n);
    forall b | IsBlock(h, b)
      ensures b < g && b in h.hdr && b + h.hdr[b].size <= g
    {
      Blocks(h, 0, 0, b);
    }
    assert h.base < g;
    assert g in h.order ==> IsBlock(h, g);
    forall b | b in t.live
      ensures LiveOk(t, b)
    {
      assert b != g ==> LiveOk(h, b);
    }
    forall u | u in t.home
      ensures UnitOk(t, u)
    {
      assert u in h.home ==> UnitOk(h, u);
    }
    forall b, u
      ensures Covers(t, b, u)
    {
      assert Covers(h, b, u);
    }
  }
}
