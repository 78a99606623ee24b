/** fork() of ass3 and paging: the child's table and swap file, and what parent and child hold afterwards. */
module PagedFork {
  import opened Sizes
  import opened SwapFile
  import opened RamQueue
  import opened Paging
  import opened Pager

  /** How many pages before entry i are swapped out: the child's slots are handed out in table order. */
  function OutBefore(pages: seq<PageData>, i: nat): (n: nat)
    requires i <= |pages|
    ensures n <= i
  {
    if i == 0 then 0 else OutBefore(pages, i - 1) + One(Swapped(pages[i - 1]))
  }

  lemma {:induction false} OutBeforeCounts(pages: seq<PageData>, i: nat)
    requires i <= |pages|
    ensures OutBefore(pages, i) == |SwappedOut(pages[..i])|
  {
    if i == 0 {
      assert SwappedOut(pages[..i]) == {};
    } else {
      OutBeforeCounts(pages, i - 1);
      var less := SwappedOut(pages[..i - 1]);
      assert SwappedOut(pages[..i]) == if Swapped(pages[i - 1]) then less + {i - 1} else less;
    }
  }

  lemma {:induction false} OutBeforeGrows(pages: seq<PageData>, i: nat, j: nat)
    requires i < j <= |pages| && Swapped(pages[i])
    ensures OutBefore(pages, i) < OutBefore(pages, j)
  {
    if i + 1 < j {
      OutBeforeGrows(pages, i, j - 1);
    }
  }

  /** Entry i of the child: the parent's, with a slot of its own if the page is out. */
  predicate ChildEntry(pages: seq<PageData>, child: seq<PageData>, i: int)
    requires 0 <= i < |pages| == |child|
  {
    child[i] == pages[i].(offset := if Swapped(pages[i]) then OutBefore(pages, i) else -1)
  }

  predicate InFile(data: seq<int>, k: int) {
    0 <= k && (k + 1) * PGSIZE <= |data|
  }

  /** The child's table, slots and swap file: every entry, and packed from slot 0 the bytes of every page that is out. */
  ghost predicate SwapCopied(pages: seq<PageData>, data: seq<int>, child: seq<PageData>, occupied: seq<bool>, childData: seq<int>) {
    && |pages| == |child| == MAX_TOTAL_PAGES && |occupied| == MAX_PSYC_PAGES
    && (forall i {:trigger ChildEntry(pages, child, i)} :: 0 <= i < MAX_TOTAL_PAGES ==> ChildEntry(pages, child, i))
    && (forall k :: 0 <= k < MAX_PSYC_PAGES ==> occupied[k] == (k < OutBefore(pages, MAX_TOTAL_PAGES)))
    && |childData| == OutBefore(pages, MAX_TOTAL_PAGES) * PGSIZE
    && (forall i {:trigger pages[i]} :: 0 <= i < MAX_TOTAL_PAGES && Swapped(pages[i]) ==> Copied(pages, data, childData, i))
  }

  /** fork()'s loop over the table: the child gets every entry, and in its own swap file, packed from slot
      0, the bytes of every page that is out. */
  method CopySwap(pages: seq<PageData>, file: File, childFile: File) returns (child: seq<PageData>, occupied: seq<bool>)
    requires |pages| == MAX_TOTAL_PAGES && file != childFile && childFile.data == []
    requires OutBefore(pages, MAX_TOTAL_PAGES) <= MAX_PSYC_PAGES
    requires forall i {:trigger pages[i]} :: 0 <= i < MAX_TOTAL_PAGES && Swapped(pages[i]) ==> InFile(file.data, pages[i].offset)
    modifies file`off, childFile
    ensures SwapCopied(pages, file.data, child, occupied, childFile.data)
    ensures file.data == old(file.data)
  {
    hide Overwrite, PageAt;
    child := seq(MAX_TOTAL_PAGES, _ => PageData(false, false, -1, -1, 0));
    occupied := seq(MAX_PSYC_PAGES, _ => false);
    var offset := 0;
    var i := 0;
    while i < MAX_TOTAL_PAGES
      invariant 0 <= i <= MAX_TOTAL_PAGES == |child| && |occupied| == MAX_PSYC_PAGES && offset == OutBefore(pages, i)
      invariant file.data == old(file.data) && |childFile.data| == offset * PGSIZE
      invariant forall j {:trigger ChildEntry(pages, child, j)} :: 0 <= j < i ==> ChildEntry(pages, child, j)
      invariant forall j {:trigger child[j]} :: i <= j < MAX_TOTAL_PAGES ==> child[j].offset == -1
      invariant forall k :: 0 <= k < MAX_PSYC_PAGES ==> occupied[k] == (k < offset)
      invariant forall j {:trigger pages[j]} :: 0 <= j < i && Swapped(pages[j]) ==> Copied(pages, file.data, childFile.data, j)
    {
      ghost var before := child;
      child := child[i := child[i].(isAllocated := pages[i].isAllocated, inRam := pages[i].inRam, va := pages[i].va, age := pages[i].age)];
      if child[i].isAllocated && !child[i].inRam {
        OutBeforeGrows(pages, i, MAX_TOTAL_PAGES);
        child := child[i := child[i].(offset := offset)];
        occupied := occupied[offset := true];
        CopyKeeps(pages, file.data, childFile.data, i);
        var temp := file.ReadPage(pages[i].offset);
        var _ := childFile.WritePage(temp, offset);
        offset := offset + 1;
      }
      forall j | 0 <= j <= i
        ensures ChildEntry(pages, child, j)
      {
        assert j < i ==> ChildEntry(pages, before, j);
      }
      i := i + 1;
    }
  }

  /** The child's copy of page i, as far as slots have been written. */
  predicate Copied(pages: seq<PageData>, data: seq<int>, childData: seq<int>, i: int)
    requires 0 <= i < |pages|
  {
    && 0 <= pages[i].offset && (pages[i].offset + 1) * PGSIZE <= |data| && (OutBefore(pages, i) + 1) * PGSIZE <= |childData|
    && PageAt(childData, OutBefore(pages, i)) == PageAt(data, pages[i].offset)
  }

  /** Writing the next slot keeps the copies made so far. */
  lemma CopyKeeps(pages: seq<PageData>, data: seq<int>, childData: seq<int>, i: int)
    requires 0 <= i < |pages| && Swapped(pages[i]) && 0 <= pages[i].offset && (pages[i].offset + 1) * PGSIZE <= |data|
    requires |childData| == OutBefore(pages, i) * PGSIZE
    requires forall j {:trigger pages[j]} :: 0 <= j < i && Swapped(pages[j]) ==> Copied(pages, data, childData, j)
    ensures var now := Overwrite(childData, OutBefore(pages, i) * PGSIZE, PageAt(data, pages[i].offset));
      forall j {:trigger pages[j]} :: 0 <= j <= i && Swapped(pages[j]) ==> Copied(pages, data, now, j)
  {
    hide PageAt, Overwrite;
    var page := PageAt(data, pages[i].offset);
    forall j | 0 <= j <= i && Swapped(pages[j])
      ensures Copied(pages, data, Overwrite(childData, OutBefore(pages, i) * PGSIZE, page), j)
    {
      if j < i {
        OutBeforeGrows(pages, j, i);
      }
      OverwritePage(childData, OutBefore(pages, i), page, OutBefore(pages, j));
    }
  }

  // ---- Parent and child ----

  /** The table entry whose page the child has in slot k, among the first n; -1 if there is none. */
  function InSlot(pages: seq<PageData>, k: int, n: nat): (i: int)
    requires n <= |pages|
    ensures -1 <= i < n
    ensures i != -1 ==> Swapped(pages[i]) && OutBefore(pages, i) == k
    ensures i == -1 ==> forall j {:trigger pages[j]} :: 0 <= j < n && Swapped(pages[j]) ==> OutBefore(pages, j) != k
  {
    if n == 0 then -1
    else if Swapped(pages[n - 1]) && OutBefore(pages, n - 1) == k then n - 1
    else InSlot(pages, k, n - 1)
  }

  /** The child's slots are packed. */
  lemma {:induction false} SlotsPacked(pages: seq<PageData>, k: nat, n: nat)
    requires n <= |pages|
    ensures InSlot(pages, k, n) != -1 <==> k < OutBefore(pages, n)
  {
    if n > 0 {
      SlotsPacked(pages, k, n - 1);
    }
  }

  /** Page va of the child: in a frame off the free list with the parent's bytes, or out as in the parent. */
  predicate PageCopied(s: State, c: Entry, mem: map<int, seq<int>>, free: seq<int>, usedBy: map<int, int>, va: int)
    requires va in s.ptes
  {
    var e := s.ptes[va];
    && c.v == e.v && c.pg == e.pg && c.a == e.a
    && (e.v ==>
        && c.frame in s.free && c.frame !in free && c.frame in usedBy && usedBy[c.frame] == va
        && e.frame in s.mem && c.frame in mem && mem[c.frame] == s.mem[e.frame])
  }

  /** The pages the child maps are copies, in frames off the free list; nothing else in memory has changed. */
  ghost predicate PagesCopied(s: State, ptes: map<int, Entry>, mem: map<int, seq<int>>, free: seq<int>, usedBy: map<int, int>) {
    && (forall va {:trigger ptes[va]} :: va in ptes ==> va in s.ptes && PageCopied(s, ptes[va], mem, free, usedBy, va))
    && free <= s.free && mem.Keys == s.mem.Keys
    && (forall f {:trigger mem[f]} {:trigger s.mem[f]} :: f in s.mem && f !in s.free ==> mem[f] == s.mem[f])
  }

  /** How many of the first n pages are in memory. */
  function InMemory(ptes: map<int, Entry>, n: nat): (k: nat) {
    if n == 0 then 0 else InMemory(ptes, n - 1) + if n - 1 in ptes && ptes[n - 1].v then 1 else 0
  }

  lemma {:induction false} InMemoryGrows(ptes: map<int, Entry>, m: nat, n: nat)
    requires m <= n
    ensures InMemory(ptes, m) <= InMemory(ptes, n)
  {
    if m < n {
      InMemoryGrows(ptes, m, n - 1);
    }
  }

  /** uvmcopy(): each page in memory gets a frame and its bytes; for a page that is out a frame is taken and
      given back, and the entry alone is copied. It panics on a page the parent does not map, and runs out
      of frames exactly if some page, in memory or out, comes when all are used. */
  method UvmCopy(s: State, npages: nat, junk: seq<int>)
    returns (r: Outcome, ptes: map<int, Entry>, mem: map<int, seq<int>>, free: seq<int>, ghost usedBy: map<int, int>)
    requires Consistent(s)
    ensures r == Done <==>
      (forall va {:trigger va in s.ptes} :: 0 <= va < npages ==> va in s.ptes) && (npages == 0 || |s.free| > InMemory(s.ptes, npages - 1))
    ensures r == Done || r == NoSuchPage || r == NoMemory
    ensures r == Done ==> PagesCopied(s, ptes, mem, free, usedBy) && |free| == |s.free| - InMemory(s.ptes, npages)
    ensures r == Done ==> forall va {:trigger va in ptes} :: va in ptes <==> va in s.ptes && va < npages
  {
    hide Consistent, PageCopied;
    r, ptes, mem, free, usedBy := Done, map[], s.mem, s.free, map[];
    NoneMapped(s);
    var i := 0;
    while i < npages
      invariant 0 <= i <= npages && PagesCopied(s, ptes, mem, free, usedBy)
      invariant forall va {:trigger va in ptes} :: va in ptes <==> va in s.ptes && va < i
      invariant |free| == |s.free| - InMemory(s.ptes, i) && (i == 0 || |s.free| > InMemory(s.ptes, i - 1))
      invariant forall va {:trigger va in s.ptes} :: 0 <= va < i ==> va in s.ptes
    {
      InMemoryGrows(s.ptes, i, npages - 1);
      if i !in s.ptes {
        r := NoSuchPage;
        return;
      }
      if free == [] {
        r := NoMemory;
        return;
      }
      CopyPage(s, ptes, mem, free, usedBy, i, junk);
      var e, f := s.ptes[i], free[|free| - 1];
      if e.v {
        mem, free, usedBy := mem[f := mem[e.frame]], free[..|free| - 1], usedBy[f := i];
      } else {
        mem := mem[f := junk];
      }
      ptes := ptes[i := Entry(f, e.v, e.pg, e.a)];
      i := i + 1;
    }
  }

  lemma NoneMapped(s: State)
    requires Consistent(s)
    ensures forall va {:trigger va in s.ptes} :: va in s.ptes ==> va >= 0
  {
    forall va | va in s.ptes
      ensures va >= 0
    {
      assert EntryOk(s, va);
    }
  }

  /** One round of uvmcopy() keeps the copies made so far. */
  lemma CopyPage(s: State, ptes: map<int, Entry>, mem: map<int, seq<int>>, free: seq<int>, usedBy: map<int, int>, i: nat, junk: seq<int>)
    requires Consistent(s) && PagesCopied(s, ptes, mem, free, usedBy) && i in s.ptes && i !in ptes && free != []
    ensures var e, f := s.ptes[i], free[|free| - 1];
      var more := ptes[i := Entry(f, e.v, e.pg, e.a)];
      if e.v then e.frame in mem && PagesCopied(s, more, mem[f := mem[e.frame]], free[..|free| - 1], usedBy[f := i])
      else PagesCopied(s, more, mem[f := junk], free, usedBy)
  {
    var e, f := s.ptes[i], free[|free| - 1];
    assert EntryOk(s, i);
    var last := |free| - 1;
    assert forall j :: 0 <= j <= last ==> free[j] == s.free[j];
    assert FreeOk(s, last);
    forall va | va in ptes
      ensures ptes[va].v ==> ptes[va].frame != f
    {
      assert PageCopied(s, ptes[va], mem, free, usedBy, va);
    }
  }

  /** State t is the child of a process in state s: uvmcopy() has copied all pages, and CopySwap has filled its
      table and swap file. */
  ghost predicate ChildOf(s: State, t: State) {
    && PagesCopied(s, t.ptes, t.mem, t.free, t.usedBy) && (forall va {:trigger va in t.ptes} :: va in t.ptes <==> va in s.ptes)
    && SwapCopied(s.pages, s.swap, t.pages, t.occupied, t.swap)
    && t.indexOf == s.indexOf && |t.owner| == MAX_PSYC_PAGES
    && forall k {:trigger t.owner[k]} :: 0 <= k < MAX_PSYC_PAGES ==> t.owner[k] == InSlot(s.pages, k, MAX_TOTAL_PAGES)
  }

  /** The parent, whose memory and free list are the kernel's. */
  function ParentOf(s: State, t: State): State { s.(mem := t.mem, free := t.free) }

  lemma CountedOut(s: State, ramPages: int, alocPages: int)
    requires Counted(s, ramPages, alocPages) && |s.pages| == MAX_TOTAL_PAGES && |s.occupied| == MAX_PSYC_PAGES
    ensures OutBefore(s.pages, MAX_TOTAL_PAGES) == |SwappedOut(s.pages)| <= MAX_PSYC_PAGES
  {
    OutBeforeCounts(s.pages, MAX_TOTAL_PAGES);
    assert s.pages[..MAX_TOTAL_PAGES] == s.pages;
    SlotsFull(s, ramPages, alocPages);
  }

  /** The table of a consistent process can be copied. */
  lemma ForkReady(s: State, ramPages: int, alocPages: int)
    requires Consistent(s) && Counted(s, ramPages, alocPages)
    ensures |s.pages| == MAX_TOTAL_PAGES && OutBefore(s.pages, MAX_TOTAL_PAGES) == alocPages - ramPages <= MAX_PSYC_PAGES
    ensures forall i {:trigger s.pages[i]} :: 0 <= i < MAX_TOTAL_PAGES && Swapped(s.pages[i]) ==> InFile(s.swap, s.pages[i].offset)
  {
    CountedOut(s, ramPages, alocPages);
    SlotsFull(s, ramPages, alocPages);
    forall i | 0 <= i < MAX_TOTAL_PAGES && Swapped(s.pages[i])
      ensures InFile(s.swap, s.pages[i].offset)
    {
      assert PageOk(s, i) && SlotOk(s, s.pages[i].offset);
    }
  }

  lemma ChildPage(s: State, t: State, i: int)
    requires Consistent(s) && ChildOf(s, t) && 0 <= i < MAX_TOTAL_PAGES && OutBefore(s.pages, MAX_TOTAL_PAGES) <= MAX_PSYC_PAGES
    ensures PageOk(t, i)
  {
    assert PageOk(s, i) && ChildEntry(s.pages, t.pages, i);
    if s.pages[i].isAllocated {
      assert PageCopied(s, t.ptes[s.pages[i].va], t.mem, t.free, t.usedBy, s.pages[i].va);
    }
    if Swapped(s.pages[i]) {
      OutBeforeGrows(s.pages, i, MAX_TOTAL_PAGES);
      var k := OutBefore(s.pages, i);
      var j := InSlot(s.pages, k, MAX_TOTAL_PAGES);
      if j < i && j != -1 {
        OutBeforeGrows(s.pages, j, i);
      } else if i < j {
        OutBeforeGrows(s.pages, i, j);
      }
    }
  }

  lemma ChildSlot(s: State, t: State, k: int)
    requires ChildOf(s, t) && 0 <= k < MAX_PSYC_PAGES
    ensures SlotOk(t, k)
  {
    SlotsPacked(s.pages, k, MAX_TOTAL_PAGES);
    var i := t.owner[k];
    if i != -1 {
      assert ChildEntry(s.pages, t.pages, i);
    }
  }

  lemma ChildMapping(s: State, t: State, va: int)
    requires Consistent(s) && ChildOf(s, t) && va in s.ptes
    ensures va in t.ptes && EntryOk(t, va) && ContentOf(t, va) == ContentOf(s, va)
    ensures EntryOk(ParentOf(s, t), va) && ContentOf(ParentOf(s, t), va) == ContentOf(s, va)
    ensures s.ptes[va].v ==> s.ptes[va].frame in t.mem && t.mem[s.ptes[va].frame] == ContentOf(s, va)
  {
    hide PageAt;
    assert EntryOk(s, va) && va in t.ptes && PageCopied(s, t.ptes[va], t.mem, t.free, t.usedBy, va);
    if s.ptes[va].pg {
      var i := s.indexOf[va];
      assert PageOk(s, i) && SlotOk(s, s.pages[i].offset) && ChildEntry(s.pages, t.pages, i);
      assert Copied(s.pages, s.swap, t.swap, i);
    }
  }

  lemma ChildFree(s: State, t: State, j: int)
    requires Consistent(s) && ChildOf(s, t) && 0 <= j < |t.free|
    ensures FreeOk(t, j) && FreeOk(ParentOf(s, t), j)
  {
    assert FreeOk(s, j) && forall i :: 0 <= i <= j ==> t.free[i] == s.free[i];
  }

  lemma ChildCounts(s: State, t: State, ramPages: int, alocPages: int)
    requires Counted(s, ramPages, alocPages) && ChildOf(s, t) &&
      OutBefore(s.pages, MAX_TOTAL_PAGES) == |SwappedOut(s.pages)| <= MAX_PSYC_PAGES
    ensures Counted(t, ramPages, alocPages) && Residents(t.pages) == Residents(s.pages)
  {
    forall i | 0 <= i < MAX_TOTAL_PAGES
      ensures t.pages[i].isAllocated == s.pages[i].isAllocated && t.pages[i].inRam == s.pages[i].inRam
    {
      assert ChildEntry(s.pages, t.pages, i);
    }
    assert Residents(t.pages) == Residents(s.pages) && SwappedOut(t.pages) == SwappedOut(s.pages) && Tracked(t.pages) == Tracked(s.pages);
    FirstNumbers(Taken(t.occupied), OutBefore(s.pages, MAX_TOTAL_PAGES));
  }

  lemma {:induction false} FirstNumbers(x: set<int>, n: nat)
    requires forall k :: k in x <==> 0 <= k < n
    ensures |x| == n
  {
    if n == 0 {
      assert forall k :: k in x ==> 0 <= k < 0;
      assert x <= {};
    } else {
      FirstNumbers(x - {n - 1}, n - 1);
      assert x == (x - {n - 1}) + {n - 1};
    }
  }

  lemma FramesApart(s: State, t: State, va: int, vb: int)
    requires Consistent(s) && ChildOf(s, t) && va in t.ptes && vb in s.ptes && t.ptes[va].v && s.ptes[vb].v
    ensures t.ptes[va].frame != s.ptes[vb].frame
  {
    assert PageCopied(s, t.ptes[va], t.mem, t.free, t.usedBy, va) && EntryOk(s, vb);
  }

  lemma ChildShape(s: State, t: State)
    requires Consistent(s) && ChildOf(s, t)
    ensures |t.pages| == MAX_TOTAL_PAGES && |t.occupied| == MAX_PSYC_PAGES == |t.owner|
    ensures forall i, j :: 0 <= i < j < |t.free| ==> t.free[i] != t.free[j]
  {
    assert forall i :: 0 <= i < |t.free| ==> t.free[i] == s.free[i];
  }

  lemma ParentPage(s: State, t: State, i: int)
    requires Consistent(s) && 0 <= i < MAX_TOTAL_PAGES
    ensures PageOk(ParentOf(s, t), i)
  {
    assert PageOk(s, i);
  }

  lemma ParentSlot(s: State, t: State, k: int)
    requires Consistent(s) && 0 <= k < MAX_PSYC_PAGES
    ensures SlotOk(ParentOf(s, t), k)
  {
    assert SlotOk(s, k);
  }

  /** fork() gives the child a process of its own: its bookkeeping is consistent, each of its pages holds what the
      parent's does, in memory or out, and the parent's queue is right for it. The parent is as before, and no frame
      belongs to both. */
  lemma ForkCopies(s: State, t: State, ramPages: int, alocPages: int, q: seq<int>)
    requires Consistent(s) && Counted(s, ramPages, alocPages) && ChildOf(s, t)
    ensures Consistent(t) && Counted(t, ramPages, alocPages) && (QueueOk(q, s.pages) ==> QueueOk(q, t.pages))
    ensures forall va {:trigger ContentOf(t, va)} :: va in t.ptes ==> va in s.ptes && ContentOf(t, va) == ContentOf(s, va)
    ensures Consistent(ParentOf(s, t)) && SameContents(s, ParentOf(s, t), -1)
    ensures forall va {:trigger s.ptes[va]} :: va in s.ptes && s.ptes[va].v ==>
      s.ptes[va].frame in t.mem && t.mem[s.ptes[va].frame] == ContentOf(s, va)
    ensures forall va, vb {:trigger t.ptes[va], s.ptes[vb]} :: va in t.ptes && vb in s.ptes && t.ptes[va].v && s.ptes[vb].v ==>
      t.ptes[va].frame != s.ptes[vb].frame
  {
    hide PageOk, EntryOk, SlotOk, FreeOk, ContentOf, Counted, SwapCopied, PageCopied, Residents;
    ForkReady(s, ramPages, alocPages);
    CountedOut(s, ramPages, alocPages);
    ChildCounts(s, t, ramPages, alocPages);
    ChildShape(s, t);
    forall i | 0 <= i < MAX_TOTAL_PAGES
      ensures PageOk(t, i) && PageOk(ParentOf(s, t), i)
    {
      ChildPage(s, t, i);
      ParentPage(s, t, i);
    }
    forall k | 0 <= k < MAX_PSYC_PAGES
      ensures SlotOk(t, k) && SlotOk(ParentOf(s, t), k)
    {
      ChildSlot(s, t, k);
      ParentSlot(s, t, k);
    }
    forall va | va in s.ptes
      ensures va in t.ptes && EntryOk(t, va) && ContentOf(t, va) == ContentOf(s, va)
      ensures EntryOk(ParentOf(s, t), va) && ContentOf(ParentOf(s, t), va) == ContentOf(s, va)
      ensures s.ptes[va].v ==> s.ptes[va].frame in t.mem && t.mem[s.ptes[va].frame] == ContentOf(s, va)
    {
      ChildMapping(s, t, va);
    }
    forall j | 0 <= j < |t.free|
      ensures FreeOk(t, j) && FreeOk(ParentOf(s, t), j)
    {
      ChildFree(s, t, j);
    }
    forall va, vb | va in t.ptes && vb in s.ptes && t.ptes[va].v && s.ptes[vb].v
      ensures t.ptes[va].frame != s.ptes[vb].frame
    {
      FramesApart(s, t, va, vb);
    }
  }
}
