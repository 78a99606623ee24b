/** vm.c over kalloc.c, and the page-table half of proc.c: walking, mapping, unmapping, growing, copying
    and freeing address spaces. */
module VirtualMemory {
  import opened FramePool
  import opened PageTable
  import opened AddressSpaces
  import opened Sizes

  /** What mappages() comes to: success, -1 for want of a page-table page, or its panic. */
  datatype Mapping = AllMapped | NoFrame | Remap

  class Machine {
    const lo: int  // first frame after the kernel
    const hi: int  // frame of PHYSTOP
    var mem: Memory
    var freelist: int
    ghost var free: seq<int>
    ghost var role: map<int, Role>
    ghost var at: map<Slot, int>

    ghost predicate ValidBut(gone: Slot)
      reads this
    {
      && FreeList(lo, hi, mem, freelist, free, role)
      && Trees(lo, hi, mem, role, at, gone)
    }

    ghost predicate Valid()
      reads this
    {
      ValidBut(NONE)
    }

    ghost function Now(): State
      reads this
    {
      State(mem, role, at)
    }

    ghost predicate IsRoot(root: int)
      reads this
    {
      Slot(root, 3, 0) in at
    }

    /** kinit(): freerange() gives every frame from the end of the kernel to PHYSTOP to kfree(). */
    constructor (first: int, top: int, contents: Memory)
      requires 0 < first <= top
      requires forall f {:trigger f in contents} :: (InPool(first, top, f) <==> f in contents) && (f in contents ==> |contents[f]| == WORDS)
      ensures Valid() && lo == first && hi == top && at == map[]
      ensures |free| == top - first && forall f {:trigger role[f]} :: f in role ==> role[f] == Free
    {
      lo, hi, mem, freelist, free, at := first, top, contents, NULL, [], map[];
      role := map f | f in contents :: Held;
      new;
      var p := lo;
      while p + 1 <= hi
        invariant first == lo <= p <= hi == top && at == map[]
        invariant Valid() && |free| == p - lo
        invariant forall f {:trigger role[f]} :: f in role ==> InPool(lo, hi, f) && role[f] == if f < p then Free else Held
        invariant forall f :: InPool(lo, hi, f) ==> f in role
      {
        Kfree(p, NONE);
        p := p + 1;
      }
    }

    /** kalloc(): the frame at the head of the free list, filled with junk. */
    method Kalloc() returns (f: int)
      requires Valid()
      modifies this`mem, this`freelist, this`free, this`role
      ensures Valid()
      ensures f == NULL <==> old(free) == []
      ensures f == NULL ==> mem == old(mem) && role == old(role) && free == []
      ensures f != NULL ==>
        && InPool(lo, hi, f) && f in old(role) && old(role)[f] == Free && f in old(mem)
        && mem == old(mem)[f := Fill(JUNK_NEW)] && role == old(role)[f := Held]
    {
      f := freelist;
      if f != NULL {
        PopKeeps(lo, hi, mem, freelist, free, role);
        StoreKeepsTrees(lo, hi, mem, role, at, NONE, f, Fill(JUNK_NEW));
        RoleKeepsTrees(lo, hi, mem[f := Fill(JUNK_NEW)], role, at, NONE, f, Held);
        freelist := mem[f][0];
        mem := mem[f := Fill(JUNK_NEW)];
        role, free := role[f := Held], free[..|free| - 1];
      }
    }

    /** kfree() of a frame the kernel holds. */
    method Kfree(f: int, ghost gone: Slot)
      requires ValidBut(gone) && f in role && role[f] == Held
      modifies this`mem, this`freelist, this`free, this`role
      ensures ValidBut(gone)
      ensures f in old(mem) && mem == old(mem)[f := Fill(JUNK_FREE)[0 := old(freelist)]] && role == old(role)[f := Free]
      ensures |free| == |old(free)| + 1
    {
      PushKeeps(lo, hi, mem, freelist, free, role, f);
      var page := Fill(JUNK_FREE)[0 := freelist];
      StoreKeepsTrees(lo, hi, mem, role, at, gone, f, page);
      RoleKeepsTrees(lo, hi, mem[f := page], role, at, gone, f, Free);
      mem, freelist := mem[f := page], f;
      role, free := role[f := Free], free + [f];
    }

    /** memset or memmove into a whole page the kernel holds. */
    method FillPage(f: int, page: seq<int>)
      requires Valid() && f in role && role[f] == Held && |page| == WORDS
      modifies this`mem
      ensures Valid() && f in old(mem) && mem == old(mem)[f := page]
    {
      StoreKeepsTrees(lo, hi, mem, role, at, NONE, f, page);
      StoreKeepsFree(lo, hi, mem, mem[f := page], freelist, free, role, f);
      mem := mem[f := page];
    }

    /** The two stores of walk() that turn a fresh frame into a page-table page. */
    method AddTable(root: int, vpn: int, h: int, table: int, i: int, f: int)
      requires Valid() && 2 <= h <= 3 && 0 <= vpn < MAXPAGE && i == Index(vpn, h)
      requires OnPath(root, vpn, h) in at && at[OnPath(root, vpn, h)] == table && OnPath(root, vpn, h - 1) !in at &&
        f in role && role[f] == Held
      modifies this`mem, this`role, this`at
      ensures Valid() && PtesBut(old(Now()), Now(), root, 0, 0)
      ensures at == old(at)[OnPath(root, vpn, h - 1) := f] && role == old(role)[f := Page(OnPath(root, vpn, h - 1))]
      ensures SameData(old(mem), old(role)[f := Free], mem) && mem.Keys == old(mem).Keys
    {
      hide Trees, FreeList, Frames, MakePte, Pte;
      ghost var s, c, w := OnPath(root, vpn, h), OnPath(root, vpn, h - 1), MakePte(f, PTE_V);
      EntryOnPath(lo, hi, mem, role, at, root, vpn, h);
      HeldInPool(lo, hi, mem, role, at, f);
      FillPage(f, Fill(0));
      PteFields(f, PTE_V);
      EntryOnPath(lo, hi, mem, role, at, root, vpn, h);
      AttachKeepsTrees(lo, hi, mem, role, at, s, i, f, w);
      AttachKeepsFree(lo, hi, mem, freelist, free, role, at, s, i, f, w, c);
      TableAddsNoPtes(lo, hi, old(mem), mem, role, role[f := Page(c)], at, root, vpn, h, f, w);
      mem := mem[table := mem[table][i := MakePte(f, PTE_V)]];
      role, at := role[f := Page(c)], at[c := f];
    }

    /** One level of walk(): from the table of height h on the way to vpn, the table below, created
        if asked for, or NULL. */
    method WalkStep(root: int, vpn: int, h: int, table: int, alloc: bool) returns (below: int)
      requires Valid() && 2 <= h <= 3 && 0 <= vpn < MAXPAGE
      requires OnPath(root, vpn, h) in at && at[OnPath(root, vpn, h)] == table
      modifies this`mem, this`freelist, this`free, this`role, this`at
      ensures Valid() && Grew(old(Now()), Now(), root, 0, 0)
      ensures below == NULL <==> OnPath(root, vpn, h - 1) !in at
      ensures below != NULL ==> at[OnPath(root, vpn, h - 1)] == below
      ensures !alloc ==> Now() == old(Now())
      ensures !alloc ==> free == old(free)
      ensures alloc && below == NULL ==> free == []
    {
      hide Trees, FreeList, Frames, MakePte, Pte;
      var i := Key(vpn, h - 1) % WORDS;
      EntryOnPath(lo, hi, mem, role, at, root, vpn, h);
      var w := mem[table][i];
      if IsV(w) {
        below := Ppn(w);
      } else {
        if !alloc {
          return NULL;
        }
        below := Kalloc();
        if below == NULL {
          return;
        }
        StoreKeepsPtes(lo, hi, old(mem), old(role), role, old(at), NONE, below, Fill(JUNK_NEW));
        AddTable(root, vpn, h, table, i, below);
      }
    }

    /** walk(): the page-table page holding the entry of vpn, which is its word vpn % 512, or NULL. */
    method Walk(root: int, vpn: int, alloc: bool) returns (table: int)
      requires Valid() && IsRoot(root) && 0 <= vpn < MAXPAGE
      modifies this`mem, this`freelist, this`free, this`role, this`at
      ensures Valid() && Grew(old(Now()), Now(), root, 0, 0)
      ensures table == NULL <==> OnPath(root, vpn, 1) !in at
      ensures table != NULL ==>
        at[OnPath(root, vpn, 1)] == table && table in mem && |mem[table]| == WORDS &&
          Pte(Now(), root, vpn) == mem[table][vpn % WORDS]
      ensures table == NULL ==> Pte(Now(), root, vpn) == 0
      ensures !alloc ==> Now() == old(Now())
      ensures !alloc ==> free == old(free)
      ensures alloc && table == NULL ==> free == []
    {
      hide Trees, FreeList, Frames;
      PathTop(root, vpn);
      RootFrame(lo, hi, mem, role, at, root);
      table := root;
      var level := 2;
      while level > 0
        invariant 0 <= level <= 2
        invariant Valid() && Grew(old(Now()), Now(), root, 0, 0)
        invariant OnPath(root, vpn, level + 1) in at && at[OnPath(root, vpn, level + 1)] == table && table != NULL
        invariant !alloc ==> Now() == old(Now()) && free == old(free)
      {
        ghost var before := Now();
        table := WalkStep(root, vpn, level + 1, table, alloc);
        GrewTrans(old(Now()), before, Now(), root, 0, 0, 0, 0, 0, 0);
        if table == NULL {
          AbsentBelow(lo, hi, mem, role, at, root, vpn, level);
          return;
        }
        level := level - 1;
      }
      EntryOnPath(lo, hi, mem, role, at, root, vpn, 1);
    }

    /** walkaddr(): the frame a user address lies in, or NULL. */
    method WalkAddr(root: int, va: nat) returns (frame: int)
      requires Valid() && IsRoot(root)
      modifies this`mem, this`freelist, this`free, this`role, this`at
      ensures Valid() && Now() == old(Now())
      ensures var w := Pte(Now(), root, va / PGSIZE);
        frame == if va / PGSIZE < MAXPAGE && IsV(w) && IsUser(w) then Ppn(w) else NULL
    {
      if va >= MAXPAGE * PGSIZE {
        return NULL;
      }
      var vpn := va / PGSIZE;
      var table := Walk(root, vpn, false);
      if table == NULL {
        return NULL;
      }
      var w := mem[table][vpn % WORDS];
      if !IsV(w) || !IsUser(w) {
        return NULL;
      }
      frame := Ppn(w);
    }

    /** mappages() stores an entry where there was no page. */
    method SetLeaf(root: int, vpn: int, table: int, f: int, w: int)
      requires Valid() && 0 <= vpn < MAXPAGE && OnPath(root, vpn, 1) in at && at[OnPath(root, vpn, 1)] == table
      requires Pte(Now(), root, vpn) == 0 && IsV(w) && IsLeaf(w) && Ppn(w) == f && (InPool(lo, hi, f) ==> f in role && role[f] == Held)
      modifies this`mem, this`role, this`at
      ensures Valid() && PtesBut(old(Now()), Now(), root, vpn, vpn + 1) && Pte(Now(), root, vpn) == w
      ensures Slot(root, 0, vpn) !in old(at) && at == old(at)[Slot(root, 0, vpn) := f] &&
        role == RoleAttached(lo, hi, old(role), f, Slot(root, 0, vpn))
      ensures SameData(old(mem), old(role), mem) && mem.Keys == old(mem).Keys
    {
      hide Trees, FreeList, Frames, Pte;
      ghost var s, i, c := OnPath(root, vpn, 1), vpn % WORDS, Slot(root, 0, vpn);
      EntryOnPath(lo, hi, mem, role, at, root, vpn, 1);
      NoPage(lo, hi, mem, role, at, root, vpn);
      AttachKeepsTrees(lo, hi, mem, role, at, s, i, f, w);
      AttachKeepsFree(lo, hi, mem, freelist, free, role, at, s, i, f, w, c);
      EntryChangesOnePte(lo, hi, mem, role, RoleAttached(lo, hi, role, f, c), at, at[c := f], NONE, root, vpn, w);
      mem := mem[table := mem[table][vpn % WORDS := w]];
      role, at := RoleAttached(lo, hi, role, f, c), at[c := f];
    }

    /** mappages() of one page: maps vpn to a frame the kernel holds (or one outside the pool), unless a
        page-table page cannot be had. It panics on a page that is mapped. */
    method MapPage(root: int, vpn: int, f: int, perm: int) returns (r: Mapping)
      requires Valid() && IsRoot(root) && 0 <= vpn < MAXPAGE
      requires 0 <= perm < FLAGBITS && IsLeaf(perm) && (InPool(lo, hi, f) ==> f in role && role[f] == Held)
      modifies this`mem, this`freelist, this`free, this`role, this`at
      ensures Valid() && IsRoot(root)
      ensures r == Remap <==> Pte(old(Now()), root, vpn) != 0
      ensures r == AllMapped ==>
        Grew(Releasing(old(Now()), f), Now(), root, vpn, vpn + 1) && Pte(Now(), root, vpn) == MakePte(f, WithV(perm))
      ensures r == AllMapped && InPool(lo, hi, f) ==>
        f in role && role[f] == Page(Slot(root, 0, vpn)) && f in mem && f in old(mem) && mem[f] == old(mem)[f]
      ensures r != AllMapped ==> Grew(old(Now()), Now(), root, 0, 0)
      ensures r == NoFrame ==> free == []
    {
      hide Trees, FreeList, Frames, MakePte;
      var table := Walk(root, vpn, true);
      if table == NULL {
        return NoFrame;
      }
      NoPage(lo, hi, mem, role, at, root, vpn);
      if IsV(mem[table][vpn % WORDS]) {
        return Remap;
      }
      PteFields(f, WithV(perm));
      ghost var before := Now();
      SetLeaf(root, vpn, table, f, MakePte(f, WithV(perm)));
      MapGrew(lo, hi, old(Now()), before, Now(), root, vpn, f);
      r := AllMapped;
    }

    /** mappages(): the pages that [va, va + size) touches are mapped to consecutive frames, up to one for
        which a page-table page cannot be had or that is mapped already, which is a panic; `done` pages are
        mapped then, and stay so. */
    method MapPages(root: int, va: nat, size: nat, f: int, perm: int) returns (r: Mapping, ghost done: nat)
      requires Valid() && IsRoot(root) && 1 <= size && (va + size - 1) / PGSIZE < MAXPAGE
      requires 0 <= perm < FLAGBITS && IsLeaf(perm) && AllHeld(lo, hi, Now(), f, (va + size - 1) / PGSIZE + 1 - va / PGSIZE)
      modifies this`mem, this`freelist, this`free, this`role, this`at
      ensures Valid() && IsRoot(root)
      ensures r == AllMapped ==> done == (va + size - 1) / PGSIZE + 1 - va / PGSIZE
      ensures r != AllMapped ==> done <= (va + size - 1) / PGSIZE - va / PGSIZE
      ensures Unmapped(old(Now()), root, va / PGSIZE, va / PGSIZE + done)
      ensures r == NoFrame ==> free == [] && Pte(old(Now()), root, va / PGSIZE + done) == 0
      ensures r == Remap ==> Pte(old(Now()), root, va / PGSIZE + done) != 0
      ensures Grew(ReleasingAll(old(Now()), f, done), Now(), root, va / PGSIZE, va / PGSIZE + done)
      ensures PtesRun(Now(), root, va / PGSIZE, done, f, perm)
    {
      hide FreeList, Trees, Frames, MakePte, Pte, Grew, AllHeld;
      ghost var s, start, n := Now(), va / PGSIZE, (va + size - 1) / PGSIZE + 1 - va / PGSIZE;
      var a := va / PGSIZE;
      var last := (va + size - 1) / PGSIZE;
      var frame := f;
      done := 0;
      GrewNothing(lo, hi, s, root, start, ZeroPage);
      NoPtes(s, root, start, f, perm);
      while true
        invariant start <= a <= last && done == a - start && frame == f + done
        invariant Valid() && IsRoot(root) && Grew(ReleasingAll(s, f, done), Now(), root, start, a)
        invariant PtesRun(Now(), root, start, done, f, perm) && Unmapped(s, root, start, a)
        decreases last - a
      {
        ghost var before := Now();
        NextSame(s, before, root, start, done, f, n);
        NextHeld(lo, hi, s, before, root, start, done, f, n);
        r := MapPage(root, a, frame, perm);
        if r != AllMapped {
          RunStays(before, Now(), root, start, done, f, perm, 0, 0);
          GrewMore(ReleasingAll(s, f, done), before, Now(), root, start, a);
          return;
        }
        RunStays(before, Now(), root, start, done, f, perm, a, a + 1);
        GrewTrans(ReleasingAll(s, f, done + 1), Releasing(before, frame), Now(), root, start, a, a, a + 1, start, a + 1);
        done := done + 1;
        if a == last {
          break;
        }
        a := a + 1;
        frame := frame + 1;
      }
    }

    /** One round of uvmunmap(): the page's frame is freed (or kept by the kernel), then its entry is zeroed. */
    method UnmapPage(root: int, vpn: int, doFree: bool)
      requires Valid() && IsRoot(root) && 0 <= vpn < MAXPAGE && IsV(Pte(Now(), root, vpn))
      requires doFree ==> InPool(lo, hi, Ppn(Pte(Now(), root, vpn)))
      modifies this`mem, this`freelist, this`free, this`role, this`at
      ensures Valid() && Shed(old(Now()), Now(), root, vpn, vpn + 1, if doFree then Free else Held)
      ensures |free| == |old(free)| + if doFree then 1 else 0
    {
      hide Trees, FreeList, Frames;
      ghost var s, c := OnPath(root, vpn, 1), Slot(root, 0, vpn);
      NoPage(lo, hi, mem, role, at, root, vpn);
      var table := Walk(root, vpn, false);
      var w := mem[table][vpn % WORDS];
      OneOwner(lo, hi, mem, role, at, c);
      TakePage(root, vpn);
      if doFree {
        StoreKeepsPtes(lo, hi, mem, role, role[Ppn(w) := Free], at, c, Ppn(w), Fill(JUNK_FREE)[0 := freelist]);
        Kfree(Ppn(w), c);
      }
      ZeroEntry(root, vpn, table);
    }

    /** uvmunmap(): take npages mapped pages out of the table, and free their frames if asked to. */
    method UvmUnmap(root: int, va: nat, npages: nat, doFree: bool)
      requires Valid() && IsRoot(root) && va % PGSIZE == 0 && va / PGSIZE + npages <= MAXPAGE
      requires Mapped(Now(), root, va / PGSIZE, va / PGSIZE + npages)
      requires doFree ==> PoolPages(lo, hi, Now(), root, va / PGSIZE, va / PGSIZE + npages)
      modifies this`mem, this`freelist, this`free, this`role, this`at
      ensures Valid() && IsRoot(root) && Shed(old(Now()), Now(), root, va / PGSIZE, va / PGSIZE + npages, if doFree then Free else Held)
      ensures |free| == |old(free)| + if doFree then npages else 0
    {
      hide FreeList, Trees, Pte, Frames;
      ghost var start, r := va / PGSIZE, if doFree then Free else Held;
      ShedNothing(Now(), root, start, r);
      var a := va;
      while a < va + npages * PGSIZE
        invariant va <= a <= va + npages * PGSIZE && a % PGSIZE == 0
        invariant Valid() && IsRoot(root) && Shed(old(Now()), Now(), root, start, a / PGSIZE, r)
        invariant |free| == |old(free)| + if doFree then a / PGSIZE - start else 0
      {
        ghost var before := Now();
        ShedLeavesRest(old(Now()), Now(), root, start, a / PGSIZE, r);
        UnmapPage(root, a / PGSIZE, doFree);
        ShedTrans(old(Now()), before, Now(), root, start, a / PGSIZE, a / PGSIZE + 1, r);
        a := a + PGSIZE;
      }
    }

    /** uvmdealloc(): unmap and free the whole pages between the new size and the old one. */
    method UvmDealloc(root: int, oldsz: nat, newsz: nat) returns (sz: nat)
      requires Valid() && IsRoot(root) && PagesUp(oldsz) <= MAXPAGE
      requires Mapped(Now(), root, PagesUp(newsz), PagesUp(oldsz)) && PoolPages(lo, hi, Now(), root, PagesUp(newsz), PagesUp(oldsz))
      modifies this`mem, this`freelist, this`free, this`role, this`at
      ensures Valid() && IsRoot(root)
      ensures newsz < oldsz ==> sz == newsz && Shed(old(Now()), Now(), root, PagesUp(newsz), PagesUp(oldsz), Free)
      ensures newsz >= oldsz ==> sz == oldsz && Now() == old(Now())
      ensures |free| == |old(free)| + if newsz < oldsz then PagesUp(oldsz) - PagesUp(newsz) else 0
    {
      if newsz >= oldsz {
        return oldsz;
      }
      if PagesUp(newsz) < PagesUp(oldsz) {
        var npages := PagesUp(oldsz) - PagesUp(newsz);
        UvmUnmap(root, PagesUp(newsz) * PGSIZE, npages, true);
      } else {
        ShedNothing(Now(), root, PagesUp(newsz), Free);
      }
      sz := newsz;
    }

    /** What uvmalloc() and uvmcopy() do for one page: a frame with the given contents mapped at vpn,
        or no change but page-table pages once the pool has run dry. */
    method AddPage(root: int, vpn: int, content: seq<int>, perm: int) returns (ok: bool)
      requires Valid() && IsRoot(root) && 0 <= vpn < MAXPAGE && Pte(Now(), root, vpn) == 0
      requires |content| == WORDS && 0 <= perm < FLAGBITS && IsLeaf(perm)
      modifies this`mem, this`freelist, this`free, this`role, this`at
      ensures Valid() && IsRoot(root)
      ensures ok ==> Grew(old(Now()), Now(), root, vpn, vpn + 1) && PageIs(lo, hi, Now(), root, vpn, Contents(WithV(perm), content))
      ensures !ok ==> Grew(old(Now()), Now(), root, 0, 0) && |free| <= 1
    {
      hide FreeList, Trees, Pte, Frames, MakePte;
      var f := Kalloc();
      if f == NULL {
        return false;
      }
      StoreKeepsPtes(lo, hi, old(mem), old(role), role, at, NONE, f, content);
      FillPage(f, content);
      assert mem == old(mem)[f := content];
      ghost var start := Now();
      var r := MapPage(root, vpn, f, perm);
      ok := r == AllMapped;
      if ok {
        PteFields(f, WithV(perm));
        PageAdded(old(Now()), start, Now(), root, vpn, f, content);
      } else {
        PageUndone(lo, hi, old(Now()), start, Now(), root, f, content, Fill(JUNK_FREE)[0 := freelist]);
        Kfree(f, NONE);
      }
    }

    /** uvmalloc() for newsz >= oldsz: zeroed pages [PagesUp(oldsz), PagesUp(newsz)), or nothing. */
    method UvmAlloc(root: int, oldsz: nat, newsz: nat) returns (sz: nat)
      requires Valid() && IsRoot(root) && PagesUp(newsz) <= MAXPAGE
      requires Unmapped(Now(), root, PagesUp(oldsz), PagesUp(newsz))
      modifies this`mem, this`freelist, this`free, this`role, this`at
      ensures Valid() && IsRoot(root)
      ensures newsz < oldsz ==> sz == oldsz && Now() == old(Now())
      ensures newsz >= oldsz ==> sz == newsz || sz == 0
      ensures newsz >= oldsz && sz == newsz ==>
        Grew(old(Now()), Now(), root, PagesUp(oldsz), PagesUp(newsz)) &&
          PagesAre(lo, hi, Now(), root, PagesUp(oldsz), PagesUp(newsz), ZeroPage)
      ensures newsz >= oldsz && sz != newsz ==> Grew(old(Now()), Now(), root, 0, 0) && |free| <= PagesUp(newsz) - PagesUp(oldsz)
    {
      hide FreeList, Trees, Pte, Frames, MakePte, PagesAre, Grew, Shed;
      if newsz < oldsz {
        return oldsz;
      }
      ghost var start := PagesUp(oldsz);
      GrewNothing(lo, hi, Now(), root, start, ZeroPage);
      var a := PagesUp(oldsz) * PGSIZE;
      while a < newsz
        invariant start * PGSIZE <= a && a % PGSIZE == 0 && a / PGSIZE <= PagesUp(newsz)
        invariant Valid() && IsRoot(root) && Grew(old(Now()), Now(), root, start, a / PGSIZE)
        invariant PagesAre(lo, hi, Now(), root, start, a / PGSIZE, ZeroPage)
      {
        ghost var before := Now();
        GrewLeavesRest(old(Now()), Now(), root, start, a / PGSIZE);
        var ok := AddPage(root, a / PGSIZE, Fill(0), PTE_W + PTE_X + PTE_R + PTE_U);
        if !ok {
          GrewKeepsPages(lo, hi, before, Now(), root, start, a / PGSIZE, ZeroPage);
          GrewTrans(old(Now()), before, Now(), root, start, a / PGSIZE, 0, 0, start, a / PGSIZE);
          PagesMapped(lo, hi, Now(), root, start, a / PGSIZE, ZeroPage);
          ghost var full := Now();
          var _ := UvmDealloc(root, a, PagesUp(oldsz) * PGSIZE);
          UndoGrowth(lo, hi, old(Now()), full, Now(), root, start, a / PGSIZE);
          return 0;
        }
        GrewTrans(old(Now()), before, Now(), root, start, a / PGSIZE, a / PGSIZE, a / PGSIZE + 1, start, a / PGSIZE + 1);
        PagesExtend(lo, hi, before, Now(), root, start, a / PGSIZE, ZeroPage);
        a := a + PGSIZE;
      }
      sz := newsz;
    }

    /** uvmcopy(): `child` gets a copy of every page of `parent` below sz, or nothing. */
    method UvmCopy(parent: int, child: int, sz: nat) returns (ok: bool)
      requires Valid() && IsRoot(parent) && IsRoot(child) && parent != child && PagesUp(sz) <= MAXPAGE
      requires Mapped(Now(), parent, 0, PagesUp(sz)) && PoolPages(lo, hi, Now(), parent, 0, PagesUp(sz)) &&
        Unmapped(Now(), child, 0, PagesUp(sz))
      modifies this`mem, this`freelist, this`free, this`role, this`at
      ensures Valid() && IsRoot(child)
      ensures ok ==> Grew(old(Now()), Now(), child, 0, PagesUp(sz))
      ensures ok ==> var before := old(Now()); PagesAre(lo, hi, Now(), child, 0, PagesUp(sz), v => PageOf(before, parent, v))
      ensures !ok ==> Grew(old(Now()), Now(), child, 0, 0) && |free| <= PagesUp(sz)
    {
      hide FreeList, Trees, Pte, Frames, MakePte, PagesAre, Grew, Shed, PageOf, PageIs;
      ghost var before := Now();
      ghost var want := v => PageOf(before, parent, v);
      forall v | 0 <= v < PagesUp(sz)
        ensures want(v).flags % 2 == 1
      {
        PageOfFlags(before, parent, v);
      }
      GrewNothing(lo, hi, Now(), child, 0, want);
      var i := 0;
      while i < sz
        invariant 0 <= i && i % PGSIZE == 0 && i / PGSIZE <= PagesUp(sz)
        invariant Valid() && IsRoot(parent) && IsRoot(child) && Grew(before, Now(), child, 0, i / PGSIZE)
        invariant PagesAre(lo, hi, Now(), child, 0, i / PGSIZE, want)
      {
        ok := CopyPage(parent, child, i / PGSIZE, before, want);
        if !ok {
          PagesMapped(lo, hi, Now(), child, 0, i / PGSIZE, want);
          ghost var full := Now();
          UvmUnmap(child, 0, i / PGSIZE, true);
          GrewShed(lo, hi, before, full, Now(), child, 0, i / PGSIZE);
          return false;
        }
        i := i + PGSIZE;
      }
      ok := true;
    }

    /** One round of uvmcopy(). */
    method CopyPage(parent: int, child: int, vpn: int, ghost before: State, ghost want: int -> Contents) returns (ok: bool)
      requires Valid() && IsRoot(parent) && IsRoot(child) && parent != child && 0 <= vpn < MAXPAGE
      requires Trees(lo, hi, before.mem, before.role, before.at, NONE) && Grew(before, Now(), child, 0, vpn) &&
        PagesAre(lo, hi, Now(), child, 0, vpn, want)
      requires IsV(Pte(before, parent, vpn)) && InPool(lo, hi, Ppn(Pte(before, parent, vpn))) && Pte(before, child, vpn) == 0
      requires want(vpn) == PageOf(before, parent, vpn)
      modifies this`mem, this`freelist, this`free, this`role, this`at
      ensures Valid() && IsRoot(parent) && IsRoot(child)
      ensures ok ==> Grew(before, Now(), child, 0, vpn + 1) && PagesAre(lo, hi, Now(), child, 0, vpn + 1, want)
      ensures !ok ==> Grew(before, Now(), child, 0, vpn) && PagesAre(lo, hi, Now(), child, 0, vpn, want) && |free| <= 1
    {
      hide FreeList, Trees, Frames, MakePte, PagesAre, PageIs, Pte;
      OtherSpaceSame(lo, hi, before, Now(), child, 0, vpn, parent, vpn);
      ghost var start := Now();
      var table := Walk(parent, vpn, false);
      var w := mem[table][vpn % WORDS];
      ok := AddPage(child, vpn, mem[Ppn(w)], Flags(w));
      if ok {
        GrewTrans(before, start, Now(), child, 0, vpn, vpn, vpn + 1, 0, vpn + 1);
        PagesExtend(lo, hi, start, Now(), child, 0, vpn, want);
      } else {
        GrewTrans(before, start, Now(), child, 0, vpn, 0, 0, 0, vpn);
        GrewKeepsPages(lo, hi, start, Now(), child, 0, vpn, want);
      }
    }

    /** The page of vpn leaves its tree, its entry still in place. */
    ghost method TakePage(root: int, vpn: int)
      requires Valid() && Slot(root, 0, vpn) in at
      modifies this`role, this`at
      ensures ValidBut(Slot(root, 0, vpn)) && at == old(at) - {Slot(root, 0, vpn)}
      ensures role == RoleDetached(lo, hi, old(role), old(at)[Slot(root, 0, vpn)]) && PtesBut(old(Now()), Now(), root, 0, 0)
    {
      hide Frames;
      ghost var c := Slot(root, 0, vpn);
      NodeFacts(lo, hi, mem, role, at, NONE, c);
      DetachKeepsTrees(lo, hi, mem, role, at, c);
      if InPool(lo, hi, at[c]) {
        RoleKeepsFree(lo, hi, mem, freelist, free, role, at[c], Held);
      }
      role, at := RoleDetached(lo, hi, role, at[c]), at - {c};
    }

    /** uvmunmap() zeroes the entry of a page that is gone. */
    method ZeroEntry(root: int, vpn: int, table: int)
      requires 0 <= vpn < MAXPAGE && ValidBut(Slot(root, 0, vpn)) && OnPath(root, vpn, 1) in at && at[OnPath(root, vpn, 1)] == table
      modifies this`mem
      ensures Valid() && PtesBut(old(Now()), Now(), root, vpn, vpn + 1) && Pte(Now(), root, vpn) == 0
      ensures SameData(old(mem), role, mem) && mem.Keys == old(mem).Keys
    {
      hide Trees, Frames, FreeList, Pte;
      ghost var s := OnPath(root, vpn, 1);
      NodeFacts(lo, hi, mem, role, at, Slot(root, 0, vpn), s);
      PathStep(root, vpn, 1);
      EntryChangesOnePte(lo, hi, mem, role, role, at, at, Slot(root, 0, vpn), root, vpn, 0);
      ClearEntry(s, vpn % WORDS, table);
    }

    /** An entry is zeroed once the node below is gone. */
    method ClearEntry(ghost s: Slot, i: int, table: int)
      requires 0 <= i < WORDS && ValidBut(Child(s, i)) && s in at && at[s] == table && s.h >= 1
      modifies this`mem
      ensures Valid() && table in old(mem) && |old(mem)[table]| == WORDS && mem == old(mem)[table := old(mem)[table][i := 0]]
    {
      hide Trees, Frames, FreeList;
      NodeFacts(lo, hi, mem, role, at, Child(s, i), s);
      ClearKeepsTrees(lo, hi, mem, role, at, s, i);
      StoreKeepsFree(lo, hi, mem, SetEntry(mem, at, s, i, 0), freelist, free, role, table);
      mem := mem[table := mem[table][i := 0]];
    }

    /** uvmcreate(): an empty address space, or NULL. */
    method UvmCreate() returns (root: int)
      requires Valid()
      modifies this`mem, this`freelist, this`free, this`role, this`at
      ensures Valid()
      ensures root == NULL <==> old(free) == []
      ensures root == NULL ==> Now() == old(Now())
      ensures root != NULL ==> Grew(old(Now()), Now(), root, 0, 0) && IsRoot(root) && Unmapped(Now(), root, 0, MAXPAGE)
      ensures root != NULL ==> forall t {:trigger t in old(at)} :: t in old(at) ==> t.root != root
    {
      hide FreeList, Frames;
      root := Kalloc();
      if root != NULL {
        FillPage(root, Fill(0));
        ghost var c := Slot(root, 3, 0);
        CreateKeepsTrees(lo, hi, mem, role, at, root);
        RoleKeepsFree(lo, hi, mem, freelist, free, role, root, Page(c));
        CreateGrew(lo, hi, old(Now()), State(mem, role[root := Page(c)], at[c := root]), root);
        role, at := role[root := Page(c)], at[c := root];
      }
    }

    /** freewalk(): the table of node s, and every table below it, goes back to the pool. */
    method FreeWalk(table: int, ghost s: Slot)
      requires Valid() && s in at && at[s] == table && 1 <= s.h
      requires forall t {:trigger Under(s, t)} :: t in at && t.h == 0 ==> !Under(s, t)
      modifies this`mem, this`freelist, this`free, this`role, this`at
      ensures ValidBut(s) && Cut(old(Now()), Now(), Subtree(s), NULL)
      decreases s.h
    {
      hide FreeList, Trees, Frames, Under, UnderFirst, EntryOk, NodeOk;
      ghost var before := Now();
      CutNothing(before, s, table);
      PagesPresent(lo, hi, mem, role, at, NONE);
      NodeFacts(lo, hi, mem, role, at, NONE, s);
      var i := 0;
      while i < 512
        invariant 0 <= i <= 512
        invariant Valid() && Cut(before, Now(), FirstSubtrees(s, i), table)
        invariant s in at && at[s] == table
      {
        ghost var start := Now();
        BelowChild(before, start, s, i, table);
        ChildEntry(lo, hi, mem, role, at, s, i);
        var pte := mem[table][i];
        if IsV(pte) && !IsLeaf(pte) {
          FreeWalk(Ppn(pte), Child(s, i));
          ghost var freed := Now();
          SelfKept(start, freed, s, i);
          ClearEntry(s, i, table);
          CutChild(before, start, freed, Now(), s, i, table);
        } else {
          assert !IsV(pte);
          CutNoChild(lo, hi, before, Now(), s, i, table);
        }
        i := i + 1;
      }
      FreeTable(table, s, before);
    }

    /** uvmfree(): the pages below sz and every page-table page go back to the pool. */
    method UvmFree(root: int, sz: nat)
      requires Valid() && IsRoot(root) && PagesUp(sz) <= MAXPAGE
      requires Mapped(Now(), root, 0, PagesUp(sz)) && PoolPages(lo, hi, Now(), root, 0, PagesUp(sz)) &&
        Unmapped(Now(), root, PagesUp(sz), MAXPAGE)
      modifies this`mem, this`freelist, this`free, this`role, this`at
      ensures Valid() && Gone(old(Now()), Now(), root, MAXPAGE)
    {
      hide FreeList, Trees, Frames, Mapped, PoolPages, Pte, Cut, Gone, PtesBut, SameData;
      ShedNothing(Now(), root, 0, Free);
      PagesPresent(lo, hi, mem, role, at, NONE);
      if sz > 0 {
        UvmUnmap(root, 0, PagesUp(sz), true);
      }
      ghost var bare, n := Now(), PagesUp(sz);
      NoPagesLeft(lo, hi, old(Now()), bare, root, n);
      FreeWalk(root, Slot(root, 3, 0));
      ShedCutGone(lo, hi, old(Now()), bare, Now(), root, n);
      RootLeavesNoEntry(lo, hi, mem, role, at, root);
    }

    /** proc_pagetable(): a space with the trampoline and the trap frame alone, or NULL and no trace. */
    method ProcPagetable(trampoline: int, trapframe: int) returns (root: int)
      requires Valid() && !InPool(lo, hi, trampoline) && InPool(lo, hi, trapframe) && trapframe in role && role[trapframe] == Held
      modifies this`mem, this`freelist, this`free, this`role, this`at
      ensures Valid()
      ensures root == NULL ==> NoTrace(old(Now()), Now())
      ensures root != NULL ==>
        IsRoot(root) && Grew(Releasing(old(Now()), trapframe), Now(), root, TRAPFRAME, MAXPAGE) &&
          Unmapped(Now(), root, 0, TRAPFRAME)
      ensures root != NULL ==> Pte(Now(), root, TRAMPOLINE) == MakePte(trampoline, PTE_R + PTE_X + PTE_V)
      ensures root != NULL ==>
        Pte(Now(), root, TRAPFRAME) == MakePte(trapframe, PTE_R + PTE_W + PTE_V) && trapframe in role &&
          role[trapframe] == Page(Slot(root, 0, TRAPFRAME))
    {
      hide FreeList, Trees, Frames, Pte, MakePte, Grew, NoTrace, Shed;
      ghost var s := Now();
      NoTraceSelf(s);
      PagesPresent(lo, hi, mem, role, at, NONE);
      root := UvmCreate();
      if root == NULL {
        return;
      }
      ghost var empty := Now();
      NoSpace(s, root);
      Foreign(lo, hi, empty, trampoline);
      var r := MapPage(root, TRAMPOLINE, trampoline, PTE_R + PTE_X);
      if r != AllMapped {
        GrewTrans(s, empty, Now(), root, 0, 0, 0, 0, 0, 0);
        StillUnmapped(s, Now(), root, 0, 0, 0, MAXPAGE);
        ghost var full := Now();
        UvmFree(root, 0);
        FreeUndoesGrowth(s, full, Now(), root, 0, 0);
        return NULL;
      }
      GrewTrans(s, empty, Now(), root, 0, 0, TRAMPOLINE, MAXPAGE, TRAMPOLINE, MAXPAGE);
      var ok := MapTrapframe(root, trampoline, trapframe, s);
      if !ok {
        return NULL;
      }
    }

    /** The second half of proc_pagetable(), from the space with the trampoline in it. */
    method MapTrapframe(root: int, trampoline: int, trapframe: int, ghost s: State) returns (ok: bool)
      requires Valid() && IsRoot(root) && !InPool(lo, hi, trampoline) && InPool(lo, hi, trapframe)
      requires Trees(lo, hi, s.mem, s.role, s.at, NONE) && trapframe in s.role && s.role[trapframe] == Held
      requires Grew(s, Now(), root, TRAMPOLINE, MAXPAGE) && Pte(Now(), root, TRAMPOLINE) == MakePte(trampoline, PTE_R + PTE_X + PTE_V)
      requires Unmapped(s, root, 0, MAXPAGE) && (forall t {:trigger t in s.at} :: t in s.at ==> t.root != root)
      modifies this`mem, this`freelist, this`free, this`role, this`at
      ensures Valid()
      ensures !ok ==> NoTrace(s, Now())
      ensures ok ==> IsRoot(root) && Grew(Releasing(s, trapframe), Now(), root, TRAPFRAME, MAXPAGE) && Unmapped(Now(), root, 0, TRAPFRAME)
      ensures ok ==> Pte(Now(), root, TRAMPOLINE) == MakePte(trampoline, PTE_R + PTE_X + PTE_V)
      ensures ok ==>
        Pte(Now(), root, TRAPFRAME) == MakePte(trapframe, PTE_R + PTE_W + PTE_V) && trapframe in role &&
          role[trapframe] == Page(Slot(root, 0, TRAPFRAME))
    {
      hide FreeList, Trees, Frames, Pte, MakePte, Grew, NoTrace, Shed;
      ghost var one := Now();
      StillUnmapped(s, one, root, TRAMPOLINE, MAXPAGE, 0, TRAMPOLINE);
      GrewKeepsHeld(s, one, root, TRAMPOLINE, MAXPAGE, trapframe);
      var r := MapPage(root, TRAPFRAME, trapframe, PTE_R + PTE_W);
      ok := r == AllMapped;
      ghost var two := Now();
      if ok {
        GrewTrans(Releasing(s, trapframe), Releasing(one, trapframe), two, root, TRAMPOLINE, MAXPAGE, TRAPFRAME,
            TRAMPOLINE, TRAPFRAME, MAXPAGE);
        StillUnmapped(Releasing(s, trapframe), two, root, TRAPFRAME, MAXPAGE, 0, TRAPFRAME);
        OtherPtesSame(one, two, root, TRAPFRAME, TRAMPOLINE, trapframe);
      } else {
        OtherPtesSame(one, two, root, 0, 0, trapframe);
        GrewTrans(s, one, two, root, TRAMPOLINE, MAXPAGE, 0, 0, TRAMPOLINE, MAXPAGE);
        PteFields(trampoline, PTE_R + PTE_X + PTE_V);
        UvmUnmap(root, TRAMPOLINE * PGSIZE, 1, false);
        ForeignShed(lo, hi, two, Now(), root, TRAMPOLINE);
        GrewShed(lo, hi, s, two, Now(), root, TRAMPOLINE, MAXPAGE);
        StillUnmapped(s, Now(), root, 0, 0, 0, MAXPAGE);
        PagesPresent(lo, hi, s.mem, s.role, s.at, NONE);
        ghost var full := Now();
        UvmFree(root, 0);
        FreeUndoesGrowth(s, full, Now(), root, 0, 0);
      }
    }

    /** proc_freepagetable(): everything but the trap frame goes back to the pool. */
    method ProcFreePagetable(root: int, sz: nat)
      requires Valid() && IsRoot(root) && PagesUp(sz) <= TRAPFRAME
      requires Mapped(Now(), root, 0, PagesUp(sz)) && PoolPages(lo, hi, Now(), root, 0, PagesUp(sz)) &&
        Unmapped(Now(), root, PagesUp(sz), TRAPFRAME)
      requires Mapped(Now(), root, TRAPFRAME, MAXPAGE)
      modifies this`mem, this`freelist, this`free, this`role, this`at
      ensures Valid() && Gone(old(Now()), Now(), root, TRAPFRAME)
    {
      hide FreeList, Trees, Frames, Pte, PoolPages, Gone, Shed;
      ghost var s := Now();
      UvmUnmap(root, TRAMPOLINE * PGSIZE, 1, false);
      ghost var one := Now();
      ShedKeepsMapped(lo, hi, s, one, root, TRAMPOLINE, MAXPAGE, Held, TRAPFRAME, TRAMPOLINE);
      UvmUnmap(root, TRAPFRAME * PGSIZE, 1, false);
      ghost var two := Now();
      ShedTwo(s, one, two, root, TRAPFRAME, Held);
      ShedKeepsMapped(lo, hi, s, two, root, TRAPFRAME, MAXPAGE, Held, 0, PagesUp(sz));
      ShedUnmaps(s, two, root, TRAPFRAME, Held, PagesUp(sz));
      UvmFree(root, sz);
      ShedThenGone(lo, hi, s, two, Now(), root);
    }

    /** The last kfree() of freewalk(). */
    method FreeTable(table: int, ghost s: Slot, ghost before: State)
      requires Valid() && s in at && at[s] == table && 1 <= s.h
      requires Cut(before, Now(), FirstSubtrees(s, WORDS), table)
      modifies this`mem, this`freelist, this`free, this`role, this`at
      ensures ValidBut(s) && Cut(before, Now(), Subtree(s), NULL)
    {
      hide FreeList, Frames, Cut;
      ghost var start := Now();
      NodeFacts(lo, hi, mem, role, at, NONE, s);
      OneOwner(lo, hi, mem, role, at, s);
      ChildrenCut(before, start, s, table);
      DetachKeepsTrees(lo, hi, mem, role, at, s);
      RoleKeepsFree(lo, hi, mem, freelist, free, role, table, Held);
      role, at := role[table := Held], at - {s};
      Kfree(table, s);
      CutTable(before, start, Now(), s, table);
    }
  }

  /** After uvmalloc() every address of the new pages leads to a zeroed frame of its own. */
  method AllocAndWalk(m: Machine, root: int, oldsz: nat, newsz: nat, va: nat) returns (sz: nat, frame: int)
    requires m.Valid() && m.IsRoot(root) && PagesUp(newsz) <= MAXPAGE && PagesUp(oldsz) * PGSIZE <= va < newsz
    requires Unmapped(m.Now(), root, PagesUp(oldsz), PagesUp(newsz))
    modifies m`mem, m`freelist, m`free, m`role, m`at
    ensures m.Valid()
    ensures sz == newsz ==>
      && frame != NULL && InPool(m.lo, m.hi, frame) && frame in m.role && m.role[frame] == Page(Slot(root, 0, va / PGSIZE))
      && frame in m.mem && |m.mem[frame]| == WORDS && forall k :: 0 <= k < WORDS ==> m.mem[frame][k] == 0
  {
    hide FreeList, Trees, Pte, Frames, MakePte, Grew;
    sz := m.UvmAlloc(root, oldsz, newsz);
    if sz != newsz {
      return sz, NULL;
    }
    ghost var vpn := va / PGSIZE;
    PageInRange(va, oldsz, newsz);
    assert PageIs(m.lo, m.hi, m.Now(), root, vpn, ZeroPage(vpn));
    UserPage(m.lo, m.hi, m.Now(), root, vpn);
    ZeroPageIs(vpn);
    PoolAboveNull(m);
    frame := m.WalkAddr(root, va);
  }

  lemma PoolAboveNull(m: Machine)
    requires m.Valid()
    ensures m.lo > NULL
  {
  }

  lemma PageInRange(va: nat, oldsz: nat, newsz: nat)
    requires PagesUp(oldsz) * PGSIZE <= va < newsz
    ensures PagesUp(oldsz) <= va / PGSIZE < PagesUp(newsz)
  {
  }

  /** In a space as proc_pagetable() makes it no user address leads anywhere, the trampoline's and the trap frame's
      included. */
  method NewSpaceWalk(m: Machine, trampoline: int, trapframe: int, va: nat) returns (root: int, frame: int)
    requires m.Valid() && 0 <= trampoline && !InPool(m.lo, m.hi, trampoline)
    requires InPool(m.lo, m.hi, trapframe) && 0 <= trapframe && trapframe in m.role && m.role[trapframe] == Held
    modifies m`mem, m`freelist, m`free, m`role, m`at
    ensures m.Valid()
    ensures root != NULL ==> frame == NULL
  {
    hide FreeList, Trees, Pte, Frames, MakePte, Grew, IsUser, IsV;
    root := m.ProcPagetable(trampoline, trapframe);
    if root == NULL {
      return root, NULL;
    }
    LowPowers();
    EntryFormat(trampoline, PTE_R + PTE_X + PTE_V);
    EntryFormat(trapframe, PTE_R + PTE_W + PTE_V);
    NullEntry();
    frame := m.WalkAddr(root, va);
  }

  lemma NullEntry()
    ensures !IsV(0)
  {
  }
}
