/** The paging operations of ass3 on one process: growth, eviction, faults, aging and the user's stores. */
module Pager {
  import opened Bits
  import opened RamQueue
  import opened Sizes
  import opened SwapFile
  import opened Paging
  import opened ReplacementPolicy

  /** What stops a paging operation: one of the panics (no free slot, no free frame, too many pages, a fault on
      a page that is not out), or nothing. */
  datatype Outcome = Done | NoSlot | NoMemory | TooManyPages | NoSuchPage

  /** What bringing a page in comes to: with sixteen pages in memory one is put out first, into its frame. */
  function LoadOutcome(ramPages: int, alocPages: int, free: seq<int>): Outcome {
    if ramPages >= MAX_PSYC_PAGES then (if alocPages < MAX_TOTAL_PAGES then Done else NoSlot)
    else if free == [] then NoMemory
    else Done
  }

  /** The SCFIFO queue holds each resident tracked page once. */
  ghost predicate QueueOk(q: seq<int>, pages: seq<PageData>) {
    && |q| == |Residents(pages)|
    && (forall k {:trigger q[k]} :: 0 <= k < |q| ==> q[k] in Residents(pages))
    && (forall j, k :: 0 <= j < k < |q| ==> q[j] != q[k])
  }

  /** The queue after i turns of the second-chance scan; k is the place of the page it picked, -1 so far none. */
  function Scanned(q: seq<int>, i: int, k: int): (r: seq<int>)
    requires -1 <= k < i <= |q| || (k == -1 && i == 0)
    ensures |r| == if k == -1 then |q| else |q| - 1
  {
    if k == -1 then q[i..] + q[..i] else q[i..] + (q[..k] + q[k + 1..i])
  }

  /** A turn that puts the page back. */
  lemma ScanPass(q: seq<int>, i: int, k: int)
    requires 0 <= i < |q| && -1 <= k && (k == -1 || k < i)
    ensures Scanned(q, i, k) != [] && Scanned(q, i, k)[0] == q[i]
    ensures Scanned(q, i, k)[1..] + [q[i]] == Scanned(q, i + 1, k)
  {
    var back := if k == -1 then q[..i] else q[..k] + q[k + 1..i];
    TailAndBack(q, i, back);
    if k == -1 {
      assert q[..i] + [q[i]] == q[..i + 1];
    } else {
      PutBack(q, i, k);
    }
  }

  lemma TailAndBack(q: seq<int>, i: int, back: seq<int>)
    requires 0 <= i < |q|
    ensures (q[i..] + back)[0] == q[i] && (q[i..] + back)[1..] + [q[i]] == q[i + 1..] + (back + [q[i]])
  {
    assert q[i..] == [q[i]] + q[i + 1..];
  }

  lemma PutBack(q: seq<int>, i: int, k: int)
    requires 0 <= k < i < |q|
    ensures q[..k] + q[k + 1..i] + [q[i]] == q[..k] + q[k + 1..i + 1]
  {
    assert q[k + 1..i] + [q[i]] == q[k + 1..i + 1];
  }

  /** The turn that picks the page. */
  lemma ScanPick(q: seq<int>, i: int)
    requires 0 <= i < |q|
    ensures Scanned(q, i, -1)[1..] == Scanned(q, i + 1, i)
  {
  }

  /** The entries after the scan has cleared PTE_A on the first n pages of q. */
  ghost predicate Cooled(ptes: map<int, Entry>, ptes': map<int, Entry>, pages: seq<PageData>, q: seq<int>, n: int) {
    && ptes'.Keys == ptes.Keys
    && (forall va {:trigger ptes'[va]} :: va in ptes ==> ptes'[va] == ptes[va].(a := ptes[va].a && !CooledPage(pages, q, n, va)))
  }

  ghost predicate CooledPage(pages: seq<PageData>, q: seq<int>, n: int, va: int) {
    exists j {:trigger q[j]} :: 0 <= j < n && j < |q| && 0 <= q[j] < |pages| && pages[q[j]].va == va
  }

  lemma CoolNext(s: State, ptes: map<int, Entry>, q: seq<int>, n: int)
    requires Cooled(s.ptes, ptes, s.pages, q, n) && 0 <= n < |q| && 0 <= q[n] < |s.pages| && s.pages[q[n]].va in ptes
    ensures Cooled(s.ptes, ptes[s.pages[q[n]].va := ptes[s.pages[q[n]].va].(a := false)], s.pages, q, n + 1)
  {
    var w := s.pages[q[n]].va;
    forall va | va in s.ptes
      ensures CooledPage(s.pages, q, n + 1, va) <==> CooledPage(s.pages, q, n, va) || va == w
    {
      if va == w {
        assert 0 <= n < n + 1 && s.pages[q[n]].va == va;
      }
      if CooledPage(s.pages, q, n, va) {
        var j :| 0 <= j < n && j < |q| && 0 <= q[j] < |s.pages| && s.pages[q[j]].va == va;
        assert 0 <= j < n + 1;
      }
    }
  }

  /** The page has not been cleared yet when the scan reaches it. */
  lemma StillWarm(s: State, ptes: map<int, Entry>, q: seq<int>, n: int)
    requires Consistent(s) && QueueOk(q, s.pages) && 0 <= n < |q| && Cooled(s.ptes, ptes, s.pages, q, n)
    ensures 0 <= q[n] < |s.pages| && Resident(s.pages[q[n]]) && s.pages[q[n]].va in ptes
    ensures ptes[s.pages[q[n]].va].a == s.ptes[s.pages[q[n]].va].a
  {
    var va := s.pages[q[n]].va;
    assert PageOk(s, q[n]);
    if CooledPage(s.pages, q, n, va) {
      var j :| 0 <= j < n && j < |q| && 0 <= q[j] < |s.pages| && s.pages[q[j]].va == va;
      assert q[j] in Residents(s.pages);
      assert PageOk(s, q[j]);
    }
  }

  class Process {
    const policy: Policy
    const queue: Queue
    const swapFile: File
    var pages: seq<PageData>   // all_pages
    var occupied: seq<bool>
    var ramPages: int
    var alocPages: int
    var ptes: map<int, Entry>  // the page table
    var mem: map<int, seq<int>>
    var free: seq<int>         // kalloc()'s list
    ghost var indexOf: map<int, int>
    ghost var owner: seq<int>
    ghost var usedBy: map<int, int>

    /** alloc_page_data(): an empty table, an empty queue and an empty swap file. */
    constructor (selection: Policy, frames: seq<int>, contents: map<int, seq<int>>)
      requires forall j {:trigger frames[j]} :: 0 <= j < |frames| ==> frames[j] in contents
      requires forall i, j :: 0 <= i < j < |frames| ==> frames[i] != frames[j]
      ensures Valid() && fresh(queue) && fresh(swapFile)
      ensures policy == selection && free == frames && ptes == map[] && ramPages == 0 && alocPages == 0 && swapFile.data == []
    {
      policy := selection;
      queue := new Queue();
      swapFile := new File();
      pages := seq(MAX_TOTAL_PAGES, _ => PageData(false, false, -1, -1, if selection == LAPA then LARGEST_AGE else 0));
      occupied, owner := seq(MAX_PSYC_PAGES, _ => false), seq(MAX_PSYC_PAGES, _ => -1);
      ramPages, alocPages, ptes, mem, free, indexOf, usedBy := 0, 0, map[], contents, frames, map[], map[];
      new;
      assert Residents(pages) == {} && SwappedOut(pages) == {} && Tracked(pages) == {} && Taken(occupied) == {};
      forall j | 0 <= j < |free|
        ensures FreeOk(Now(), j)
      {
      }
    }

    ghost function Now(): State
      reads this, swapFile
    {
      State(pages, occupied, ptes, mem, swapFile.data, free, indexOf, owner, usedBy)
    }

    ghost predicate Valid()
      reads this, queue, swapFile
    {
      && queue.Valid() && Consistent(Now()) && Counted(Now(), ramPages, alocPages)
      && |swapFile.data| <= MAX_PSYC_PAGES * PGSIZE
      && (policy == SCFIFO ==> QueueOk(queue.q, pages))
    }

    /** SCFIFO_page() on a full ring: the first page in queue order not accessed since it was last
        passed over (page k; the oldest if there is none, k == 16) leaves the queue, the accessed pages
        before it lose PTE_A, and the other fifteen keep their order. */
    method ScfifoPage() returns (index: int, ghost k: int)
      requires Valid() && policy == SCFIFO && |queue.q| == MAX_PSYC_PAGES
      modifies this`ptes, queue
      ensures queue.Valid() && 0 <= k <= MAX_PSYC_PAGES
      ensures index == old(queue.q)[k % MAX_PSYC_PAGES] && queue.q == Without(old(queue.q), k % MAX_PSYC_PAGES)
      ensures forall j {:trigger old(queue.q)[j]} :: 0 <= j < k ==> Accessed(old(Now()), old(queue.q)[j])
      ensures k < MAX_PSYC_PAGES ==> !Accessed(old(Now()), old(queue.q)[k])
      ensures Cooled(old(ptes), ptes, pages, old(queue.q), k)
    {
      hide Consistent, Counted, QueueOk, Cooled, Scanned, Without, Holds;
      ghost var q, s := queue.q, Now();
      NothingCooled(ptes, pages, q);
      StartScan(q);
      k := -1;
      index := -1;
      var i := 0;
      while i < MAX_PSYC_PAGES
        invariant 0 <= i <= MAX_PSYC_PAGES && -1 <= k && (k == -1 || k < i) && (k == -1 <==> index == -1)
        invariant queue.Valid() && queue.q == Scanned(q, i, k)
        invariant Cooled(old(ptes), ptes, pages, q, if k == -1 then i else k)
        invariant forall j {:trigger q[j]} :: 0 <= j < (if k == -1 then i else k) ==> Accessed(s, q[j])
        invariant k != -1 ==> index == q[k] && !Accessed(s, q[k])
      {
        ScanPass(q, i, k);
        ScanPick(q, i);
        InRange(s, q, i);
        var temp := queue.Dequeue();
        if index == -1 {
          StillWarm(s, ptes, q, i);
        }
        if index == -1 && !ptes[pages[temp].va].a {
          index := temp;
          k := i;
        } else {
          if index == -1 {
            CoolNext(s, ptes, q, i);
            ptes := ptes[pages[temp].va := ptes[pages[temp].va].(a := false)];
          }
          var _ := queue.Enqueue(temp);
        }
        i := i + 1;
      }
      EndScan(q, k);
      if index == -1 {
        k := MAX_PSYC_PAGES;
        index := queue.Dequeue();
      }
    }

    /** select_page(): some resident page, by the policy; for SCFIFO it leaves the queue. */
    method SelectPage() returns (index: int, ghost place: int)
      requires Valid() && ramPages == MAX_PSYC_PAGES
      modifies this`ptes, queue
      ensures queue.Valid() && 0 <= index < MAX_TOTAL_PAGES && Resident(pages[index]) && SameButAges(old(Now()), Now())
      ensures Chosen(policy, old(Now()), old(queue.q), index) && (policy != SCFIFO ==> ptes == old(ptes))
      ensures policy == SCFIFO ==> 0 <= place < |old(queue.q)| && index == old(queue.q)[place] && queue.q == Without(old(queue.q), place)
    {
      hide Consistent, Without, Chosen, Accessed, SecondChance;
      ConsistentShape(Now());
      SomeResident(Now(), ramPages, alocPages);
      index, place := -1, -1;
      if policy == NFUA {
        index := NfuaPage(pages);
        AgeChoice(policy, Now(), queue.q, index);
      } else if policy == LAPA {
        index := LapaPage(pages);
        AgeChoice(policy, Now(), queue.q, index);
      } else if policy == SCFIFO {
        ghost var k;
        index, k := ScfifoPage();
        place := k % MAX_PSYC_PAGES;
        assert old(queue.q)[place] in Residents(pages);
        QueueChoice(old(Now()), old(queue.q), index, k);
      }
    }

    /** find_free_place(): the lowest free slot, or -1. */
    method FindFreePlace() returns (place: int)
      requires |occupied| == MAX_PSYC_PAGES
      ensures place == -1 ==> forall k :: 0 <= k < MAX_PSYC_PAGES ==> occupied[k]
      ensures place != -1 ==> 0 <= place < MAX_PSYC_PAGES && !occupied[place] && forall k :: 0 <= k < place ==> occupied[k]
    {
      for i := 0 to MAX_PSYC_PAGES
        invariant forall k :: 0 <= k < i ==> occupied[k]
      {
        if !occupied[i] {
          return i;
        }
      }
      place := -1;
    }

    /** page_to_file(): the page the policy picks moves to the lowest free slot, or all sixteen are taken. */
    method PageToFile() returns (r: Outcome, ghost gone: int)
      requires Valid() && ramPages == MAX_PSYC_PAGES
      modifies this, queue, swapFile
      ensures r == if old(alocPages) - MAX_PSYC_PAGES < MAX_PSYC_PAGES then Done else NoSlot
      ensures r == Done ==> Valid() && ramPages == MAX_PSYC_PAGES - 1 && alocPages == old(alocPages) && |free| == |old(free)| + 1
      ensures r == Done ==> SameContents(old(Now()), Now(), -1) && MovedOut(old(pages), pages, gone)
      ensures Chosen(policy, old(Now()), old(queue.q), gone)
    {
      hide Consistent, Without, Counted, SameContents, QueueOk, Chosen;
      ghost var start := Now();
      ConsistentShape(start);
      SlotsFull(start, ramPages, alocPages);
      var index;
      ghost var place;
      index, place := SelectPage();
      gone := index;
      ghost var picked := Now();
      AgesKeep(start, picked);
      AgesCount(start, picked, ramPages, alocPages);
      var freePlace := FindFreePlace();
      if freePlace == -1 {
        return NoSlot, gone;
      }
      LowestFreeInFile(picked, freePlace);
      EvictKeeps(picked, index, freePlace, Junk());
      EvictCounts(picked, index, freePlace, Junk(), ramPages, alocPages);
      r := WriteOut(index, freePlace);
      SameTrans(start, picked, Now());
      if policy == SCFIFO {
        QueueLess(old(queue.q), start.pages, pages, place);
      }
    }

    /** The rest of page_to_file(), once the page and the slot are known. */
    method WriteOut(index: int, freePlace: int) returns (r: Outcome)
      requires 0 <= index < |pages| && 0 <= freePlace < MAX_PSYC_PAGES == |occupied| == |owner| &&
        freePlace * PGSIZE <= |swapFile.data| <= MAX_PSYC_PAGES * PGSIZE
      requires pages[index].va in ptes && ptes[pages[index].va].v && ptes[pages[index].va].frame in mem &&
        |mem[ptes[pages[index].va].frame]| == PGSIZE
      modifies this, swapFile
      ensures r == Done && Now() == Evict(old(Now()), index, freePlace, Junk())
      ensures ramPages == old(ramPages) - 1 && alocPages == old(alocPages)
      ensures |swapFile.data| <= MAX_PSYC_PAGES * PGSIZE
    {
      hide Overwrite, Junk;
      TakeSlot(index, freePlace);
      var va := pages[index].va;
      var pte := ptes[va];
      mem, free := mem[pte.frame := Junk()], free + [pte.frame];
      ptes := ptes[va := pte.(v := false, pg := true)];
      r := Done;
    }

    /** The page goes to its slot, and the slot is marked. */
    method TakeSlot(index: int, freePlace: int)
      requires 0 <= index < |pages| && 0 <= freePlace < MAX_PSYC_PAGES == |occupied| == |owner| &&
        freePlace * PGSIZE <= |swapFile.data| <= MAX_PSYC_PAGES * PGSIZE
      requires pages[index].va in ptes && ptes[pages[index].va].frame in mem && |mem[ptes[pages[index].va].frame]| == PGSIZE
      modifies this`pages, this`ramPages, this`occupied, this`owner, swapFile
      ensures pages == old(pages)[index := old(pages)[index].(offset := freePlace, inRam := false)] && ramPages == old(ramPages) - 1
      ensures occupied == old(occupied)[freePlace := true] && owner == old(owner)[freePlace := index]
      ensures swapFile.data == Overwrite(old(swapFile.data), freePlace * PGSIZE, mem[ptes[pages[index].va].frame]) &&
        |swapFile.data| <= MAX_PSYC_PAGES * PGSIZE
    {
      pages := pages[index := pages[index].(offset := freePlace)];
      var _ := swapFile.WritePage(mem[ptes[pages[index].va].frame], freePlace);
      pages := pages[index := pages[index].(inRam := false)];
      ramPages := ramPages - 1;
      occupied, owner := occupied[freePlace := true], owner[freePlace := index];
    }

    /** page_to_RAM(): page index comes back from its slot; a resident page makes room if sixteen are in memory. */
    method PageToRam(index: int) returns (r: Outcome, ghost gone: int)
      requires Valid() && 0 <= index < MAX_TOTAL_PAGES && Swapped(pages[index])
      modifies this, queue, swapFile
      ensures r == LoadOutcome(old(ramPages), old(alocPages), old(free))
      ensures r == Done ==> Valid() && SameContents(old(Now()), Now(), -1)
      ensures r == Done ==> Resident(pages[index]) && pages[index].va == old(pages)[index].va
      ensures r == Done ==>
        pages[index].age == if policy == NFUA then 0 else if policy == LAPA then 0xffff_ffff else old(pages)[index].age
      ensures r == Done ==> alocPages == old(alocPages) && ramPages == Least(MAX_PSYC_PAGES, old(ramPages) + 1)
      ensures gone == -1 <==> old(ramPages) < MAX_PSYC_PAGES
      ensures gone != -1 ==> Chosen(policy, old(Now()), old(queue.q), gone)
      ensures r == Done ==> MovedBut(old(pages), pages, index, gone)
    {
      hide Consistent, Counted, QueueOk, SameContents, Chosen;
      ghost var start := Now();
      gone := -1;
      ConsistentShape(start);
      SameSelf(start);
      RamBound(start, ramPages, alocPages);
      if ramPages >= MAX_PSYC_PAGES {
        r, gone := PageToFile();
        ChosenInTable(policy, start, old(queue.q), gone);
        if r != Done {
          return r, gone;
        }
      }
      ghost var roomy := Now();
      if free == [] {
        return NoMemory, gone;
      }
      LoadIn(index);
      SameTrans(start, roomy, Now());
      r := Done;
    }

    /** The rest of page_to_RAM(), once there is room. */
    method LoadIn(index: int)
      requires Valid() && 0 <= index < |pages| == MAX_TOTAL_PAGES && Swapped(pages[index]) && ramPages < MAX_PSYC_PAGES && free != []
      modifies this, queue, swapFile
      ensures Valid() && SameContents(old(Now()), Now(), -1) && Resident(pages[index]) && pages[index].va == old(pages)[index].va
      ensures pages[index].age == LoadedAge(policy, old(pages)[index].age)
      ensures |pages| == |old(pages)| && forall j {:trigger pages[j]} :: 0 <= j < |pages| && j != index ==> pages[j] == old(pages)[j]
      ensures ramPages == old(ramPages) + 1 && alocPages == old(alocPages)
    {
      hide Consistent, Counted, QueueOk, SameContents, Load;
      ghost var start, age := Now(), LoadedAge(policy, pages[index].age);
      SwappedFacts(start, index);
      LoadKeeps(start, index, age);
      LoadCounts(start, index, age, ramPages, alocPages);
      LoadedPage(start, index, age);
      ReadIn(index);
      if policy == SCFIFO {
        QueueRoom(queue.q, start, ramPages - 1, alocPages, index);
        QueueMore(queue.q, start.pages, pages, index);
        var _ := queue.Enqueue(index);
      }
    }

    /** The stores of page_to_RAM() but for the queue. */
    method ReadIn(index: int)
      requires 0 <= index < |pages| && free != [] && 0 <= pages[index].offset < |occupied| && |owner| == |occupied|
      requires (pages[index].offset + 1) * PGSIZE <= |swapFile.data| && pages[index].va in ptes && !ptes[pages[index].va].v
      modifies this, swapFile`off
      ensures Now() == Load(old(Now()), index, LoadedAge(policy, old(pages)[index].age))
      ensures ramPages == old(ramPages) + 1 && alocPages == old(alocPages)
    {
      hide PageAt;
      MapAndRead(index);
      Settle(index);
    }

    /** A frame is mapped for the page and read from its slot. */
    method MapAndRead(index: int)
      requires 0 <= index < |pages| && free != [] && 0 <= pages[index].offset && (pages[index].offset + 1) * PGSIZE <= |swapFile.data|
      modifies this`free, this`ptes, this`usedBy, this`mem, swapFile`off
      ensures var va, f := pages[index].va, old(free)[|old(free)| - 1];
        && free == old(free)[..|old(free)| - 1] && ptes == old(ptes)[va := Entry(f, true, false, false)] && usedBy == old(usedBy)[f := va]
        && mem == old(mem)[f := PageAt(swapFile.data, pages[index].offset)]
    {
      hide PageAt;
      var f := free[|free| - 1];
      free := free[..|free| - 1];
      ptes, usedBy := ptes[pages[index].va := Entry(f, true, false, false)], usedBy[f := pages[index].va];
      var page := swapFile.ReadPage(pages[index].offset);
      mem := mem[f := page];
    }

    /** The slot is given up, and the page is resident. */
    method Settle(index: int)
      requires 0 <= index < |pages| && 0 <= pages[index].offset < |occupied| == |owner|
      modifies this`occupied, this`owner, this`pages, this`ramPages
      ensures var p := old(pages)[index];
        && occupied == old(occupied)[p.offset := false] && owner == old(owner)[p.offset := -1]
        && pages == old(pages)[index := p.(inRam := true, age := LoadedAge(policy, p.age))] && ramPages == old(ramPages) + 1
    {
      occupied, owner := occupied[pages[index].offset := false], owner[pages[index].offset := -1];
      pages := pages[index := pages[index].(inRam := true)];
      ramPages := ramPages + 1;
      pages := pages[index := pages[index].(age := LoadedAge(policy, pages[index].age))];
    }

    /** The page-fault branch of usertrap(): afterwards a page that was out is in memory with the bytes it had,
        unless all thirty-two pages are tracked or no frame is left; for any other page it panics. */
    method Fault(va: int) returns (r: Outcome)
      requires Valid()
      modifies this, queue, swapFile
      ensures r ==
        if va !in old(ptes) || !old(ptes)[va].pg then NoSuchPage
        else LoadOutcome(old(ramPages), old(alocPages), old(free))
      ensures r == Done <==>
        && va in old(ptes) && old(ptes)[va].pg
        && if old(ramPages) == MAX_PSYC_PAGES then old(alocPages) < MAX_TOTAL_PAGES else old(free) != []
      ensures r == Done ==> Valid() && SameContents(old(Now()), Now(), -1) && va in ptes && ptes[va].v
    {
      hide Counted, QueueOk;
      RamBound(Now(), ramPages, alocPages);
      if va !in ptes || !ptes[va].pg {
        return NoSuchPage;
      }
      assert EntryOk(Now(), va);
      ghost var at := indexOf[va];
      var i := 0;
      while i < MAX_TOTAL_PAGES && pages[i].va != va
        invariant 0 <= i <= at
      {
        i := i + 1;
      }
      assert PageOk(Now(), i);
      ghost var gone;
      r, gone := PageToRam(i);
      if r == Done {
        assert PageOk(Now(), i);
      }
    }

    /** alloc_page(): the page just mapped at va takes the lowest free table entry, if there is one. */
    method AllocPage(va: int)
      requires Valid() && ramPages < MAX_PSYC_PAGES
      requires va in ptes && ptes[va].v && forall j {:trigger pages[j]} :: 0 <= j < |pages| ==> pages[j].va != va
      modifies this, queue
      ensures Valid() && SameContents(old(Now()), Now(), -1) && ptes == old(ptes) && free == old(free)
      ensures old(alocPages) < MAX_TOTAL_PAGES ==> ramPages == old(ramPages) + 1 && alocPages == old(alocPages) + 1
      ensures old(alocPages) >= MAX_TOTAL_PAGES ==> Now() == old(Now()) && ramPages == old(ramPages) && alocPages == old(alocPages)
    {
      hide Consistent, Counted, QueueOk, SameContents;
      ghost var start := Now();
      ConsistentShape(start);
      SomeEntryFree(start, ramPages, alocPages);
      SameSelf(start);
      var i := FirstFreeEntry();
      if i == MAX_TOTAL_PAGES {
        return;
      }
      TrackKeeps(start, i, va);
      TrackCounts(start, i, va, ramPages, alocPages);
      Enter(i, va);
      if policy == SCFIFO {
        QueueRoom(queue.q, start, ramPages - 1, alocPages - 1, i);
        QueueMore(queue.q, start.pages, pages, i);
        var _ := queue.Enqueue(i);
      }
    }

    /** The stores of alloc_page(). */
    method Enter(i: int, va: int)
      requires 0 <= i < |pages|
      modifies this`pages, this`indexOf, this`ramPages, this`alocPages
      ensures Now() == Track(old(Now()), i, va) && ramPages == old(ramPages) + 1 && alocPages == old(alocPages) + 1
    {
      pages := pages[i := pages[i].(isAllocated := true, va := va, inRam := true)];
      indexOf := indexOf[va := i];
      ramPages := ramPages + 1;
      alocPages := alocPages + 1;
    }

    /** The search of alloc_page(): the lowest free entry, or the end of the table. */
    method FirstFreeEntry() returns (i: int)
      requires |pages| == MAX_TOTAL_PAGES
      ensures 0 <= i <= MAX_TOTAL_PAGES && (i < MAX_TOTAL_PAGES ==> !pages[i].isAllocated)
      ensures forall j {:trigger pages[j]} :: 0 <= j < i ==> pages[j].isAllocated
    {
      i := 0;
      while i < MAX_TOTAL_PAGES && pages[i].isAllocated
        invariant 0 <= i <= MAX_TOTAL_PAGES
        invariant forall j {:trigger pages[j]} :: 0 <= j < i ==> pages[j].isAllocated
      {
        i := i + 1;
      }
    }

    /** The user's own store to byte j of a page in memory. */
    method UserStore(va: int, j: int, b: int)
      requires Valid() && va in ptes && ptes[va].v && 0 <= j < PGSIZE
      modifies this
      ensures Valid() && SameContents(old(Now()), Now(), va) && va in ptes
      ensures |ContentOf(old(Now()), va)| == PGSIZE && ContentOf(Now(), va) == ContentOf(old(Now()), va)[j := b]
      ensures ramPages == old(ramPages) && alocPages == old(alocPages)
    {
      hide Consistent, Counted, QueueOk, SameContents, ContentOf;
      UserStoreKeeps(Now(), va, j, b);
      StoreCounts(Now(), va, j, b, ramPages, alocPages);
      var e := ptes[va];
      mem := mem[e.frame := mem[e.frame][j := b]];
      ptes := ptes[va := e.(a := true)];
    }

    /** aging(): the age of a resident page moves right by one, its top bit telling whether PTE_A is set. */
    method Aging()
      requires Valid()
      modifies this`pages
      ensures Valid() && SameContents(old(Now()), Now(), -1)
      ensures |pages| == |old(pages)|
      ensures forall i {:trigger pages[i]} :: 0 <= i < |pages| ==>
        pages[i] == if Resident(old(pages)[i])
                    then old(pages)[i].(age := Aged(old(pages)[i].age, Accessed(old(Now()), i)))
                    else old(pages)[i]
      ensures forall i {:trigger pages[i]} :: 0 <= i < |pages| && Resident(old(pages)[i]) && old(pages)[i].va in old(ptes) ==>
        (old(ptes)[old(pages)[i].va].a <==> pages[i].age >= 0x8000_0000)
    {
      hide Counted, QueueOk, SameContents;
      ghost var start := Now();
      var i := 0;
      while i < MAX_TOTAL_PAGES
        invariant 0 <= i <= MAX_TOTAL_PAGES == |pages|
        invariant forall j {:trigger pages[j]} :: 0 <= j < MAX_TOTAL_PAGES ==>
          pages[j] == if j < i && Resident(start.pages[j])
                      then start.pages[j].(age := Aged(start.pages[j].age, Accessed(start, j)))
                      else start.pages[j]
      {
        if pages[i].isAllocated && pages[i].inRam {
          assert PageOk(start, i);
          pages := pages[i := pages[i].(age := Aged(pages[i].age, ptes[pages[i].va].a))];
        }
        i := i + 1;
      }
      AgesKeep(start, Now());
      AgesCount(start, Now(), ramPages, alocPages);
      QueueSame(queue.q, start.pages, pages);
    }

    /** One page of uvmalloc(): a zeroed frame mapped at va. */
    method MapZeroed(va: int)
      requires Valid() && 0 <= va && va !in ptes && free != []
      modifies this
      ensures Valid() && SameContents(old(Now()), Now(), va) && va in ptes && ptes[va].v && ContentOf(Now(), va) == ZeroPage()
      ensures ramPages == old(ramPages) && alocPages == old(alocPages) && pages == old(pages) && |free| == |old(free)| - 1
    {
      hide Consistent, Counted, QueueOk, SameContents;
      MapNewKeeps(Now(), va);
      MapNewFacts(Now(), va, ramPages, alocPages);
      var f := free[|free| - 1];
      free := free[..|free| - 1];
      mem := mem[f := ZeroPage()];
      ptes, usedBy := ptes[va := Entry(f, true, false, false)], usedBy[f := va];
    }

    /** uvmalloc(): every new page reads as zeros and every old page as before, whatever was evicted on
        the way. All new pages but the first are tracked. It succeeds exactly if there are frames for the pages
        that no eviction makes room for, and no thirty-third page would be tracked; no eviction ever lacks a
        slot. On a failure it has got to page `reached`. */
    method Grow(oldsz: nat, newsz: nat) returns (r: Outcome, sz: nat, ghost reached: int)
      requires Valid() && forall va {:trigger va in ptes} :: PagesUp(oldsz) <= va < PagesUp(newsz) ==> va !in ptes
      modifies this, queue, swapFile
      ensures Valid() && PagesUp(oldsz) <= reached && GrownTo(old(Now()), Now(), PagesUp(oldsz), reached)
      ensures ReadZeros(Now(), PagesUp(oldsz), reached)
      ensures r == Done <==>
        (newsz < oldsz || (|old(free)| >= FramesFor(old(ramPages), PagesUp(newsz) - PagesUp(oldsz)) &&
            old(alocPages) + TrackedIn(PagesUp(oldsz), PagesUp(newsz)) <= MAX_TOTAL_PAGES))
      ensures r == Done ==> sz == (if newsz < oldsz then oldsz else newsz) && (newsz >= oldsz ==> reached == PagesUp(newsz))
      ensures alocPages == old(alocPages) + TrackedIn(PagesUp(oldsz), reached)
      ensures r == NoMemory ==> free == [] && reached < PagesUp(newsz) && |old(free)| == FramesFor(old(ramPages), reached - PagesUp(oldsz))
      ensures r == TooManyPages ==> alocPages == MAX_TOTAL_PAGES && PagesUp(oldsz) < reached < PagesUp(newsz)
      ensures r == Done || r == NoMemory || r == TooManyPages
      ensures r != NoMemory ==> |free| == |old(free)| - FramesFor(old(ramPages), reached - PagesUp(oldsz))
    {
      hide Consistent, Counted, QueueOk, SameContents, GrownTo, ReadZeros;
      reached := PagesUp(oldsz);
      GrownNothing(Now(), reached);
      RamBound(Now(), ramPages, alocPages);
      ConsistentShape(Now());
      if newsz < oldsz {
        GrownZeros(Now(), Now(), reached, reached);
        return Done, oldsz, reached;
      }
      ghost var start := PagesUp(oldsz);
      var oldOld := PagesUp(oldsz);
      var a := PagesUp(oldsz);
      r := Done;
      while a * PGSIZE < newsz
        invariant start == PagesUp(oldsz) <= a <= PagesUp(newsz) && reached == a && r == Done
        invariant oldOld == if a == start then start else a - 1
        invariant Valid() && GrownTo(old(Now()), Now(), start, a)
        invariant alocPages == old(alocPages) + TrackedIn(start, a) <= MAX_TOTAL_PAGES
        invariant ramPages == Least(MAX_PSYC_PAGES, old(ramPages) + TrackedIn(start, a))
        invariant |free| == |old(free)| - FramesFor(old(ramPages), a - start)
        decreases newsz - a * PGSIZE
      {
        FramesGrow(old(ramPages), a - start, PagesUp(newsz) - start);
        r := GrowOne(old(Now()), start, a, a >= oldOld + 1);
        if r != Done {
          GrownZeros(old(Now()), Now(), start, a);
          return r, 0, a;
        }
        if a >= oldOld + 1 {
          oldOld := oldOld + 1;
        }
        a := a + 1;
        reached := a;
      }
      GrownZeros(old(Now()), Now(), start, a);
      sz := newsz;
    }

    /** One round of uvmalloc(); the first round of a call does not track its page. */
    method GrowOne(ghost before: State, ghost start: int, a: int, track: bool) returns (r: Outcome)
      requires Valid() && 0 <= start <= a && a !in before.ptes && GrownTo(before, Now(), start, a)
      modifies this, queue, swapFile
      ensures Valid() && (r == Done || r == NoMemory || r == TooManyPages)
      ensures r == Done ==> GrownTo(before, Now(), start, a + 1) && alocPages == old(alocPages) + if track then 1 else 0
      ensures r == Done ==>
        && alocPages <= MAX_TOTAL_PAGES
        && ramPages == if track then Least(MAX_PSYC_PAGES, old(ramPages) + 1) else old(ramPages)
      ensures r == Done ==> |free| == |old(free)| - if track && old(ramPages) == MAX_PSYC_PAGES then 0 else 1
      ensures r != Done ==> GrownTo(before, Now(), start, a) && alocPages == old(alocPages)
      ensures r == NoMemory ==> free == old(free) == [] && !(track && old(ramPages) == MAX_PSYC_PAGES)
      ensures r == TooManyPages <==> track && old(alocPages) == MAX_TOTAL_PAGES
      ensures r == TooManyPages ==> free == old(free)
    {
      hide Consistent, Counted, QueueOk, SameContents, GrownTo;
      ConsistentShape(Now());
      RamBound(Now(), ramPages, alocPages);
      ghost var first := Now();
      if track {
        if alocPages >= MAX_TOTAL_PAGES {
          return TooManyPages;
        }
        if ramPages >= MAX_PSYC_PAGES {
          ghost var gone;
          r, gone := PageToFile();
          GrownSame(before, first, Now(), start, a);
        }
      }
      if free == [] {
        return NoMemory;
      }
      ghost var roomy := Now();
      NotMapped(before, roomy, start, a);
      MapZeroed(a);
      GrownMore(before, roomy, Now(), start, a);
      ghost var mapped := Now();
      if track {
        AllocPage(a);
        GrownSame(before, mapped, Now(), start, a + 1);
      }
      r := Done;
    }
  }

  function Least(a: int, b: int): int { if a < b then a else b }

  /** How many frames uvmalloc() uses up for k new pages: one each until sixteen pages are in memory, and
      none from then on, when each new page takes the frame of an evicted one. */
  function FramesFor(ramPages: int, k: int): int {
    if k <= 0 then 0 else 1 + Least(k - 1, MAX_PSYC_PAGES - ramPages)
  }

  lemma FramesGrow(ramPages: int, k: int, n: int)
    requires 0 <= k < n && ramPages <= MAX_PSYC_PAGES
    ensures FramesFor(ramPages, k) <= FramesFor(ramPages, k + 1) <= FramesFor(ramPages, n)
    ensures FramesFor(ramPages, k + 1) == FramesFor(ramPages, k) + if k >= 1 && ramPages + k - 1 >= MAX_PSYC_PAGES then 0 else 1
  {
  }

  /** A page that is out, if any is. */
  lemma SomePageOut(s: State, ramPages: int, alocPages: int) returns (va: int)
    requires Consistent(s) && Counted(s, ramPages, alocPages) && ramPages < alocPages
    ensures va in s.ptes && s.ptes[va].pg
  {
    SlotsFull(s, ramPages, alocPages);
    var i :| i in SwappedOut(s.pages);
    va := s.pages[i].va;
    assert PageOk(s, i) && EntryOk(s, va);
  }

  /** The fault that finds no slot does happen: a process that has grown by thirty-three pages at once tracks
      thirty-two of them, sixteen in memory and sixteen out, and Fault() on one that is out gives NoSlot.
      Seventeen frames are enough to get there. */
  method FullTable(selection: Policy, frames: seq<int>, contents: map<int, seq<int>>) returns (p: Process, va: int)
    requires |frames| >= 17 && forall j {:trigger frames[j]} :: 0 <= j < |frames| ==> frames[j] in contents
    requires forall i, j :: 0 <= i < j < |frames| ==> frames[i] != frames[j]
    ensures fresh(p) && p.Valid() && p.policy == selection
    ensures p.alocPages == MAX_TOTAL_PAGES && p.ramPages == MAX_PSYC_PAGES && va in p.ptes && p.ptes[va].pg
  {
    p := new Process(selection, frames, contents);
    var grown, sz;
    ghost var reached;
    grown, sz, reached := p.Grow(0, 33 * PGSIZE);
    FullMemory(p.Now(), p.ramPages, p.alocPages);
    ghost var out := SomePageOut(p.Now(), p.ramPages, p.alocPages);
    va :| va in p.ptes && p.ptes[va].pg;
  }

  lemma FullMemory(s: State, ramPages: int, alocPages: int)
    requires Consistent(s) && Counted(s, ramPages, alocPages) && alocPages == MAX_TOTAL_PAGES
    ensures ramPages == MAX_PSYC_PAGES
  {
    AllTrackedMeansFull(s, ramPages, alocPages);
  }

  /** An age moved down one bit, with the top bit set when the page was accessed. */
  function Aged(age: Uint, accessed: bool): Uint {
    age / 2 + if accessed then 0x80000000 else 0
  }

  /** The age is a history: its top bit is the last look at PTE_A, and each older bit moves down one place. */
  lemma AgedBits(age: Uint, accessed: bool, k: nat)
    requires k < 31
    ensures Bit(Aged(age, accessed), 31) == accessed
    ensures Bit(Aged(age, accessed), k) == Bit(age, k + 1)
  {
    TopPower();
    BitOfHalf(age, k);
    NoBitAbove(age / 2, 31);
    SetBit(age / 2, 31, k);
    SetBit(age / 2, 31, 31);
  }

  lemma QueueSame(q: seq<int>, pages: seq<PageData>, pages': seq<PageData>)
    requires Residents(pages') == Residents(pages)
    ensures QueueOk(q, pages) ==> QueueOk(q, pages')
  {
  }

  lemma StoreCounts(s: State, va: int, j: int, b: int, ramPages: int, alocPages: int)
    requires Counted(s, ramPages, alocPages) && va in s.ptes && s.ptes[va].frame in s.mem && 0 <= j < |s.mem[s.ptes[va].frame]|
    ensures Counted(UserStored(s, va, j, b), ramPages, alocPages)
  {
  }

  lemma SomeEntryFree(s: State, ramPages: int, alocPages: int)
    requires Counted(s, ramPages, alocPages) && |s.pages| == MAX_TOTAL_PAGES
    ensures alocPages < MAX_TOTAL_PAGES <==> exists k {:trigger s.pages[k]} :: 0 <= k < MAX_TOTAL_PAGES && !s.pages[k].isAllocated
  {
    BoundedSet(Tracked(s.pages), MAX_TOTAL_PAGES);
    assert forall k :: 0 <= k < MAX_TOTAL_PAGES ==> (k in Tracked(s.pages) <==> s.pages[k].isAllocated);
  }

  /** How many of the pages a call maps from `start` up to `a` it tracks: all but the first. */
  function TrackedIn(start: int, a: int): int { if a <= start then 0 else a - start - 1 }

  /** Pages [start, a) are new and read as zeros; the others are as they were. */
  ghost predicate GrownTo(s: State, s': State, start: int, a: int) {
    && (forall va {:trigger va in s'.ptes} :: va in s'.ptes <==> va in s.ptes || start <= va < a)
    && (forall va {:trigger ContentOf(s', va)} :: va in s'.ptes ==>
          if start <= va < a then ContentOf(s', va) == ZeroPage() else va in s.ptes ==> ContentOf(s', va) == ContentOf(s, va))
  }

  /** Every byte of pages [a, b) is 0. */
  ghost predicate ReadZeros(s: State, a: int, b: int) {
    forall va {:trigger ContentOf(s, va)} :: a <= va < b ==>
      va in s.ptes && |ContentOf(s, va)| == PGSIZE && forall j :: 0 <= j < PGSIZE ==> ContentOf(s, va)[j] == 0
  }

  lemma GrownZeros(s: State, s': State, start: int, a: int)
    requires GrownTo(s, s', start, a)
    ensures ReadZeros(s', start, a)
  {
    forall va | start <= va < a
      ensures va in s'.ptes && ContentOf(s', va) == ZeroPage()
    {
      assert va in s'.ptes;
    }
  }

  lemma GrownNothing(s: State, start: int)
    ensures GrownTo(s, s, start, start)
  {
  }

  lemma GrownSame(s: State, t: State, u: State, start: int, a: int)
    requires GrownTo(s, t, start, a) && SameContents(t, u, -1) && 0 <= start && Consistent(t) && Consistent(u)
    ensures GrownTo(s, u, start, a)
  {
    assert -1 in t.ptes ==> EntryOk(t, -1);
    assert -1 in u.ptes ==> EntryOk(u, -1);
    forall va | va in u.ptes
      ensures if start <= va < a then ContentOf(u, va) == ZeroPage() else va in s.ptes ==> ContentOf(u, va) == ContentOf(s, va)
    {
      assert ContentOf(u, va) == ContentOf(t, va);
    }
  }

  lemma GrownMore(s: State, t: State, u: State, start: int, a: int)
    requires GrownTo(s, t, start, a) && SameContents(t, u, a) && 0 <= start <= a && a in u.ptes &&
      ContentOf(u, a) == ZeroPage() && a !in s.ptes
    ensures GrownTo(s, u, start, a + 1)
  {
    forall va | va in u.ptes
      ensures if start <= va < a + 1 then ContentOf(u, va) == ZeroPage() else va in s.ptes ==> ContentOf(u, va) == ContentOf(s, va)
    {
      assert va != a ==> ContentOf(u, va) == ContentOf(t, va);
    }
  }

  lemma NotMapped(s: State, t: State, start: int, a: int)
    requires GrownTo(s, t, start, a) && a !in s.ptes && Consistent(t) && 0 <= a
    ensures a !in t.ptes && forall j {:trigger t.pages[j]} :: 0 <= j < |t.pages| ==> t.pages[j].va != a
  {
    forall j | 0 <= j < |t.pages|
      ensures t.pages[j].va != a
    {
      assert PageOk(t, j);
    }
  }

  lemma MapNewFacts(s: State, va: int, ramPages: int, alocPages: int)
    requires Counted(s, ramPages, alocPages) && s.free != []
    ensures Counted(MapNew(s, va), ramPages, alocPages) && ContentOf(MapNew(s, va), va) == ZeroPage()
  {
  }

  /** The age a page starts with when it comes back. */
  function LoadedAge(policy: Policy, age: Uint): Uint {
    if policy == NFUA then 0 else if policy == LAPA then LARGEST_AGE else age
  }

  lemma LoadedPage(s: State, i: int, age: Uint)
    requires 0 <= i < |s.pages| && s.free != [] && 0 <= s.pages[i].offset < |s.occupied| && |s.owner| == |s.occupied|
    requires (s.pages[i].offset + 1) * PGSIZE <= |s.swap| && Swapped(s.pages[i])
    ensures var t := Load(s, i, age);
      && |t.pages| == |s.pages| && t.swap == s.swap
      && Resident(t.pages[i]) && t.pages[i].va == s.pages[i].va && t.pages[i].age == age
      && forall j {:trigger t.pages[j]} :: 0 <= j < |s.pages| && j != i ==> t.pages[j] == s.pages[j]
  {
  }

  lemma SameSelf(s: State)
    ensures SameContents(s, s, -1)
  {
  }

  lemma RamBound(s: State, ramPages: int, alocPages: int)
    requires Counted(s, ramPages, alocPages)
    ensures 0 <= ramPages <= MAX_PSYC_PAGES && (|s.pages| == MAX_TOTAL_PAGES ==> alocPages <= MAX_TOTAL_PAGES)
  {
    BoundedSet(Tracked(s.pages), |s.pages|);
  }

  lemma SwappedFacts(s: State, i: int)
    requires Consistent(s) && 0 <= i < MAX_TOTAL_PAGES && Swapped(s.pages[i])
    ensures |s.owner| == |s.occupied| == MAX_PSYC_PAGES && 0 <= s.pages[i].offset < MAX_PSYC_PAGES && s.occupied[s.pages[i].offset]
    ensures (s.pages[i].offset + 1) * PGSIZE <= |s.swap| && s.pages[i].va in s.ptes && !s.ptes[s.pages[i].va].v
  {
    assert PageOk(s, i);
    assert SlotOk(s, s.pages[i].offset);
  }

  lemma QueueRoom(q: seq<int>, s: State, ramPages: int, alocPages: int, i: int)
    requires QueueOk(q, s.pages) && Counted(s, ramPages, alocPages)
    ensures |q| == ramPages
  {
  }

  lemma QueueMore(q: seq<int>, pages: seq<PageData>, pages': seq<PageData>, i: int)
    requires QueueOk(q, pages) && 0 <= i < |pages| && !Resident(pages[i]) && Residents(pages') == Residents(pages) + {i}
    ensures QueueOk(q + [i], pages')
  {
    assert i !in Residents(pages);
  }

  /** What kfree() leaves in a frame. */
  function Junk(): seq<int> { seq(PGSIZE, _ => 1) }

  /** Page i, resident before, is now in a slot; the rest of the table is as it was. */
  predicate MovedOut(pages: seq<PageData>, pages': seq<PageData>, i: int) {
    && 0 <= i < |pages| && |pages'| == |pages| && Resident(pages[i]) && Swapped(pages'[i])
    && pages' == pages[i := pages[i].(inRam := false, offset := pages'[i].offset)]
  }

  lemma ConsistentShape(s: State)
    requires Consistent(s)
    ensures |s.pages| == MAX_TOTAL_PAGES && |s.occupied| == MAX_PSYC_PAGES == |s.owner|
  {
  }

  lemma SomeResident(s: State, ramPages: int, alocPages: int)
    requires Counted(s, ramPages, alocPages) && ramPages > 0
    ensures !NoneResident(s.pages)
  {
    assert NoneResident(s.pages) ==> Residents(s.pages) == {};
  }

  lemma SameTrans(s: State, t: State, u: State)
    requires SameContents(s, t, -1) && SameContents(t, u, -1)
    ensures SameContents(s, u, -1)
  {
    forall va | va in s.ptes && va in u.ptes && va != -1
      ensures ContentOf(u, va) == ContentOf(s, va)
    {
      assert va in t.ptes;
      assert ContentOf(t, va) == ContentOf(s, va);
    }
  }

  lemma QueueLess(q: seq<int>, pages: seq<PageData>, pages': seq<PageData>, place: int)
    requires QueueOk(q, pages) && 0 <= place < |q| && Residents(pages') == Residents(pages) - {q[place]}
    ensures QueueOk(Without(q, place), pages')
  {
    assert q[place] in Residents(pages);
  }

  ghost predicate Accessed(s: State, i: int) {
    0 <= i < |s.pages| && s.pages[i].va in s.ptes && s.ptes[s.pages[i].va].a
  }

  /** The page each policy takes: the first of least age, the first whose age has the fewest ones, or the first in
      queue order that was not accessed, the oldest if all were. */
  ghost predicate Chosen(policy: Policy, s: State, q: seq<int>, i: int) {
    match policy
    case NFUA => FirstLeast(s.pages, AgeOf, i)
    case LAPA => FirstLeast(s.pages, OnesOf, i)
    case SCFIFO => 0 <= i < |s.pages| && Resident(s.pages[i]) && exists k :: SecondChance(s, q, i, k)
  }

  /** Page i stands at place k of the queue, and is the first not accessed, or the oldest of a queue all accessed. */
  ghost predicate SecondChance(s: State, q: seq<int>, i: int, k: int) {
    && 0 <= k < |q| && q[k] == i
    && (if Accessed(s, i)
        then k == 0 && forall j {:trigger q[j]} :: 0 <= j < |q| ==> Accessed(s, q[j])
        else forall j {:trigger q[j]} :: 0 <= j < k ==> Accessed(s, q[j]))
  }

  lemma AgeChoice(policy: Policy, s: State, q: seq<int>, i: int)
    requires policy != SCFIFO && FirstLeast(s.pages, if policy == NFUA then AgeOf else OnesOf, i)
    ensures Chosen(policy, s, q, i)
  {
  }

  lemma QueueChoice(s: State, q: seq<int>, i: int, k: int)
    requires |q| == MAX_PSYC_PAGES && 0 <= k <= |q| && i == q[k % MAX_PSYC_PAGES]
    requires (forall j {:trigger q[j]} :: 0 <= j < k ==> Accessed(s, q[j])) && (k < |q| ==> !Accessed(s, q[k]))
    requires 0 <= i < |s.pages| && Resident(s.pages[i])
    ensures Chosen(SCFIFO, s, q, i)
  {
    assert SecondChance(s, q, i, k % MAX_PSYC_PAGES);
  }

  /** No policy puts out a page that has been used while it could put out one that has not: the victim is resident, no
      resident page is younger or has fewer ones, and it has PTE_A only if the whole queue has. */
  lemma EvictionChoice(policy: Policy, s: State, q: seq<int>, i: int)
    requires Chosen(policy, s, q, i)
    ensures 0 <= i < |s.pages| && s.pages[i].isAllocated && s.pages[i].inRam
    ensures policy == NFUA ==> forall j {:trigger s.pages[j]} :: 0 <= j < |s.pages| && Resident(s.pages[j]) ==>
      s.pages[i].age <= s.pages[j].age
    ensures policy == LAPA ==> forall j {:trigger s.pages[j]} :: 0 <= j < |s.pages| && Resident(s.pages[j]) ==>
      Ones(s.pages[i].age) <= Ones(s.pages[j].age)
    ensures policy == SCFIFO && s.pages[i].va in s.ptes && s.ptes[s.pages[i].va].a ==>
      i == q[0] &&
        forall j {:trigger q[j]} :: 0 <= j < |q| && 0 <= q[j] < |s.pages| && s.pages[q[j]].va in s.ptes ==> s.ptes[s.pages[q[j]].va].a
  {
  }

  lemma ChosenInTable(policy: Policy, s: State, q: seq<int>, i: int)
    requires Chosen(policy, s, q, i)
    ensures 0 <= i < |s.pages| && Resident(s.pages[i])
  {
  }

  /** Page index came in and page gone, if any, went out; the others are where they were. */
  predicate MovedBut(pages: seq<PageData>, pages': seq<PageData>, index: int, gone: int) {
    && |pages'| == |pages| && gone != index
    && (0 <= gone < |pages| ==> Swapped(pages'[gone]))
    && forall j {:trigger pages'[j]} :: 0 <= j < |pages| && j != index && j != gone ==> pages'[j] == pages[j]
  }

  lemma NothingCooled(ptes: map<int, Entry>, pages: seq<PageData>, q: seq<int>)
    ensures Cooled(ptes, ptes, pages, q, 0)
  {
  }

  lemma StartScan(q: seq<int>)
    ensures Scanned(q, 0, -1) == q
  {
  }

  lemma EndScan(q: seq<int>, k: int)
    requires -1 <= k < |q|
    ensures Scanned(q, |q|, k) == Without(q, k)
    ensures k == -1 ==> Without(q, k) == q && (q != [] ==> Without(q, 0) == q[1..])
  {
  }

  lemma InRange(s: State, q: seq<int>, n: int)
    requires Consistent(s) && QueueOk(q, s.pages) && 0 <= n < |q|
    ensures 0 <= q[n] < |s.pages| && s.pages[q[n]].va in s.ptes
  {
    assert q[n] in Residents(s.pages);
    assert PageOk(s, q[n]);
  }
}
