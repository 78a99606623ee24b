/** Demand paging of one process (ass3): the bookkeeping as a value, what must hold of it, and the
    changes that keep it. Addresses are page numbers. */
module Paging {
  import opened RamQueue
  import opened Sizes
  import opened SwapFile

  const MAX_TOTAL_PAGES := 32
  const LARGEST_AGE: Uint := 0xffffffff

  type Uint = x: int | 0 <= x < 0x1_0000_0000

  /** struct pagedata */
  datatype PageData = PageData(isAllocated: bool, inRam: bool, offset: int, va: int, age: Uint)

  /** A page-table entry: the frame number and PTE_V, PTE_PG, PTE_A. The other flags are always R, W, X, U. */
  datatype Entry = Entry(frame: int, v: bool, pg: bool, a: bool)

  /** Everything paging reads and writes. `swap` is the swap file, `free` kalloc()'s list with its head
      last. The last three fields say who uses what: the table index of a tracked page, the table index
      in a slot (-1: none), and the page in a frame. */
  datatype State = State(
    pages: seq<PageData>, occupied: seq<bool>, ptes: map<int, Entry>, mem: map<int, seq<int>>, swap: seq<int>, free: seq<int>,
    indexOf: map<int, int>, owner: seq<int>, usedBy: map<int, int>)

  // ---- The invariant ----

  predicate Resident(p: PageData) { p.isAllocated && p.inRam }

  predicate Swapped(p: PageData) { p.isAllocated && !p.inRam }

  /** An allocated entry describes its page: in a frame when PTE_V is set, else in the slot it names. */
  predicate PageOk(s: State, i: int)
    requires 0 <= i < |s.pages| && |s.owner| == MAX_PSYC_PAGES
  {
    var p := s.pages[i];
    if p.isAllocated then
      && p.va >= 0 && p.va in s.ptes && p.va in s.indexOf && s.indexOf[p.va] == i && s.ptes[p.va].v == p.inRam
      && (!p.inRam ==> 0 <= p.offset < MAX_PSYC_PAGES && s.owner[p.offset] == i)
    else p.va == -1
  }

  /** A mapped page is in a frame of its own or swapped out and tracked. */
  predicate EntryOk(s: State, va: int)
    requires va in s.ptes
  {
    var e := s.ptes[va];
    && va >= 0 && e.v == !e.pg
    && (e.v ==> e.frame in s.mem && |s.mem[e.frame]| == PGSIZE && e.frame !in s.free && e.frame in s.usedBy && s.usedBy[e.frame] == va)
    && (e.pg ==> va in s.indexOf && 0 <= s.indexOf[va] < |s.pages| && Swapped(s.pages[s.indexOf[va]]) && s.pages[s.indexOf[va]].va == va)
  }

  /** A slot is marked occupied exactly when a swapped-out page is in it. */
  predicate SlotOk(s: State, k: int)
    requires 0 <= k < |s.owner| && |s.occupied| == |s.owner|
  {
    && (s.occupied[k] <==> s.owner[k] != -1)
    && (s.owner[k] != -1 ==>
        0 <= s.owner[k] < |s.pages| && Swapped(s.pages[s.owner[k]]) && s.pages[s.owner[k]].offset == k && (k + 1) * PGSIZE <= |s.swap|)
  }

  predicate FreeOk(s: State, j: int)
    requires 0 <= j < |s.free|
  {
    s.free[j] in s.mem && forall i :: 0 <= i < j ==> s.free[i] != s.free[j]
  }

  ghost predicate Consistent(s: State) {
    && |s.pages| == MAX_TOTAL_PAGES && |s.occupied| == MAX_PSYC_PAGES == |s.owner|
    && (forall i {:trigger PageOk(s, i)} :: 0 <= i < MAX_TOTAL_PAGES ==> PageOk(s, i))
    && (forall va {:trigger EntryOk(s, va)} :: va in s.ptes ==> EntryOk(s, va))
    && (forall k {:trigger SlotOk(s, k)} :: 0 <= k < MAX_PSYC_PAGES ==> SlotOk(s, k))
    && (forall j {:trigger FreeOk(s, j)} :: 0 <= j < |s.free| ==> FreeOk(s, j))
    && (forall i, j :: 0 <= i < j < |s.free| ==> s.free[i] != s.free[j])
  }

  /** What page va holds: its frame if PTE_V is set, else its swap slot. */
  ghost function ContentOf(s: State, va: int): seq<int>
    requires va in s.ptes
  {
    var e := s.ptes[va];
    if e.v then (if e.frame in s.mem then s.mem[e.frame] else [])
    else if va in s.indexOf && 0 <= s.indexOf[va] < |s.pages| && 0 <= s.pages[s.indexOf[va]].offset &&
      (s.pages[s.indexOf[va]].offset + 1) * PGSIZE <= |s.swap|
    then PageAt(s.swap, s.pages[s.indexOf[va]].offset)
    else []
  }

  /** Every mapped page is still mapped and holds the same bytes, `but` aside. */
  ghost predicate SameContents(s: State, s': State, but: int) {
    && (forall va {:trigger va in s'.ptes} :: va != but ==> (va in s.ptes <==> va in s'.ptes))
    && (forall va {:trigger ContentOf(s', va)} :: va in s.ptes && va in s'.ptes && va != but ==> ContentOf(s', va) == ContentOf(s, va))
  }

  // ---- Counting ----

  ghost function Residents(pages: seq<PageData>): set<int> {
    set i | 0 <= i < |pages| && Resident(pages[i])
  }

  ghost function SwappedOut(pages: seq<PageData>): set<int> {
    set i | 0 <= i < |pages| && Swapped(pages[i])
  }

  ghost function Tracked(pages: seq<PageData>): set<int> {
    set i | 0 <= i < |pages| && pages[i].isAllocated
  }

  ghost function Taken(occupied: seq<bool>): set<int> {
    set k | 0 <= k < |occupied| && occupied[k]
  }

  /** ram_pages and aloc_pages count the table, and a slot is taken for each page that is out. */
  ghost predicate Counted(s: State, ramPages: int, alocPages: int) {
    && ramPages == |Residents(s.pages)| <= MAX_PSYC_PAGES
    && alocPages == |Tracked(s.pages)|
    && |Taken(s.occupied)| == |SwappedOut(s.pages)|
  }

  function One(b: bool): int { if b then 1 else 0 }

  lemma ResidentsChanged(pages: seq<PageData>, i: int, p: PageData)
    requires 0 <= i < |pages|
    ensures Residents(pages[i := p]) == if Resident(p) then Residents(pages) + {i} else Residents(pages) - {i}
    ensures |Residents(pages[i := p])| == |Residents(pages)| + One(Resident(p)) - One(Resident(pages[i]))
  {
    var r := Residents(pages);
    assert Residents(pages[i := p]) == if Resident(p) then r + {i} else r - {i};
    assert Resident(pages[i]) ==> r == (r - {i}) + {i};
    assert !Resident(pages[i]) ==> r == r - {i};
  }

  lemma SwappedChanged(pages: seq<PageData>, i: int, p: PageData)
    requires 0 <= i < |pages|
    ensures |SwappedOut(pages[i := p])| == |SwappedOut(pages)| + One(Swapped(p)) - One(Swapped(pages[i]))
  {
    var r := SwappedOut(pages);
    assert SwappedOut(pages[i := p]) == if Swapped(p) then r + {i} else r - {i};
    assert Swapped(pages[i]) ==> r == (r - {i}) + {i};
    assert !Swapped(pages[i]) ==> r == r - {i};
  }

  lemma TrackedChanged(pages: seq<PageData>, i: int, p: PageData)
    requires 0 <= i < |pages|
    ensures |Tracked(pages[i := p])| == |Tracked(pages)| + One(p.isAllocated) - One(pages[i].isAllocated)
  {
    var r := Tracked(pages);
    assert Tracked(pages[i := p]) == if p.isAllocated then r + {i} else r - {i};
    assert pages[i].isAllocated ==> r == (r - {i}) + {i};
    assert !pages[i].isAllocated ==> r == r - {i};
  }

  lemma TakenChanged(occupied: seq<bool>, k: int, b: bool)
    requires 0 <= k < |occupied|
    ensures |Taken(occupied[k := b])| == |Taken(occupied)| + One(b) - One(occupied[k])
  {
    var r := Taken(occupied);
    assert Taken(occupied[k := b]) == if b then r + {k} else r - {k};
    assert occupied[k] ==> r == (r - {k}) + {k};
    assert !occupied[k] ==> r == r - {k};
  }

  /** The counts after entry i and slot k have changed. */
  lemma CountsChange(s: State, t: State, i: int, p: PageData, k: int, b: bool, ramPages: int, alocPages: int)
    requires Counted(s, ramPages, alocPages) && 0 <= i < |s.pages| && 0 <= k < |s.occupied|
    requires t.pages == s.pages[i := p] && t.occupied == s.occupied[k := b]
    requires One(b) - One(s.occupied[k]) == One(Swapped(p)) - One(Swapped(s.pages[i]))
    requires Resident(p) && !Resident(s.pages[i]) ==> ramPages < MAX_PSYC_PAGES
    ensures Counted(t, ramPages + One(Resident(p)) - One(Resident(s.pages[i])),
        alocPages + One(p.isAllocated) - One(s.pages[i].isAllocated))
    ensures Residents(t.pages) == if Resident(p) then Residents(s.pages) + {i} else Residents(s.pages) - {i}
  {
    hide Residents, SwappedOut, Tracked, Taken;
    ResidentsChanged(s.pages, i, p);
    SwappedChanged(s.pages, i, p);
    TrackedChanged(s.pages, i, p);
    TakenChanged(s.occupied, k, b);
  }

  // ---- The changes ----

  /** page_to_file() for page i and slot k. */
  function Evict(s: State, i: int, k: int, junk: seq<int>): State
    requires 0 <= i < |s.pages| && 0 <= k < |s.occupied| && |s.owner| == |s.occupied| && k * PGSIZE <= |s.swap|
    requires s.pages[i].va in s.ptes && s.ptes[s.pages[i].va].frame in s.mem
  {
    var p := s.pages[i];
    var e := s.ptes[p.va];
    s.(pages := s.pages[i := p.(offset := k, inRam := false)], occupied := s.occupied[k := true], owner := s.owner[k := i],
       ptes := s.ptes[p.va := e.(v := false, pg := true)], swap := Overwrite(s.swap, k * PGSIZE, s.mem[e.frame]),
       mem := s.mem[e.frame := junk], free := s.free + [e.frame])
  }

  lemma EvictKeeps(s: State, i: int, k: int, junk: seq<int>)
    requires Consistent(s) && 0 <= i < MAX_TOTAL_PAGES && Resident(s.pages[i]) && 0 <= k < MAX_PSYC_PAGES &&
      !s.occupied[k] && k * PGSIZE <= |s.swap|
    ensures s.pages[i].va in s.ptes && s.ptes[s.pages[i].va].v && s.ptes[s.pages[i].va].frame in s.mem &&
      |s.mem[s.ptes[s.pages[i].va].frame]| == PGSIZE
    ensures Consistent(Evict(s, i, k, junk)) && SameContents(s, Evict(s, i, k, junk), -1)
  {
    assert PageOk(s, i) && SlotOk(s, k);
    var va := s.pages[i].va;
    assert EntryOk(s, va);
    var t := Evict(s, i, k, junk);
    forall j | 0 <= j < MAX_TOTAL_PAGES
      ensures PageOk(t, j)
    {
      assert PageOk(s, j);
    }
    forall j | 0 <= j < MAX_PSYC_PAGES
      ensures SlotOk(t, j)
    {
      assert SlotOk(s, j);
    }
    forall w | w in t.ptes
      ensures EntryOk(t, w) && ContentOf(t, w) == ContentOf(s, w)
    {
      assert EntryOk(s, w);
      if s.ptes[w].pg {
        assert PageOk(s, s.indexOf[w]);
        assert SlotOk(s, s.pages[s.indexOf[w]].offset);
        OverwritePage(s.swap, k, s.mem[s.ptes[va].frame], s.pages[s.indexOf[w]].offset);
      } else if w == va {
        OverwritePage(s.swap, k, s.mem[s.ptes[va].frame], k);
      }
    }
    forall j | 0 <= j < |t.free|
      ensures FreeOk(t, j)
    {
      if j < |s.free| {
        assert FreeOk(s, j);
      }
    }
  }

  lemma EvictCounts(s: State, i: int, k: int, junk: seq<int>, ramPages: int, alocPages: int)
    requires Counted(s, ramPages, alocPages) && 0 <= i < |s.pages| && Resident(s.pages[i]) && 0 <= k < |s.occupied| && !s.occupied[k]
    requires |s.owner| == |s.occupied| && k * PGSIZE <= |s.swap| && s.pages[i].va in s.ptes && s.ptes[s.pages[i].va].frame in s.mem
    ensures Counted(Evict(s, i, k, junk), ramPages - 1, alocPages)
    ensures Residents(Evict(s, i, k, junk).pages) == Residents(s.pages) - {i}
  {
    hide Residents, SwappedOut, Tracked, Taken, Counted;
    var t := Evict(s, i, k, junk);
    CountsChange(s, t, i, s.pages[i].(offset := k, inRam := false), k, true, ramPages, alocPages);
  }

  /** page_to_RAM() for page i, into the frame at the head of the free list. */
  function Load(s: State, i: int, age: Uint): State
    requires 0 <= i < |s.pages| && s.free != [] && 0 <= s.pages[i].offset < |s.occupied| && |s.owner| == |s.occupied|
    requires (s.pages[i].offset + 1) * PGSIZE <= |s.swap|
  {
    var p := s.pages[i];
    var f := s.free[|s.free| - 1];
    s.(pages := s.pages[i := p.(inRam := true, age := age)], occupied := s.occupied[p.offset := false], owner := s.owner[p.offset := -1],
       ptes := s.ptes[p.va := Entry(f, true, false, false)], mem := s.mem[f := PageAt(s.swap, p.offset)], free := s.free[..|s.free| - 1],
       usedBy := s.usedBy[f := p.va])
  }

  lemma LoadKeeps(s: State, i: int, age: Uint)
    requires Consistent(s) && 0 <= i < MAX_TOTAL_PAGES && Swapped(s.pages[i]) && s.free != []
    ensures 0 <= s.pages[i].offset < MAX_PSYC_PAGES && (s.pages[i].offset + 1) * PGSIZE <= |s.swap| && s.pages[i].va in s.ptes
    ensures Consistent(Load(s, i, age)) && SameContents(s, Load(s, i, age), -1)
  {
    var va, k, f := s.pages[i].va, s.pages[i].offset, s.free[|s.free| - 1];
    assert PageOk(s, i) && SlotOk(s, k) && EntryOk(s, va) && FreeOk(s, |s.free| - 1);
    var t := Load(s, i, age);
    forall j | 0 <= j < MAX_TOTAL_PAGES
      ensures PageOk(t, j)
    {
      assert PageOk(s, j);
    }
    forall j | 0 <= j < MAX_PSYC_PAGES
      ensures SlotOk(t, j)
    {
      assert SlotOk(s, j);
    }
    forall w | w in t.ptes
      ensures EntryOk(t, w) && ContentOf(t, w) == ContentOf(s, w)
    {
      FrameFree(s, w);
      assert EntryOk(s, w);
      if s.ptes[w].pg {
        assert PageOk(s, s.indexOf[w]);
      }
    }
    forall j | 0 <= j < |t.free|
      ensures FreeOk(t, j)
    {
      assert FreeOk(s, j);
    }
  }

  /** The frame kalloc() hands out holds no page. */
  lemma FrameFree(s: State, w: int)
    requires Consistent(s) && s.free != [] && w in s.ptes
    ensures s.ptes[w].v ==> s.ptes[w].frame != s.free[|s.free| - 1] && s.ptes[w].frame !in s.free[..|s.free| - 1]
    ensures s.free[|s.free| - 1] !in s.free[..|s.free| - 1]
  {
    assert EntryOk(s, w);
  }

  lemma LoadCounts(s: State, i: int, age: Uint, ramPages: int, alocPages: int)
    requires Counted(s, ramPages, alocPages) && ramPages < MAX_PSYC_PAGES && 0 <= i < |s.pages| && Swapped(s.pages[i]) && s.free != []
    requires 0 <= s.pages[i].offset < |s.occupied| && |s.owner| == |s.occupied| && (s.pages[i].offset + 1) * PGSIZE <= |s.swap|
    requires s.occupied[s.pages[i].offset]
    ensures Counted(Load(s, i, age), ramPages + 1, alocPages)
    ensures Residents(Load(s, i, age).pages) == Residents(s.pages) + {i}
  {
    hide Residents, SwappedOut, Tracked, Taken, Counted;
    var t := Load(s, i, age);
    CountsChange(s, t, i, s.pages[i].(inRam := true, age := age), s.pages[i].offset, false, ramPages, alocPages);
  }

  /** A zeroed frame mapped at va: what uvmalloc() does for each page. */
  function MapNew(s: State, va: int): State
    requires s.free != []
  {
    var f := s.free[|s.free| - 1];
    s.(ptes := s.ptes[va := Entry(f, true, false, false)], mem := s.mem[f := ZeroPage()],
        free := s.free[..|s.free| - 1], usedBy := s.usedBy[f := va])
  }

  function ZeroPage(): (p: seq<int>)
    ensures |p| == PGSIZE && forall j :: 0 <= j < PGSIZE ==> p[j] == 0
  {
    seq(PGSIZE, _ => 0)
  }

  lemma MapNewKeeps(s: State, va: int)
    requires Consistent(s) && va >= 0 && va !in s.ptes && s.free != []
    ensures Consistent(MapNew(s, va)) && SameContents(s, MapNew(s, va), va)
  {
    var f := s.free[|s.free| - 1];
    assert FreeOk(s, |s.free| - 1);
    var t := MapNew(s, va);
    forall j | 0 <= j < MAX_TOTAL_PAGES
      ensures PageOk(t, j)
    {
      assert PageOk(s, j);
    }
    forall j | 0 <= j < MAX_PSYC_PAGES
      ensures SlotOk(t, j)
    {
      assert SlotOk(s, j);
    }
    forall w | w in t.ptes
      ensures EntryOk(t, w) && (w != va ==> ContentOf(t, w) == ContentOf(s, w))
    {
      if w != va {
        FrameFree(s, w);
        assert EntryOk(s, w);
      }
    }
    forall j | 0 <= j < |t.free|
      ensures FreeOk(t, j)
    {
      assert FreeOk(s, j);
    }
  }

  /** alloc_page() in the free table entry i. */
  function Track(s: State, i: int, va: int): State
    requires 0 <= i < |s.pages|
  {
    s.(pages := s.pages[i := s.pages[i].(isAllocated := true, va := va, inRam := true)], indexOf := s.indexOf[va := i])
  }

  lemma TrackKeeps(s: State, i: int, va: int)
    requires Consistent(s) && 0 <= i < MAX_TOTAL_PAGES && !s.pages[i].isAllocated && va in s.ptes && s.ptes[va].v
    requires forall j :: 0 <= j < MAX_TOTAL_PAGES ==> s.pages[j].va != va
    ensures Consistent(Track(s, i, va)) && SameContents(s, Track(s, i, va), -1)
  {
    var t := Track(s, i, va);
    assert EntryOk(s, va);
    forall j | 0 <= j < MAX_TOTAL_PAGES
      ensures PageOk(t, j)
    {
      assert PageOk(s, j);
    }
    forall j | 0 <= j < MAX_PSYC_PAGES
      ensures SlotOk(t, j)
    {
      assert SlotOk(s, j);
    }
    forall w | w in t.ptes
      ensures EntryOk(t, w) && ContentOf(t, w) == ContentOf(s, w)
    {
      assert EntryOk(s, w);
    }
    forall j | 0 <= j < |t.free|
      ensures FreeOk(t, j)
    {
      assert FreeOk(s, j);
    }
  }

  lemma TrackCounts(s: State, i: int, va: int, ramPages: int, alocPages: int)
    requires Counted(s, ramPages, alocPages) && ramPages < MAX_PSYC_PAGES && 0 <= i < |s.pages| && !s.pages[i].isAllocated
    ensures Counted(Track(s, i, va), ramPages + 1, alocPages + 1)
    ensures Residents(Track(s, i, va).pages) == Residents(s.pages) + {i}
  {
    var t := Track(s, i, va);
    hide Residents, SwappedOut, Tracked, Taken;
    var p := s.pages[i].(isAllocated := true, va := va, inRam := true);
    ResidentsChanged(s.pages, i, p);
    SwappedChanged(s.pages, i, p);
    TrackedChanged(s.pages, i, p);
  }

  /** The user's own store to a byte of a page in memory; the hardware marks the page accessed. */
  function UserStored(s: State, va: int, j: int, b: int): State
    requires va in s.ptes && s.ptes[va].frame in s.mem && 0 <= j < |s.mem[s.ptes[va].frame]|
  {
    var e := s.ptes[va];
    s.(ptes := s.ptes[va := e.(a := true)], mem := s.mem[e.frame := s.mem[e.frame][j := b]])
  }

  lemma UserStoreKeeps(s: State, va: int, j: int, b: int)
    requires Consistent(s) && va in s.ptes && s.ptes[va].v && 0 <= j < PGSIZE
    ensures s.ptes[va].frame in s.mem && |s.mem[s.ptes[va].frame]| == PGSIZE
    ensures Consistent(UserStored(s, va, j, b)) && SameContents(s, UserStored(s, va, j, b), va)
    ensures |ContentOf(s, va)| == PGSIZE && ContentOf(UserStored(s, va, j, b), va) == ContentOf(s, va)[j := b]
  {
    assert EntryOk(s, va);
    var t := UserStored(s, va, j, b);
    forall i | 0 <= i < MAX_TOTAL_PAGES
      ensures PageOk(t, i)
    {
      assert PageOk(s, i);
    }
    forall k | 0 <= k < MAX_PSYC_PAGES
      ensures SlotOk(t, k)
    {
      assert SlotOk(s, k);
    }
    forall w | w in t.ptes
      ensures EntryOk(t, w) && (w != va ==> ContentOf(t, w) == ContentOf(s, w))
    {
      assert EntryOk(s, w);
    }
    forall k | 0 <= k < |t.free|
      ensures FreeOk(t, k)
    {
      assert FreeOk(s, k);
    }
  }

  /** Ages and accessed bits do not matter to the invariant. */
  predicate SameButAges(s: State, s': State) {
    && |s'.pages| == |s.pages| && s'.ptes.Keys == s.ptes.Keys
    && (forall i {:trigger s'.pages[i]} :: 0 <= i < |s.pages| ==> s'.pages[i] == s.pages[i].(age := s'.pages[i].age))
    && (forall va {:trigger s'.ptes[va]} :: va in s.ptes ==> s'.ptes[va] == s.ptes[va].(a := s'.ptes[va].a))
    && s'.occupied == s.occupied && s'.mem == s.mem && s'.swap == s.swap && s'.free == s.free
    && s'.indexOf == s.indexOf && s'.owner == s.owner && s'.usedBy == s.usedBy
  }

  lemma AgesKeep(s: State, s': State)
    requires Consistent(s) && SameButAges(s, s')
    ensures Consistent(s') && SameContents(s, s', -1)
  {
    forall i | 0 <= i < MAX_TOTAL_PAGES
      ensures PageOk(s', i)
    {
      assert PageOk(s, i);
    }
    forall k | 0 <= k < MAX_PSYC_PAGES
      ensures SlotOk(s', k)
    {
      assert SlotOk(s, k);
    }
    forall w | w in s'.ptes
      ensures EntryOk(s', w) && ContentOf(s', w) == ContentOf(s, w)
    {
      assert EntryOk(s, w);
    }
    forall k | 0 <= k < |s'.free|
      ensures FreeOk(s', k)
    {
      assert FreeOk(s, k);
    }
  }

  lemma AgesCount(s: State, s': State, ramPages: int, alocPages: int)
    requires Counted(s, ramPages, alocPages) && SameButAges(s, s')
    ensures Counted(s', ramPages, alocPages) && Residents(s'.pages) == Residents(s.pages)
  {
    assert Residents(s'.pages) == Residents(s.pages);
    assert SwappedOut(s'.pages) == SwappedOut(s.pages);
    assert Tracked(s'.pages) == Tracked(s.pages);
  }

  // ---- When a slot is free ----

  lemma {:induction false} BoundedSet(x: set<int>, n: nat)
    requires forall i :: i in x ==> 0 <= i < n
    ensures |x| <= n && (|x| == n <==> forall i :: 0 <= i < n ==> i in x)
  {
    if n > 0 {
      BoundedSet(x - {n - 1}, n - 1);
      if n - 1 in x {
        assert |x| == |x - {n - 1}| + 1;
      } else {
        assert x - {n - 1} == x;
      }
    } else {
      assert forall i :: i in x ==> 0 <= i < 0;
      assert x <= {};
    }
  }

  /** All sixteen slots are taken exactly when sixteen pages are out. */
  lemma SlotsFull(s: State, ramPages: int, alocPages: int)
    requires Counted(s, ramPages, alocPages) && |s.occupied| == MAX_PSYC_PAGES
    ensures (forall k :: 0 <= k < MAX_PSYC_PAGES ==> s.occupied[k]) <==> alocPages - ramPages == MAX_PSYC_PAGES
    ensures |SwappedOut(s.pages)| == alocPages - ramPages <= MAX_PSYC_PAGES
  {
    BoundedSet(Taken(s.occupied), MAX_PSYC_PAGES);
    assert Tracked(s.pages) == Residents(s.pages) + SwappedOut(s.pages);
    assert Residents(s.pages) !! SwappedOut(s.pages);
    assert forall k :: 0 <= k < MAX_PSYC_PAGES ==> (k in Taken(s.occupied) <==> s.occupied[k]);
  }

  /** Below the first free slot every slot has been written, so writing the free one leaves no hole. */
  lemma LowestFreeInFile(s: State, k: int)
    requires Consistent(s) && 0 <= k < MAX_PSYC_PAGES && forall j :: 0 <= j < k ==> s.occupied[j]
    ensures k * PGSIZE <= |s.swap|
  {
    if k > 0 {
      assert SlotOk(s, k - 1);
    }
  }

  /** With all thirty-two pages tracked, memory and slots are both full. */
  lemma AllTrackedMeansFull(s: State, ramPages: int, alocPages: int)
    requires Counted(s, ramPages, alocPages) && |s.pages| == MAX_TOTAL_PAGES && |s.occupied| == MAX_PSYC_PAGES
    ensures alocPages == MAX_TOTAL_PAGES <==> ramPages == MAX_PSYC_PAGES && forall k :: 0 <= k < MAX_PSYC_PAGES ==> s.occupied[k]
  {
    SlotsFull(s, ramPages, alocPages);
  }

  // ---- Runs ----

  /** One change of the process's paging state; AgesStep covers aging and what the policies do to PTE_A. */
  datatype Step =
    | OutStep(i: int, k: int)
    | InStep(i: int, age: Uint)
    | NewStep(va: int)
    | TrackStep(i: int, va: int)
    | StoreStep(va: int, j: int, b: int)
    | AgesStep(after: State)

  ghost predicate Allowed(s: State, step: Step) {
    match step
    case OutStep(i, k) =>
      && 0 <= i < |s.pages| && Resident(s.pages[i])
      && 0 <= k < |s.occupied| && !s.occupied[k] && forall j :: 0 <= j < k ==> s.occupied[j]
    case InStep(i, age) => 0 <= i < |s.pages| && Swapped(s.pages[i]) && s.free != []
    case NewStep(va) => va >= 0 && va !in s.ptes && s.free != []
    case TrackStep(i, va) =>
      && 0 <= i < |s.pages| && !s.pages[i].isAllocated && va in s.ptes && s.ptes[va].v
      && forall j :: 0 <= j < |s.pages| ==> s.pages[j].va != va
    case StoreStep(va, j, b) => va in s.ptes && s.ptes[va].v && 0 <= j < PGSIZE
    case AgesStep(after) => SameButAges(s, after)
  }

  /** What stops a step: a resident page can go out exactly while a slot is free, one that is out can come back and a
      new one can be made exactly while a frame is free, and a byte can be stored exactly in a page in memory. */
  lemma StepsGoOn(s: State, i: int, va: int, j: int, age: Uint)
    requires Consistent(s) && 0 <= i < |s.pages|
    ensures s.pages[i].isAllocated && s.pages[i].inRam ==>
      ((exists k :: Allowed(s, OutStep(i, k))) <==> exists k :: 0 <= k < MAX_PSYC_PAGES && !s.occupied[k])
    ensures s.pages[i].isAllocated && !s.pages[i].inRam ==> (Allowed(s, InStep(i, age)) <==> |s.free| > 0)
    ensures va >= 0 && va !in s.ptes ==> (Allowed(s, NewStep(va)) <==> |s.free| > 0)
    ensures va in s.ptes && s.ptes[va].v ==> (Allowed(s, StoreStep(va, j, 0)) <==> 0 <= j <= PGSIZE - 1)
  {
    if k :| 0 <= k < MAX_PSYC_PAGES && !s.occupied[k] {
      var low := LowestFree(s.occupied, k);
      assert Resident(s.pages[i]) ==> Allowed(s, OutStep(i, low));
    }
  }

  lemma {:induction false} LowestFree(occupied: seq<bool>, k: int) returns (low: int)
    requires 0 <= k < |occupied| && !occupied[k]
    ensures 0 <= low <= k && !occupied[low] && forall j :: 0 <= j < low ==> occupied[j]
    decreases k
  {
    low := k;
    if j :| 0 <= j < k && !occupied[j] {
      low := LowestFree(occupied, j);
    }
  }

  /** The state after an allowed step. */
  ghost function After(s: State, step: Step): (t: State)
    requires Consistent(s) && Allowed(s, step)
    ensures Consistent(t) && SameContents(s, t, if step.StoreStep? || step.NewStep? then step.va else -1)
    ensures step.StoreStep? ==>
      |ContentOf(s, step.va)| == PGSIZE && step.va in t.ptes &&
        ContentOf(t, step.va) == ContentOf(s, step.va)[step.j := step.b]
  {
    match step
    case OutStep(i, k) => LowestFreeInFile(s, k); EvictKeeps(s, i, k, ZeroPage()); Evict(s, i, k, ZeroPage())
    case InStep(i, age) => LoadKeeps(s, i, age); assert SlotOk(s, s.pages[i].offset); Load(s, i, age)
    case NewStep(va) => MapNewKeeps(s, va); MapNew(s, va)
    case TrackStep(i, va) => TrackKeeps(s, i, va); Track(s, i, va)
    case StoreStep(va, j, b) => UserStoreKeeps(s, va, j, b); UserStored(s, va, j, b)
    case AgesStep(after) => AgesKeep(s, after); after
  }

  ghost predicate IsRun(s: State, steps: seq<Step>)
    decreases |steps|
  {
    steps == [] || (Consistent(s) && Allowed(s, steps[0]) && IsRun(After(s, steps[0]), steps[1..]))
  }

  ghost function AfterRun(s: State, steps: seq<Step>): State
    requires IsRun(s, steps)
    decreases |steps|
  {
    if steps == [] then s else AfterRun(After(s, steps[0]), steps[1..])
  }

  /** What the user's stores alone make of a page. */
  function Stored(page: seq<int>, va: int, steps: seq<Step>): (p: seq<int>)
    ensures |p| == |page|
    decreases |steps|
  {
    if steps == [] then page
    else
      var next := if steps[0].StoreStep? && steps[0].va == va && 0 <= steps[0].j < |page| then page[steps[0].j := steps[0].b] else page;
      Stored(next, va, steps[1..])
  }

  /** Over any run of growth, evictions, faults, aging and stores, a page changes by the user's own stores only. */
  lemma {:induction false} RunKeepsContents(s: State, steps: seq<Step>, va: int)
    requires Consistent(s) && IsRun(s, steps) && va in s.ptes
    ensures Consistent(AfterRun(s, steps)) && va in AfterRun(s, steps).ptes
    ensures ContentOf(AfterRun(s, steps), va) == Stored(ContentOf(s, va), va, steps)
    decreases |steps|
  {
    if steps != [] {
      hide Consistent, SameContents, ContentOf;
      KeptOnce(s, steps[0], va);
      RunKeepsContents(After(s, steps[0]), steps[1..], va);
    }
  }

  lemma KeptOnce(s: State, step: Step, va: int)
    requires Consistent(s) && Allowed(s, step) && va in s.ptes
    ensures va in After(s, step).ptes
    ensures ContentOf(After(s, step), va) ==
      if step.StoreStep? && step.va == va && 0 <= step.j < |ContentOf(s, va)| then ContentOf(s, va)[step.j := step.b]
      else ContentOf(s, va)
  {
    assert EntryOk(s, va);
  }
}
