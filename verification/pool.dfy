/** Physical frames: kalloc.c's free list threaded through the free frames themselves, and the
    bookkeeping that gives every frame exactly one owner. */
module FramePool {

  const WORDS := 512                       // 64-bit words in a page
  const NULL := 0
  const JUNK_FREE := 0x0101010101010101    // memset(pa, 1, PGSIZE)
  const JUNK_NEW := 0x0505050505050505     // memset(r, 5, PGSIZE)

  /** Node h of address space `root`: h = 0 is a mapped page, h = 1, 2, 3 are the page-table pages of
      level h - 1, and `key` is the virtual page number without its 9h low bits. */
  datatype Slot = Slot(root: int, h: int, key: int)

  datatype Role = Free | Held | Page(slot: Slot)

  type Memory = map<int, seq<int>>

  function Fill(w: int): (p: seq<int>)
    ensures |p| == WORDS && forall i :: 0 <= i < WORDS ==> p[i] == w
  {
    seq(WORDS, _ => w)
  }

  predicate InPool(lo: int, hi: int, f: int) {
    lo <= f < hi
  }

  /** Every frame of the pool has a page of memory and one role. */
  ghost predicate Frames(lo: int, hi: int, mem: Memory, role: map<int, Role>) {
    && 0 < lo
    && (forall f {:trigger f in mem} :: InPool(lo, hi, f) <==> f in mem)
    && (forall f {:trigger f in role} :: InPool(lo, hi, f) <==> f in role)
    && (forall f {:trigger mem[f]} :: f in mem ==> |mem[f]| == WORDS)
  }

  /** `free` lists the free frames, the head of kmem.freelist last; each links to the one below it. */
  ghost predicate FreeList(lo: int, hi: int, mem: Memory, head: int, free: seq<int>, role: map<int, Role>) {
    && head == (if free == [] then NULL else free[|free| - 1])
    && (forall i {:trigger free[i]} :: 0 <= i < |free| ==> InPool(lo, hi, free[i]) && free[i] in role && role[free[i]] == Free)
    && (forall f {:trigger role[f]} :: f in role && role[f] == Free ==> f in free)
    && (forall i, j :: 0 <= i < j < |free| ==> free[i] != free[j])
    && (forall i {:trigger Linked(mem, free, i)} :: 0 <= i < |free| ==> Linked(mem, free, i))
  }

  predicate Linked(mem: Memory, free: seq<int>, i: int)
    requires 0 <= i < |free|
  {
    free[i] in mem && mem[free[i]] != [] && mem[free[i]][0] == if i == 0 then NULL else free[i - 1]
  }

  /** Writing a frame that is not free leaves the list alone. */
  lemma StoreKeepsFree(lo: int, hi: int, mem: Memory, mem': Memory, head: int, free: seq<int>, role: map<int, Role>, f: int)
    requires FreeList(lo, hi, mem, head, free, role) && Frames(lo, hi, mem, role) && f in role && role[f] != Free
    requires mem'.Keys == mem.Keys && forall g :: g in mem && g != f ==> mem'[g] == mem[g]
    ensures FreeList(lo, hi, mem', head, free, role)
  {
    forall i | 0 <= i < |free|
      ensures Linked(mem', free, i)
    {
      assert Linked(mem, free, i);
      assert role[free[i]] == Free;
    }
  }

  /** Changing the role of a frame that is not free, and stays so, leaves the list alone. */
  lemma RoleKeepsFree(lo: int, hi: int, mem: Memory, head: int, free: seq<int>, role: map<int, Role>, f: int, r: Role)
    requires FreeList(lo, hi, mem, head, free, role) && f in role && role[f] != Free && r != Free
    ensures FreeList(lo, hi, mem, head, free, role[f := r])
  {
  }

  lemma PopKeeps(lo: int, hi: int, mem: Memory, head: int, free: seq<int>, role: map<int, Role>)
    requires FreeList(lo, hi, mem, head, free, role) && Frames(lo, hi, mem, role) && free != []
    ensures head in mem && head in role && mem[head] != [] && role[head] == Free
    ensures FreeList(lo, hi, mem[head := Fill(JUNK_NEW)], mem[head][0], free[..|free| - 1], role[head := Held])
    ensures Frames(lo, hi, mem[head := Fill(JUNK_NEW)], role[head := Held])
  {
    var rest := free[..|free| - 1];
    assert Linked(mem, free, |free| - 1);
    assert role[free[|free| - 1]] == Free;
    var mem' := mem[head := Fill(JUNK_NEW)];
    forall i | 0 <= i < |rest|
      ensures Linked(mem', rest, i)
    {
      assert Linked(mem, free, i);
    }
    forall f | f in role && role[head := Held][f] == Free
      ensures f in rest
    {
      assert role[f] == Free;
      assert f in free;
    }
  }

  /** The links after a frame is put on the list. */
  lemma PushLinks(lo: int, hi: int, mem: Memory, head: int, free: seq<int>, role: map<int, Role>, f: int, i: int)
    requires FreeList(lo, hi, mem, head, free, role) && f in role && role[f] != Free && 0 <= i <= |free|
    ensures Linked(mem[f := Fill(JUNK_FREE)[0 := head]], free + [f], i)
    ensures i < |free| ==> free[i] != f
  {
    if i < |free| {
      assert Linked(mem, free, i);
      assert role[free[i]] == Free;
    }
  }

  lemma PushKeeps(lo: int, hi: int, mem: Memory, head: int, free: seq<int>, role: map<int, Role>, f: int)
    requires FreeList(lo, hi, mem, head, free, role) && Frames(lo, hi, mem, role) && f in role && role[f] != Free
    ensures var mem' := mem[f := Fill(JUNK_FREE)[0 := head]];
      FreeList(lo, hi, mem', f, free + [f], role[f := Free]) && Frames(lo, hi, mem', role[f := Free])
  {
    hide Linked, Fill;
    var mem' := mem[f := Fill(JUNK_FREE)[0 := head]];
    var more := free + [f];
    assert InPool(lo, hi, f);
    forall i | 0 <= i < |more|
      ensures Linked(mem', more, i)
      ensures i < |free| ==> more[i] != f
    {
      PushLinks(lo, hi, mem, head, free, role, f, i);
    }
    forall g | g in role && role[f := Free][g] == Free
      ensures g in more
    {
      if g == f {
        assert more[|free|] == f;
      } else {
        assert role[g] == Free;
        assert g in free;
      }
    }
  }
}
