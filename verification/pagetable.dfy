/** Sv39 page tables as trees of frames (section 4.4 of the RISC-V Privileged Architecture, version
    1.12): page-table entries, the shape invariant, and why each change to a table keeps it. */
module PageTable {
  import opened Bits
  import opened FramePool

  const PTE_V := 1
  const PTE_R := 2
  const PTE_W := 4
  const PTE_X := 8
  const PTE_U := 16
  const FLAGBITS := 1024   // PTE_FLAGS keeps ten bits; the page number is above them
  const MAXPAGE := 0x400_0000  // MAXVA / PGSIZE

  // ---- Entries ----

  function Flags(w: int): int { w % FLAGBITS }

  function Ppn(w: int): int { w / FLAGBITS }

  predicate IsV(w: int) { Flags(w) % 2 == 1 }

  /** One of R, W, X is set: the entry maps a page rather than naming a table. */
  predicate IsLeaf(w: int) { Flags(w) / 2 % 8 != 0 }

  predicate IsUser(w: int) { Flags(w) / 16 % 2 == 1 }

  /** flags | PTE_V */
  function WithV(flags: int): int { if flags % 2 == 1 then flags else flags + 1 }

  function MakePte(frame: int, flags: int): int { frame * FLAGBITS + flags }

  lemma PteFields(frame: int, flags: int)
    requires 0 <= flags < FLAGBITS
    ensures Flags(MakePte(frame, flags)) == flags && Ppn(MakePte(frame, flags)) == frame
  {
  }

  /** The format of an entry, as section 4.4.1 has it: V, R, W, X and U are bits 0 to 4, and the frame's number
      starts at bit 10. */
  lemma EntryFormat(frame: nat, flags: nat)
    requires flags < FLAGBITS
    ensures var w := MakePte(frame, flags);
      && w == flags + frame * 1024 && Ppn(w) == frame
      && (IsV(w) <==> Bit(flags, 0)) && (IsUser(w) <==> Bit(flags, 4))
      && (IsLeaf(w) <==> Bit(flags, 1) || Bit(flags, 2) || Bit(flags, 3))
  {
    hide Bit, MakePte;
    PteFields(frame, flags);
    assert MakePte(frame, flags) == flags + frame * 1024 by { PteValue(frame, flags); }
    LowestBit(flags);
    LowestBit(flags / 2);
    LowestBit(flags / 4);
    LowestBit(flags / 8);
    LowestBit(flags / 16);
    BitOfHalf(flags, 0);
    BitOfHalf(flags, 1);
    BitOfHalf(flags, 2);
    BitOfHalf(flags, 3);
    BitOfHalf(flags / 2, 0);
    BitOfHalf(flags / 2, 1);
    BitOfHalf(flags / 2, 2);
    BitOfHalf(flags / 4, 0);
    BitOfHalf(flags / 4, 1);
    BitOfHalf(flags / 8, 0);
  }

  lemma PteValue(frame: nat, flags: nat)
    ensures MakePte(frame, flags) == flags + frame * 1024
  {
  }

  /** Setting V changes no other flag. */
  lemma WithVSets(flags: nat, k: nat)
    ensures Bit(WithV(flags), k) <==> k == 0 || Bit(flags, k)
  {
    hide Bit;
    LowestBit(flags);
    LowestBit(WithV(flags));
    if k > 0 {
      BitOfHalf(flags, k - 1);
      BitOfHalf(WithV(flags), k - 1);
      assert WithV(flags) / 2 == flags / 2;
    }
  }

  lemma LowPowers()
    ensures Pow2(0) == 1 && Pow2(1) == 2 && Pow2(2) == 4 && Pow2(3) == 8 && Pow2(4) == 16
  {
  }

  /** Each of the flags is its own bit. */
  lemma FlagBits()
    ensures PTE_V == Pow2(0) && PTE_R == Pow2(1) && PTE_W == Pow2(2) && PTE_X == Pow2(3) && PTE_U == Pow2(4)
    ensures FLAGBITS == Pow2(10)
  {
    LowPowers();
    assert Pow2(5) == 32 && Pow2(7) == 128 && Pow2(9) == 512;
  }

  // ---- Places in a tree ----

  function Child(s: Slot, i: int): Slot {
    Slot(s.root, s.h - 1, s.key * WORDS + i)
  }

  function Parent(s: Slot): Slot {
    Slot(s.root, s.h + 1, s.key / WORDS)
  }

  lemma ParentOfChild(s: Slot, i: int)
    requires 0 <= i < WORDS
    ensures Parent(Child(s, i)) == s && Child(s, i).key % WORDS == i
  {
  }

  lemma ChildOfParent(s: Slot)
    ensures Child(Parent(s), s.key % WORDS) == s && 0 <= s.key % WORDS < WORDS
  {
  }

  lemma ChildInjective(s: Slot, i: int, t: Slot, j: int)
    requires 0 <= i < WORDS && 0 <= j < WORDS && Child(s, i) == Child(t, j)
    ensures s == t && i == j
  {
    ParentOfChild(s, i);
    ParentOfChild(t, j);
  }

  /** The page number without its 9h low bits: what selects the node of height h on the way to it. */
  function Key(vpn: int, h: nat): (k: int)
    ensures 0 <= vpn ==> 0 <= k
  {
    if h == 0 then vpn else Key(vpn, h - 1) / WORDS
  }

  function OnPath(root: int, vpn: int, h: nat): Slot {
    Slot(root, h, Key(vpn, h))
  }

  /** PX(h - 1, va): the index walk() uses in the table of height h. */
  function Index(vpn: int, h: nat): (i: int)
    requires h >= 1
    ensures 0 <= i < WORDS
  {
    Key(vpn, h - 1) % WORDS
  }

  lemma PathStep(root: int, vpn: int, h: nat)
    requires h >= 1
    ensures Child(OnPath(root, vpn, h), Index(vpn, h)) == OnPath(root, vpn, h - 1)
  {
  }

  /** The indices walk() uses: nine bits of the page number each, the highest first. */
  lemma PathIndices(vpn: nat)
    requires vpn < MAXPAGE
    ensures vpn == (Index(vpn, 3) * WORDS + Index(vpn, 2)) * WORDS + Index(vpn, 1) && Index(vpn, 3) < 256
    ensures WORDS == 512 && MAXPAGE == 256 * 512 * 512
  {
    assert Key(vpn, 1) == vpn / WORDS && Key(vpn, 2) == Key(vpn, 1) / WORDS;
  }

  lemma PathTop(root: int, vpn: int)
    requires 0 <= vpn < MAXPAGE
    ensures OnPath(root, vpn, 3) == Slot(root, 3, 0)
  {
    assert Key(vpn, 1) == vpn / WORDS && Key(vpn, 2) == Key(vpn, 1) / WORDS && Key(vpn, 3) == Key(vpn, 2) / WORDS;
  }

  // ---- The invariant ----

  const NONE := Slot(0, -2, 0)

  predicate Placed(s: Slot) {
    0 <= s.h <= 3 && 0 <= s.key && (s.h == 3 ==> s.key == 0) && (s.h == 0 ==> s.key < MAXPAGE)
  }

  /** Entry i of table s points to its child, as a leaf exactly at the lowest level, or is zero and there is none. */
  predicate EntryOk(mem: Memory, at: map<Slot, int>, s: Slot, i: int)
    requires s in at && at[s] in mem && 0 <= i < |mem[at[s]]|
  {
    var w := mem[at[s]][i];
    if IsV(w) then
      && Child(s, i) in at && at[Child(s, i)] == Ppn(w)
      && (if s.h == 1 then IsLeaf(w) else Flags(w) == PTE_V)
    else w == 0 && Child(s, i) !in at
  }

  /** A node is a frame of the pool with that role; only a mapped page may lie outside the pool. */
  predicate NodeOk(lo: int, hi: int, role: map<int, Role>, at: map<Slot, int>, s: Slot)
    requires s in at
  {
    && Placed(s)
    && (s.h >= 1 ==> InPool(lo, hi, at[s]))
    && (InPool(lo, hi, at[s]) ==> at[s] in role && role[at[s]] == Page(s))
    && (if s.h == 3 then at[s] == s.root else Parent(s) in at)
  }

  /** `at` gives the frame of every node of every address space, and the tables in memory say the
      same; the entry for `gone` alone may still point to a node that has been taken away. */
  ghost predicate Trees(lo: int, hi: int, mem: Memory, role: map<int, Role>, at: map<Slot, int>, gone: Slot) {
    && Frames(lo, hi, mem, role)
    && gone !in at
    && (forall s {:trigger NodeOk(lo, hi, role, at, s)} :: s in at ==> NodeOk(lo, hi, role, at, s))
    && (forall f {:trigger role[f]} :: f in role && role[f].Page? ==> role[f].slot in at && at[role[f].slot] == f)
    && (forall s, i {:trigger TableOk(mem, at, gone, s, i)} :: TableOk(mem, at, gone, s, i))
  }

  ghost predicate TableOk(mem: Memory, at: map<Slot, int>, gone: Slot, s: Slot, i: int) {
    s in at && s.h >= 1 && 0 <= i < WORDS && Child(s, i) != gone ==>
      at[s] in mem && i < |mem[at[s]]| && EntryOk(mem, at, s, i)
  }

  /** Two nodes never share a frame. */
  lemma NodesApart(lo: int, hi: int, mem: Memory, role: map<int, Role>, at: map<Slot, int>, gone: Slot, s: Slot, t: Slot)
    requires Trees(lo, hi, mem, role, at, gone) && s in at && t in at && s != t && InPool(lo, hi, at[s])
    ensures at[s] != at[t]
  {
    assert NodeOk(lo, hi, role, at, s) && NodeOk(lo, hi, role, at, t);
  }

  /** Every node hangs under the root of its space. */
  lemma RootPresent(lo: int, hi: int, mem: Memory, role: map<int, Role>, at: map<Slot, int>, gone: Slot, s: Slot)
    requires Trees(lo, hi, mem, role, at, gone) && s in at
    ensures Slot(s.root, 3, 0) in at && at[Slot(s.root, 3, 0)] == s.root
    decreases 3 - s.h
  {
    assert NodeOk(lo, hi, role, at, s);
    if s.h < 3 {
      assert NodeOk(lo, hi, role, at, Parent(s));
      RootPresent(lo, hi, mem, role, at, gone, Parent(s));
    }
  }

  // ---- Changes that keep the invariant ----

  /** Stores into frames that are not page tables. */
  lemma StoreKeepsTrees(lo: int, hi: int, mem: Memory, role: map<int, Role>, at: map<Slot, int>, gone: Slot, f: int, p: seq<int>)
    requires Trees(lo, hi, mem, role, at, gone) && f in mem && f in role && |p| == WORDS
    requires role[f].Page? ==> role[f].slot.h == 0
    ensures Trees(lo, hi, mem[f := p], role, at, gone)
  {
    var mem' := mem[f := p];
    forall s, i | s in at && s.h >= 1 && 0 <= i < WORDS && Child(s, i) != gone
      ensures TableOk(mem', at, gone, s, i)
    {
      assert TableOk(mem, at, gone, s, i);
      assert NodeOk(lo, hi, role, at, s);
    }
    assert forall s, i :: TableOk(mem, at, gone, s, i) ==> TableOk(mem', at, gone, s, i);
  }

  /** Role changes of frames outside the trees. */
  lemma RoleKeepsTrees(lo: int, hi: int, mem: Memory, role: map<int, Role>, at: map<Slot, int>, gone: Slot, f: int, r: Role)
    requires Trees(lo, hi, mem, role, at, gone) && f in role && !role[f].Page? && !r.Page?
    ensures Trees(lo, hi, mem, role[f := r], at, gone)
  {
    forall s | s in at
      ensures NodeOk(lo, hi, role[f := r], at, s)
    {
      assert NodeOk(lo, hi, role, at, s);
    }
  }

  /** The table of node s with entry i replaced. */
  function SetEntry(mem: Memory, at: map<Slot, int>, s: Slot, i: int, w: int): (r: Memory)
    requires s in at && at[s] in mem && 0 <= i < |mem[at[s]]|
    ensures r.Keys == mem.Keys
  {
    mem[at[s] := mem[at[s]][i := w]]
  }

  ghost predicate Attachable(lo: int, hi: int, mem: Memory, role: map<int, Role>, s: Slot, f: int, w: int) {
    && IsV(w) && Ppn(w) == f && (if s.h == 1 then IsLeaf(w) else Flags(w) == PTE_V)
    && (InPool(lo, hi, f) ==> f in role && role[f] == Held)
    && (s.h > 1 ==> InPool(lo, hi, f) && f in mem && mem[f] == Fill(0))
  }

  function RoleAttached(lo: int, hi: int, role: map<int, Role>, f: int, s: Slot): map<int, Role> {
    if InPool(lo, hi, f) then role[f := Page(s)] else role
  }

  /** A store into an entry: a held (or foreign) frame becomes child i of table s. */
  lemma AttachKeepsTrees(lo: int, hi: int, mem: Memory, role: map<int, Role>, at: map<Slot, int>, s: Slot, i: int, f: int, w: int)
    requires Trees(lo, hi, mem, role, at, NONE) && s in at && s.h >= 1 && 0 <= i < WORDS && Child(s, i) !in at
    requires Attachable(lo, hi, mem, role, s, f, w) && Placed(Child(s, i))
    ensures at[s] in mem && |mem[at[s]]| == WORDS
    ensures Trees(lo, hi, SetEntry(mem, at, s, i, w), RoleAttached(lo, hi, role, f, Child(s, i)), at[Child(s, i) := f], NONE)
  {
    var c := Child(s, i);
    assert NodeOk(lo, hi, role, at, s);
    ParentOfChild(s, i);
    var mem', role', at' := SetEntry(mem, at, s, i, w), RoleAttached(lo, hi, role, f, c), at[c := f];
    forall t | t in at'
      ensures NodeOk(lo, hi, role', at', t)
    {
      if t != c { assert NodeOk(lo, hi, role, at, t); }
    }
    forall t, j
      ensures TableOk(mem', at', NONE, t, j)
    {
      AttachTable(lo, hi, mem, role, at, s, i, f, w, t, j);
    }
  }

  lemma AttachTable(lo: int, hi: int, mem: Memory, role: map<int, Role>, at: map<Slot, int>, s: Slot, i: int, f: int,
                    w: int, t: Slot, j: int)
    requires Trees(lo, hi, mem, role, at, NONE) && s in at && s.h >= 1 && 0 <= i < WORDS && Child(s, i) !in at
    requires Attachable(lo, hi, mem, role, s, f, w)
    requires at[s] in mem && |mem[at[s]]| == WORDS && InPool(lo, hi, at[s])
    ensures TableOk(SetEntry(mem, at, s, i, w), at[Child(s, i) := f], NONE, t, j)
  {
    var c := Child(s, i);
    if t in at[c := f] && t.h >= 1 && 0 <= j < WORDS {
      if t == c {
        ParentOfChild(t, j);
        assert Child(t, j) in at ==> NodeOk(lo, hi, role, at, Child(t, j));
        assert Flags(0) % 2 == 0;
        assert NodeOk(lo, hi, role, at, s);
        assert Child(t, j) != c;
      } else {
        assert TableOk(mem, at, NONE, t, j);
        assert NodeOk(lo, hi, role, at, t) && NodeOk(lo, hi, role, at, s);
        if Child(t, j) == c {
          ChildInjective(t, j, s, i);
        } else if t != s {
          NodesApart(lo, hi, mem, role, at, NONE, s, t);
        } else {
          assert i != j;
        }
      }
    }
  }

  function RoleDetached(lo: int, hi: int, role: map<int, Role>, f: int): map<int, Role> {
    if InPool(lo, hi, f) then role[f := Held] else role
  }

  /** A node without children leaves its tree; the entry that names it is stale until cleared. */
  lemma DetachKeepsTrees(lo: int, hi: int, mem: Memory, role: map<int, Role>, at: map<Slot, int>, c: Slot)
    requires Trees(lo, hi, mem, role, at, NONE) && c in at
    requires forall j {:trigger Child(c, j)} :: 0 <= j < WORDS ==> Child(c, j) !in at
    ensures Trees(lo, hi, mem, RoleDetached(lo, hi, role, at[c]), at - {c}, c)
  {
    var role', at' := RoleDetached(lo, hi, role, at[c]), at - {c};
    assert NodeOk(lo, hi, role, at, c);
    forall s | s in at'
      ensures NodeOk(lo, hi, role', at', s)
    {
      assert NodeOk(lo, hi, role, at, s);
      ChildOfParent(s);
      if InPool(lo, hi, at[c]) {
        NodesApart(lo, hi, mem, role, at, NONE, c, s);
      }
    }
    forall s, i
      ensures TableOk(mem, at', c, s, i)
    {
      assert TableOk(mem, at, NONE, s, i);
    }
    forall f | f in role' && role'[f].Page?
      ensures role'[f].slot in at' && at'[role'[f].slot] == f
    {
      assert role[f].slot in at;
    }
  }

  // ---- Subtrees ----

  /** The node at height h above t (t itself if it is that high). */
  function Anc(t: Slot, h: int): (a: Slot)
    ensures a.root == t.root && a.h == if t.h < h then h else t.h
    decreases h - t.h
  {
    if t.h >= h then t else Anc(Parent(t), h)
  }

  predicate Under(s: Slot, t: Slot) {
    t.h <= s.h && Anc(t, s.h) == s
  }

  /** t is below one of the first i entries of table s. */
  predicate UnderFirst(s: Slot, i: int, t: Slot) {
    t.h < s.h && Anc(t, s.h) == s && Anc(t, s.h - 1).key % WORDS < i
  }

  lemma {:induction false} AncStep(t: Slot, h: int)
    requires t.h < h
    ensures Anc(t, h) == Parent(Anc(t, h - 1))
    decreases h - t.h
  {
    if t.h < h - 1 {
      AncStep(Parent(t), h);
    }
  }

  lemma UnderNext(s: Slot, i: int, t: Slot)
    requires 0 <= i < WORDS
    ensures UnderFirst(s, i + 1, t) <==> UnderFirst(s, i, t) || Under(Child(s, i), t)
    ensures Under(Child(s, i), t) ==> Under(s, t)
  {
    ParentOfChild(s, i);
    if t.h < s.h {
      AncStep(t, s.h);
      ChildOfParent(Anc(t, s.h - 1));
    }
  }

  lemma UnderAll(s: Slot, t: Slot)
    ensures !UnderFirst(s, 0, t)
    ensures Under(s, t) <==> t == s || UnderFirst(s, WORDS, t)
  {
    assert 0 <= Anc(t, s.h - 1).key % WORDS < WORDS;
  }

  /** Every node above a node is there. */
  lemma {:induction false} AncPresent(lo: int, hi: int, mem: Memory, role: map<int, Role>, at: map<Slot, int>, gone: Slot, t: Slot, h: int)
    requires Trees(lo, hi, mem, role, at, gone) && t in at && h <= 3
    ensures Anc(t, h) in at
    decreases h - t.h
  {
    if t.h < h {
      assert NodeOk(lo, hi, role, at, t);
      AncPresent(lo, hi, mem, role, at, gone, Parent(t), h);
    }
  }

  /** What is under the root of a space is what belongs to the space. */
  lemma UnderRoot(lo: int, hi: int, mem: Memory, role: map<int, Role>, at: map<Slot, int>, gone: Slot, root: int, t: Slot)
    requires Trees(lo, hi, mem, role, at, gone) && t in at
    ensures Under(Slot(root, 3, 0), t) <==> t.root == root
  {
    assert NodeOk(lo, hi, role, at, t);
    AncPresent(lo, hi, mem, role, at, gone, t, 3);
    assert NodeOk(lo, hi, role, at, Anc(t, 3));
  }

  // ---- Cleared entries and roots ----

  /** The stale entry is zeroed. */
  lemma ClearKeepsTrees(lo: int, hi: int, mem: Memory, role: map<int, Role>, at: map<Slot, int>, s: Slot, i: int)
    requires 0 <= i < WORDS && Trees(lo, hi, mem, role, at, Child(s, i)) && s in at && s.h >= 1
    ensures at[s] in mem && |mem[at[s]]| == WORDS
    ensures Trees(lo, hi, SetEntry(mem, at, s, i, 0), role, at, NONE)
  {
    assert NodeOk(lo, hi, role, at, s);
    assert NONE in at ==> NodeOk(lo, hi, role, at, NONE);
    var mem' := SetEntry(mem, at, s, i, 0);
    forall t, j
      ensures TableOk(mem', at, NONE, t, j)
    {
      assert TableOk(mem, at, Child(s, i), t, j);
      if t in at && t.h >= 1 && 0 <= j < WORDS {
        if Child(t, j) == Child(s, i) {
          ChildInjective(t, j, s, i);
        } else if t != s {
          NodesApart(lo, hi, mem, role, at, Child(s, i), s, t);
        }
        assert NodeOk(lo, hi, role, at, t);
      }
    }
  }

  /** A stale root is named by no entry. */
  lemma RootLeavesNoEntry(lo: int, hi: int, mem: Memory, role: map<int, Role>, at: map<Slot, int>, root: int)
    requires Trees(lo, hi, mem, role, at, Slot(root, 3, 0))
    ensures Trees(lo, hi, mem, role, at, NONE)
  {
    assert NONE in at ==> NodeOk(lo, hi, role, at, NONE);
    forall t, j
      ensures TableOk(mem, at, NONE, t, j)
    {
      assert TableOk(mem, at, Slot(root, 3, 0), t, j);
      if t in at {
        assert NodeOk(lo, hi, role, at, t);
      }
    }
  }

  /** uvmcreate(): a zeroed held frame becomes the root of a new, empty space. */
  lemma CreateKeepsTrees(lo: int, hi: int, mem: Memory, role: map<int, Role>, at: map<Slot, int>, f: int)
    requires Trees(lo, hi, mem, role, at, NONE) && f in role && role[f] == Held && mem[f] == Fill(0)
    ensures Trees(lo, hi, mem, role[f := Page(Slot(f, 3, 0))], at[Slot(f, 3, 0) := f], NONE)
    ensures forall s :: s in at ==> s.root != f
  {
    var c := Slot(f, 3, 0);
    forall s | s in at
      ensures s.root != f
    {
      RootPresent(lo, hi, mem, role, at, NONE, s);
      assert NodeOk(lo, hi, role, at, Slot(s.root, 3, 0));
    }
    var role', at' := role[f := Page(c)], at[c := f];
    assert InPool(lo, hi, f);
    forall s | s in at'
      ensures NodeOk(lo, hi, role', at', s)
    {
      if s != c { assert NodeOk(lo, hi, role, at, s); }
    }
    forall t, j
      ensures TableOk(mem, at', NONE, t, j)
    {
      if t != c { assert TableOk(mem, at, NONE, t, j); }
      assert Flags(0) % 2 == 0;
      if t in at { assert NodeOk(lo, hi, role, at, t); }
    }
  }
}
