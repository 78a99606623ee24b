/** Address spaces as values: what the operations of vm.c may change, and how those changes compose. */
module AddressSpaces {
  import opened FramePool
  import opened PageTable

  // ---- What an operation does, on values ----

  /** The memory, the owner of every frame and the nodes of every address space. */
  datatype State = State(mem: Memory, role: map<int, Role>, at: map<Slot, int>)

  /** The page-table entry of page vpn, or 0 where walk() finds no table: the map an address space is. */
  ghost function Pte(s: State, root: int, vpn: int): int {
    var t := OnPath(root, vpn, 1);
    if t in s.at && s.at[t] in s.mem && |s.mem[s.at[t]]| == WORDS then s.mem[s.at[t]][vpn % WORDS] else 0
  }

  /** t is a page of `root` in [a, b). */
  predicate PageIn(root: int, a: int, b: int, t: Slot) {
    t.root == root && t.h == 0 && a <= t.key < b
  }

  /** Translations outside pages [a, b) of `root` are as they were. */
  ghost predicate PtesBut(s: State, s': State, root: int, a: int, b: int) {
    forall r, v {:trigger Pte(s', r, v)} :: 0 <= v < MAXPAGE && !(r == root && a <= v < b) ==> Pte(s', r, v) == Pte(s, r, v)
  }

  /** `root` has gained nothing but page-table pages and pages in [a, b), made of free frames. */
  ghost predicate Gained(s: State, s': State, root: int, a: int, b: int) {
    && (forall t {:trigger t in s.at} :: t in s.at ==> t in s'.at && s'.at[t] == s.at[t])
    && (forall t {:trigger t in s'.at} :: t in s'.at && t !in s.at ==> NewNode(root, a, b, t))
    && s.role.Keys == s'.role.Keys
    && (forall f {:trigger s'.role[f]} {:trigger s.role[f]} :: f in s.role ==>
          s'.role[f] == s.role[f] || (s.role[f] == Free && s'.role[f].Page? && NewNode(root, a, b, s'.role[f].slot)))
  }

  predicate NewNode(root: int, a: int, b: int, t: Slot) {
    t.root == root && (t.h > 0 || PageIn(root, a, b, t))
  }

  predicate HoldsData(r: Role) {
    r == Held || (r.Page? && r.slot.h == 0)
  }

  /** Pages of memory that hold data according to `role` are as they were. */
  ghost predicate SameData(mem: Memory, role: map<int, Role>, mem': Memory) {
    forall f {:trigger mem'[f]} :: f in mem && f in mem' && f in role && HoldsData(role[f]) ==> mem'[f] == mem[f]
  }

  ghost predicate Grew(s: State, s': State, root: int, a: int, b: int) {
    PtesBut(s, s', root, a, b) && Gained(s, s', root, a, b) && SameData(s.mem, s.role, s'.mem) && s.mem.Keys == s'.mem.Keys
  }

  lemma GrewTrans(s: State, t: State, u: State, root: int, a: int, b: int, c: int, d: int, lo: int, hi: int)
    requires Grew(s, t, root, a, b) && Grew(t, u, root, c, d)
    requires (a < b ==> lo <= a && b <= hi) && (c < d ==> lo <= c && d <= hi)
    ensures Grew(s, u, root, lo, hi)
  {
  }

  /** Pages [a, b) of `root` are gone and their frames now have role r; nothing else has changed. */
  ghost predicate Shed(s: State, s': State, root: int, a: int, b: int, r: Role) {
    && PtesBut(s, s', root, a, b)
    && (forall v {:trigger Pte(s', root, v)} :: a <= v < b ==> Pte(s', root, v) == 0)
    && (forall t {:trigger t in s'.at} :: t in s'.at <==> t in s.at && !PageIn(root, a, b, t))
    && (forall t {:trigger s'.at[t]} :: t in s'.at && t in s.at ==> s'.at[t] == s.at[t])
    && s.role.Keys == s'.role.Keys
    && (forall f {:trigger s'.role[f]} {:trigger s.role[f]} :: f in s.role ==>
          s'.role[f] == if s.role[f].Page? && PageIn(root, a, b, s.role[f].slot) then r else s.role[f])
    && SameData(s.mem, s'.role, s'.mem) && s.mem.Keys == s'.mem.Keys
  }

  lemma ShedNothing(s: State, root: int, a: int, r: Role)
    ensures Shed(s, s, root, a, a, r)
  {
  }

  /** Every page of [a, b) is mapped. */
  ghost predicate Mapped(s: State, root: int, a: int, b: int) {
    forall v {:trigger Pte(s, root, v)} :: a <= v < b ==> IsV(Pte(s, root, v))
  }

  /** The frames mapped in [a, b) are kalloc()'s. */
  ghost predicate PoolPages(lo: int, hi: int, s: State, root: int, a: int, b: int) {
    forall v {:trigger Pte(s, root, v)} :: a <= v < b ==> InPool(lo, hi, Ppn(Pte(s, root, v)))
  }

  lemma ShedLeavesRest(s: State, s': State, root: int, a: int, b: int, r: Role)
    requires Shed(s, s', root, a, b, r) && 0 <= b
    ensures b < MAXPAGE ==> Pte(s', root, b) == Pte(s, root, b)
  {
  }

  lemma ShedTrans(s: State, t: State, u: State, root: int, a: int, b: int, c: int, r: Role)
    requires Shed(s, t, root, a, b, r) && Shed(t, u, root, b, c, r) && 0 <= a <= b <= c <= MAXPAGE && !r.Page?
    ensures Shed(s, u, root, a, c, r)
  {
    forall v | a <= v < c
      ensures Pte(u, root, v) == 0
    {
      assert v < b ==> Pte(t, root, v) == 0;
    }
  }

  /** The flags and contents of a page. */
  datatype Contents = Contents(flags: int, words: seq<int>)

  /** Page vpn has those flags and a frame of its own, holding those words. */
  ghost predicate PageIs(lo: int, hi: int, s: State, root: int, vpn: int, c: Contents) {
    var w := Pte(s, root, vpn);
    var f := Ppn(w);
    Flags(w) == c.flags && InPool(lo, hi, f) && f in s.role && s.role[f] == Page(Slot(root, 0, vpn)) && f in s.mem && s.mem[f] == c.words
  }

  ghost predicate PagesAre(lo: int, hi: int, s: State, root: int, a: int, b: int, want: int -> Contents) {
    forall v {:trigger Pte(s, root, v)} {:trigger want(v)} :: a <= v < b ==> PageIs(lo, hi, s, root, v, want(v))
  }

  lemma PagesExtend(lo: int, hi: int, s: State, s': State, root: int, a: int, b: int, want: int -> Contents)
    requires PagesAre(lo, hi, s, root, a, b, want) && Grew(s, s', root, b, b + 1) && 0 <= a <= b < MAXPAGE
    requires PageIs(lo, hi, s', root, b, want(b))
    ensures PagesAre(lo, hi, s', root, a, b + 1, want)
  {
    forall v | a <= v < b
      ensures PageIs(lo, hi, s', root, v, want(v))
    {
      assert PageIs(lo, hi, s, root, v, want(v));
      assert Pte(s', root, v) == Pte(s, root, v);
    }
  }

  lemma PagesMapped(lo: int, hi: int, s: State, root: int, a: int, b: int, want: int -> Contents)
    requires PagesAre(lo, hi, s, root, a, b, want) && forall v :: a <= v < b ==> want(v).flags % 2 == 1
    ensures Mapped(s, root, a, b) && PoolPages(lo, hi, s, root, a, b)
  {
    forall v | a <= v < b
      ensures IsV(Pte(s, root, v)) && InPool(lo, hi, Ppn(Pte(s, root, v)))
    {
      assert PageIs(lo, hi, s, root, v, want(v));
    }
  }

  /** Taking the new pages away again leaves only the page-table pages they needed. */
  lemma GrewShed(lo: int, hi: int, s: State, t: State, u: State, root: int, a: int, b: int)
    requires Trees(lo, hi, s.mem, s.role, s.at, NONE) && Unmapped(s, root, a, b) && 0 <= a <= b <= MAXPAGE
    requires Grew(s, t, root, a, b) && Shed(t, u, root, a, b, Free)
    ensures Grew(s, u, root, 0, 0)
  {
    forall v | a <= v < b
      ensures Pte(u, root, v) == Pte(s, root, v) && Slot(root, 0, v) !in s.at
    {
      NoPage(lo, hi, s.mem, s.role, s.at, root, v);
    }
    forall t: Slot | t in s.at
      ensures !PageIn(root, a, b, t)
    {
      assert PageIn(root, a, b, t) ==> t == Slot(root, 0, t.key);
    }
  }

  /** What page vpn of `root` is: its flags and the words of its frame. */
  ghost function PageOf(s: State, root: int, vpn: int): Contents {
    var w := Pte(s, root, vpn);
    Contents(Flags(w), if Ppn(w) in s.mem then s.mem[Ppn(w)] else [])
  }

  lemma PageOfFlags(s: State, root: int, vpn: int)
    ensures IsV(Pte(s, root, vpn)) ==> PageOf(s, root, vpn).flags % 2 == 1
  {
  }

  /** Growing one space leaves the pages of another alone. */
  lemma OtherSpaceSame(lo: int, hi: int, s: State, s': State, root: int, a: int, b: int, other: int, v: int)
    requires Trees(lo, hi, s.mem, s.role, s.at, NONE) && Grew(s, s', root, a, b) && other != root && 0 <= v < MAXPAGE
    requires IsV(Pte(s, other, v)) && InPool(lo, hi, Ppn(Pte(s, other, v)))
    ensures Pte(s', other, v) == Pte(s, other, v) && PageOf(s', other, v) == PageOf(s, other, v)
    ensures var w := Pte(s, other, v);
      Ppn(w) in s'.mem && Ppn(w) in s.mem && |s.mem[Ppn(w)]| == WORDS && IsLeaf(w) && Flags(Flags(w)) == Flags(w) &&
        WithV(Flags(w)) == Flags(w)
  {
    NoPage(lo, hi, s.mem, s.role, s.at, other, v);
    OneOwner(lo, hi, s.mem, s.role, s.at, Slot(other, 0, v));
  }

  lemma UndoGrowth(lo: int, hi: int, s: State, t: State, u: State, root: int, a: int, b: int)
    requires Trees(lo, hi, s.mem, s.role, s.at, NONE) && Unmapped(s, root, a, b) && 0 <= a <= b <= MAXPAGE
    requires Grew(s, t, root, a, b) && (if a < b then Shed(t, u, root, a, b, Free) else t == u)
    ensures Grew(s, u, root, 0, 0)
  {
    if a < b {
      GrewShed(lo, hi, s, t, u, root, a, b);
    }
  }

  lemma GrewNothing(lo: int, hi: int, s: State, root: int, a: int, want: int -> Contents)
    ensures Grew(s, s, root, a, a) && PagesAre(lo, hi, s, root, a, a, want)
  {
  }

  lemma GrewLeavesRest(s: State, s': State, root: int, a: int, b: int)
    requires Grew(s, s', root, a, b) && 0 <= b < MAXPAGE
    ensures Pte(s', root, b) == Pte(s, root, b)
  {
  }

  /** Pages outside the grown range keep flags, frame and contents. */
  lemma GrewKeepsPages(lo: int, hi: int, s: State, s': State, root: int, a: int, b: int, want: int -> Contents)
    requires PagesAre(lo, hi, s, root, a, b, want) && Grew(s, s', root, 0, 0) && 0 <= a <= b <= MAXPAGE
    ensures PagesAre(lo, hi, s', root, a, b, want)
  {
    forall v | a <= v < b
      ensures PageIs(lo, hi, s', root, v, want(v))
    {
      assert PageIs(lo, hi, s, root, v, want(v));
      assert Pte(s', root, v) == Pte(s, root, v);
    }
  }

  function ZeroPage(vpn: int): Contents { Contents(USER_RWX, Fill(0)) }

  /** What uvmalloc() maps: a page of zeros that the user may read, write and execute. */
  lemma ZeroPageIs(vpn: int)
    ensures ZeroPage(vpn).flags == 31 && |ZeroPage(vpn).words| == WORDS
    ensures forall k :: 0 <= k < WORDS ==> ZeroPage(vpn).words[k] == 0
  {
  }

  /** A page with those flags is one a user address leads to, at the frame that is its own. */
  lemma UserPage(lo: int, hi: int, s: State, root: int, vpn: int)
    requires PageIs(lo, hi, s, root, vpn, ZeroPage(vpn))
    ensures var w := Pte(s, root, vpn);
      && IsV(w) && IsUser(w) && InPool(lo, hi, Ppn(w)) && Ppn(w) in s.role && s.role[Ppn(w)] == Page(Slot(root, 0, vpn))
      && Ppn(w) in s.mem && s.mem[Ppn(w)] == ZeroPage(vpn).words
  {
  }

  lemma PageAdded(s: State, t: State, u: State, root: int, vpn: int, f: int, content: seq<int>)
    requires f in s.role && s.role[f] == Free && f in s.mem && t == State(s.mem[f := content], s.role[f := Held], s.at)
    requires PtesBut(s, t, 0, 0, 0) && Grew(Releasing(t, f), u, root, vpn, vpn + 1)
    ensures Grew(s, u, root, vpn, vpn + 1)
  {
    assert Releasing(t, f).role == s.role;
    assert Releasing(t, f).at == s.at && Releasing(t, f).mem == t.mem;
    forall r, v | 0 <= v < MAXPAGE
      ensures Pte(Releasing(t, f), r, v) == Pte(t, r, v)
    {
    }
  }

  lemma PageUndone(lo: int, hi: int, s: State, t: State, u: State, root: int, f: int, content: seq<int>, junk: seq<int>)
    requires f in s.role && s.role[f] == Free && f in s.mem && t == State(s.mem[f := content], s.role[f := Held], s.at)
    requires PtesBut(s, t, 0, 0, 0) && Grew(t, u, root, 0, 0) && Trees(lo, hi, u.mem, u.role, u.at, NONE) && |junk| == WORDS
    ensures Grew(s, State(u.mem[f := junk], u.role[f := Free], u.at), root, 0, 0)
  {
    StoreKeepsPtes(lo, hi, u.mem, u.role, u.role[f := Free], u.at, NONE, f, junk);
  }

  const USER_RWX := PTE_V + PTE_R + PTE_W + PTE_X + PTE_U

  /** No page of [a, b) is mapped. */
  ghost predicate Unmapped(s: State, root: int, a: int, b: int) {
    forall v {:trigger Pte(s, root, v)} :: a <= v < b ==> Pte(s, root, v) == 0
  }

  /** `root` is gone: its pages from `kept` on are the kernel's again, every other frame of it is
      free, and nothing of the other spaces has changed. */
  ghost predicate Gone(s: State, s': State, root: int, kept: int) {
    && (forall t {:trigger t in s'.at} :: t in s'.at <==> t in s.at && t.root != root)
    && (forall t {:trigger s'.at[t]} :: t in s'.at && t in s.at ==> s'.at[t] == s.at[t])
    && (forall r, v {:trigger Pte(s', r, v)} :: 0 <= v < MAXPAGE && r != root ==> Pte(s', r, v) == Pte(s, r, v))
    && s.role.Keys == s'.role.Keys && s.mem.Keys == s'.mem.Keys
    && (forall f {:trigger s'.role[f]} {:trigger s.role[f]} :: f in s.role ==>
          s'.role[f] ==
            if !(s.role[f].Page? && s.role[f].slot.root == root) then s.role[f]
            else if s.role[f].slot.h == 0 && kept <= s.role[f].slot.key then Held
            else Free)
    && SameData(s.mem, s'.role, s'.mem)
  }

  /** A space that was made, grown and freed has left no trace: every frame is what it was. */
  lemma FreeUndoesGrowth(s: State, t: State, u: State, root: int, a: int, b: int)
    requires Grew(s, t, root, a, b) && Gone(t, u, root, MAXPAGE) && 0 <= a <= b <= MAXPAGE
    requires forall n {:trigger n in s.at} :: n in s.at ==> n.root != root
    requires forall f {:trigger s.role[f]} :: f in s.role && s.role[f].Page? ==> s.role[f].slot in s.at
    ensures NoTrace(s, u)
  {
    forall f | f in s.role
      ensures u.role[f] == s.role[f]
    {
      assert t.role[f] == s.role[f] || (s.role[f] == Free && t.role[f].Page?);
    }
    assert u.at.Keys == s.at.Keys;
    forall r, v | 0 <= v < MAXPAGE
      ensures Pte(u, r, v) == Pte(s, r, v)
    {
      assert r != root ==> Pte(u, r, v) == Pte(t, r, v) && Pte(t, r, v) == Pte(s, r, v);
    }
  }

  lemma NoPagesLeft(lo: int, hi: int, s: State, t: State, root: int, n: int)
    requires Trees(lo, hi, t.mem, t.role, t.at, NONE) && 0 <= n <= MAXPAGE && Slot(root, 3, 0) in t.at
    requires Shed(s, t, root, 0, n, Free) && Unmapped(s, root, n, MAXPAGE)
    ensures forall k {:trigger k in t.at} {:trigger Under(Slot(root, 3, 0), k)} :: k in t.at && k.h == 0 ==>
      k.root != root && !Under(Slot(root, 3, 0), k)
    ensures t.at[Slot(root, 3, 0)] == root
  {
    assert NodeOk(lo, hi, t.role, t.at, Slot(root, 3, 0));
    forall k | k in t.at && k.h == 0
      ensures k.root != root && !Under(Slot(root, 3, 0), k)
    {
      assert NodeOk(lo, hi, t.role, t.at, k);
      UnderRoot(lo, hi, t.mem, t.role, t.at, NONE, root, k);
      if k.root == root {
        NoPage(lo, hi, t.mem, t.role, t.at, root, k.key);
      }
    }
  }

  /** Pages unmapped, then tables freed: the space is gone. */
  lemma ShedCutGone(lo: int, hi: int, s: State, t: State, u: State, root: int, n: int)
    requires Trees(lo, hi, t.mem, t.role, t.at, NONE) && 0 <= n <= MAXPAGE
    requires Trees(lo, hi, s.mem, s.role, s.at, NONE)
    requires Shed(s, t, root, 0, n, Free) && Cut(t, u, Subtree(Slot(root, 3, 0)), NULL) && NULL !in s.mem
    requires forall k {:trigger k in t.at} :: k in t.at && k.h == 0 ==> k.root != root
    ensures Gone(s, u, root, MAXPAGE)
  {
    forall k | k in t.at
      ensures k in Subtree(Slot(root, 3, 0)) <==> k.root == root
    {
      UnderRoot(lo, hi, t.mem, t.role, t.at, NONE, root, k);
    }
    forall r, v | 0 <= v < MAXPAGE && r != root
      ensures Pte(u, r, v) == Pte(s, r, v)
    {
      assert Pte(t, r, v) == Pte(s, r, v);
      var k := OnPath(r, v, 1);
      if k in t.at {
        assert NodeOk(lo, hi, t.role, t.at, k);
        assert u.role[t.at[k]] != Free;
      }
    }
    forall f | f in s.role
      ensures u.role[f] == if s.role[f].Page? && s.role[f].slot.root == root then Free else s.role[f]
    {
      assert s.role[f].Page? ==> s.role[f].slot in s.at;
      assert t.role[f].Page? ==> t.role[f].slot in t.at;
    }
    forall f | f in s.role && s.role[f].Page?
      ensures s.role[f].slot.key < MAXPAGE || s.role[f].slot.h > 0
    {
      assert NodeOk(lo, hi, s.role, s.at, s.role[f].slot);
    }
  }

  /** The nodes in `dead` are gone and their frames are free; nothing else has changed, the table in
      frame `but` aside. */
  ghost predicate Cut(s: State, s': State, dead: iset<Slot>, but: int) {
    && (forall t {:trigger t in s'.at} :: t in s'.at <==> t in s.at && t !in dead)
    && (forall t {:trigger s'.at[t]} :: t in s'.at && t in s.at ==> s'.at[t] == s.at[t])
    && s.role.Keys == s'.role.Keys && s.mem.Keys == s'.mem.Keys
    && (forall f {:trigger s'.role[f]} {:trigger s.role[f]} :: f in s.role ==>
          s'.role[f] == if s.role[f].Page? && s.role[f].slot in dead then Free else s.role[f])
    && (forall f {:trigger s'.mem[f]} :: f in s'.mem && f in s.mem && f in s'.role && s'.role[f] != Free && f != but ==>
          s'.mem[f] == s.mem[f])
  }

  ghost function Subtree(s: Slot): iset<Slot> {
    iset t | Under(s, t)
  }

  ghost function FirstSubtrees(s: Slot, i: int): iset<Slot> {
    iset t | UnderFirst(s, i, t)
  }

  lemma CutNothing(s: State, n: Slot, but: int)
    ensures Cut(s, s, FirstSubtrees(n, 0), but)
  {
    forall t
      ensures !UnderFirst(n, 0, t)
    {
      UnderAll(n, t);
    }
  }

  /** What the entry of a table with no pages below it can be. */
  lemma ChildEntry(lo: int, hi: int, mem: Memory, role: map<int, Role>, at: map<Slot, int>, s: Slot, i: int)
    requires Trees(lo, hi, mem, role, at, NONE) && s in at && s.h >= 1 && 0 <= i < WORDS
    requires s.h == 1 ==> Child(s, i) !in at
    ensures at[s] in mem && |mem[at[s]]| == WORDS
    ensures var w := mem[at[s]][i]; if Child(s, i) in at then IsV(w) && !IsLeaf(w) && at[Child(s, i)] == Ppn(w) && s.h >= 2 else !IsV(w)
  {
    assert NodeOk(lo, hi, role, at, s) && TableOk(mem, at, NONE, s, i);
    assert Child(s, i) in at ==> NodeOk(lo, hi, role, at, Child(s, i));
  }

  lemma BelowChild(before: State, start: State, s: Slot, i: int, but: int)
    requires Cut(before, start, FirstSubtrees(s, i), but) && 0 <= i < WORDS
    requires forall t {:trigger Under(s, t)} :: t in before.at && t.h == 0 ==> !Under(s, t)
    ensures forall t {:trigger Under(Child(s, i), t)} :: t in start.at && t.h == 0 ==> !Under(Child(s, i), t)
    ensures s.h == 1 ==> Child(s, i) !in start.at
  {
    forall t | t in start.at && t.h == 0
      ensures !Under(Child(s, i), t)
    {
      UnderNext(s, i, t);
    }
    assert Under(Child(s, i), Child(s, i));
  }

  lemma SelfKept(start: State, freed: State, s: Slot, i: int)
    requires Cut(start, freed, Subtree(Child(s, i)), NULL) && s in start.at
    ensures s in freed.at && freed.at[s] == start.at[s]
  {
  }

  /** A child's subtree freed and its entry cleared. */
  lemma CutChild(before: State, start: State, freed: State, end: State, s: Slot, i: int, but: int)
    requires 0 <= i < WORDS && Cut(before, start, FirstSubtrees(s, i), but) && Cut(start, freed, Subtree(Child(s, i)), NULL)
    requires end.at == freed.at && end.role == freed.role && end.mem.Keys == freed.mem.Keys && NULL !in start.mem
    requires forall f {:trigger end.mem[f]} :: f in end.mem && f != but ==> end.mem[f] == freed.mem[f]
    ensures Cut(before, end, FirstSubtrees(s, i + 1), but)
  {
    hide Under, UnderFirst;
    forall t
      ensures UnderFirst(s, i + 1, t) <==> UnderFirst(s, i, t) || Under(Child(s, i), t)
    {
      UnderNext(s, i, t);
    }
  }

  /** An absent child has nothing below it. */
  lemma CutNoChild(lo: int, hi: int, before: State, start: State, s: Slot, i: int, but: int)
    requires Trees(lo, hi, start.mem, start.role, start.at, NONE) && 0 <= i < WORDS && s.h <= 3 && Child(s, i) !in start.at
    requires Cut(before, start, FirstSubtrees(s, i), but)
    requires forall f {:trigger before.role[f]} :: f in before.role && before.role[f].Page? ==> before.role[f].slot in before.at
    ensures Cut(before, start, FirstSubtrees(s, i + 1), but)
  {
    forall t
      ensures UnderFirst(s, i + 1, t) <==> UnderFirst(s, i, t) || Under(Child(s, i), t)
      ensures t in start.at ==> !Under(Child(s, i), t)
    {
      UnderNext(s, i, t);
      if t in start.at {
        AncPresent(lo, hi, start.mem, start.role, start.at, NONE, t, s.h - 1);
      }
    }
    hide Under, UnderFirst, Trees;
  }

  lemma PagesPresent(lo: int, hi: int, mem: Memory, role: map<int, Role>, at: map<Slot, int>, gone: Slot)
    requires Trees(lo, hi, mem, role, at, gone)
    ensures forall f {:trigger role[f]} :: f in role && role[f].Page? ==> role[f].slot in at
    ensures NULL !in mem
  {
  }

  /** All children of s are gone. */
  lemma ChildrenCut(before: State, start: State, s: Slot, but: int)
    requires Cut(before, start, FirstSubtrees(s, WORDS), but)
    ensures forall j {:trigger Child(s, j)} :: 0 <= j < WORDS ==> Child(s, j) !in start.at
  {
    forall j | 0 <= j < WORDS
      ensures Child(s, j) !in start.at
    {
      ParentOfChild(s, j);
      AncStep(Child(s, j), s.h);
    }
  }

  lemma CutTable(before: State, start: State, end: State, s: Slot, but: int)
    requires Cut(before, start, FirstSubtrees(s, WORDS), but) && s in start.at && start.at[s] == but &&
      but in start.role && but in start.mem
    requires start.role[but] == Page(s) && forall f {:trigger start.role[f]} :: f in start.role && start.role[f] == Page(s) ==> f == but
    requires end.at == start.at - {s} && end.role == start.role[but := Held][but := Free] && end.mem.Keys == start.mem.Keys
    requires forall f {:trigger end.mem[f]} :: f in end.mem && f != but ==> end.mem[f] == start.mem[f]
    ensures Cut(before, end, Subtree(s), NULL)
  {
    hide Under, UnderFirst;
    forall t
      ensures Under(s, t) <==> t == s || UnderFirst(s, WORDS, t)
    {
      UnderAll(s, t);
    }
  }

  lemma CreateGrew(lo: int, hi: int, s: State, s': State, root: int)
    requires Trees(lo, hi, s.mem, s.role, s.at, NONE) && root in s.role && s.role[root] == Free && root in s.mem
    requires forall t {:trigger t in s.at} :: t in s.at ==> t.root != root
    requires s'.at == s.at[Slot(root, 3, 0) := root] && s'.role.Keys == s.role.Keys && s'.mem.Keys == s.mem.Keys
    requires forall f {:trigger s'.mem[f]} :: f in s'.mem && f != root ==> s'.mem[f] == s.mem[f]
    requires forall f {:trigger s'.role[f]} :: f in s.role ==> s'.role[f] == if f == root then Page(Slot(root, 3, 0)) else s.role[f]
    ensures Grew(s, s', root, 0, 0) && Unmapped(s', root, 0, MAXPAGE)
  {
    forall r, v | 0 <= v < MAXPAGE
      ensures Pte(s', r, v) == Pte(s, r, v) && Pte(s', root, v) == 0
    {
      var t := OnPath(r, v, 1);
      if t in s.at {
        assert NodeOk(lo, hi, s.role, s.at, t);
      }
    }
  }

  const TRAMPOLINE := MAXPAGE - 1
  const TRAPFRAME := MAXPAGE - 2

  /** Nothing has changed but the contents of free frames. */
  ghost predicate NoTrace(s: State, s': State) {
    s'.at == s.at && s'.role == s.role && PtesBut(s, s', 0, 0, 0) && SameData(s.mem, s.role, s'.mem)
  }

  lemma NoTraceSelf(s: State)
    ensures NoTrace(s, s)
  {
  }

  lemma NoSpace(s: State, root: int)
    requires forall t {:trigger t in s.at} :: t in s.at ==> t.root != root
    ensures Unmapped(s, root, 0, MAXPAGE)
  {
  }

  lemma Foreign(lo: int, hi: int, s: State, f: int)
    requires Trees(lo, hi, s.mem, s.role, s.at, NONE) && !InPool(lo, hi, f)
    ensures Releasing(s, f) == s
  {
  }

  lemma StillUnmapped(s: State, t: State, root: int, a: int, b: int, c: int, d: int)
    requires Grew(s, t, root, a, b) && Unmapped(s, root, c, d) && 0 <= c && d <= MAXPAGE && (a < b ==> d <= a)
    ensures Unmapped(t, root, c, d)
  {
  }

  lemma GrewKeepsHeld(s: State, t: State, root: int, a: int, b: int, f: int)
    requires Grew(s, t, root, a, b) && f in s.role && s.role[f] == Held
    ensures f in t.role && t.role[f] == Held && Grew(Releasing(s, f), Releasing(t, f), root, a, b)
    ensures Unmapped(s, root, 0, MAXPAGE) ==> Unmapped(Releasing(s, f), root, 0, MAXPAGE)
  {
    forall r, v | 0 <= v < MAXPAGE
      ensures Pte(Releasing(t, f), r, v) == Pte(t, r, v) && Pte(Releasing(s, f), r, v) == Pte(s, r, v)
    {
    }
  }

  lemma OtherPtesSame(s: State, t: State, root: int, a: int, b: int, f: int)
    requires Grew(Releasing(s, f), t, root, a, b) || Grew(s, t, root, a, b)
    requires a < b ==> b <= TRAMPOLINE
    ensures Pte(t, root, TRAMPOLINE) == Pte(s, root, TRAMPOLINE)
  {
    assert Pte(Releasing(s, f), root, TRAMPOLINE) == Pte(s, root, TRAMPOLINE);
  }

  /** Unmapping a frame from outside the pool changes no role. */
  lemma ForeignShed(lo: int, hi: int, s: State, t: State, root: int, vpn: int)
    requires Trees(lo, hi, s.mem, s.role, s.at, NONE) && 0 <= vpn < MAXPAGE
    requires Shed(s, t, root, vpn, vpn + 1, Held) && IsV(Pte(s, root, vpn)) && !InPool(lo, hi, Ppn(Pte(s, root, vpn)))
    ensures Shed(s, t, root, vpn, vpn + 1, Free)
  {
    NoPage(lo, hi, s.mem, s.role, s.at, root, vpn);
    forall f | f in s.role && s.role[f].Page?
      ensures !PageIn(root, vpn, vpn + 1, s.role[f].slot)
    {
      assert s.at[s.role[f].slot] == f;
      assert PageIn(root, vpn, vpn + 1, s.role[f].slot) ==> s.role[f].slot == Slot(root, 0, vpn);
    }
  }

  lemma ShedKeepsMapped(lo: int, hi: int, s: State, t: State, root: int, a: int, b: int, r: Role, c: int, d: int)
    requires Shed(s, t, root, a, b, r) && Mapped(s, root, c, d) && 0 <= c && d <= a <= MAXPAGE
    ensures Mapped(t, root, c, d) && (PoolPages(lo, hi, s, root, c, d) ==> PoolPages(lo, hi, t, root, c, d))
  {
    assert forall v :: c <= v < d ==> Pte(t, root, v) == Pte(s, root, v);
  }

  lemma ShedTwo(s: State, t: State, u: State, root: int, a: int, r: Role)
    requires Shed(s, t, root, a + 1, a + 2, r) && Shed(t, u, root, a, a + 1, r) && 0 <= a && a + 2 <= MAXPAGE && !r.Page?
    ensures Shed(s, u, root, a, a + 2, r)
  {
    assert Pte(u, root, a + 1) == Pte(t, root, a + 1) == 0;
  }

  lemma ShedUnmaps(s: State, t: State, root: int, a: int, r: Role, c: int)
    requires Shed(s, t, root, a, MAXPAGE, r) && Unmapped(s, root, c, a) && 0 <= c <= a <= MAXPAGE
    ensures Unmapped(t, root, c, MAXPAGE)
  {
  }

  lemma ShedThenGone(lo: int, hi: int, s: State, t: State, u: State, root: int)
    requires Trees(lo, hi, s.mem, s.role, s.at, NONE)
    requires Shed(s, t, root, TRAPFRAME, MAXPAGE, Held) && Gone(t, u, root, MAXPAGE)
    ensures Gone(s, u, root, TRAPFRAME)
  {
    forall r, v | 0 <= v < MAXPAGE && r != root
      ensures Pte(u, r, v) == Pte(s, r, v)
    {
      assert Pte(t, r, v) == Pte(s, r, v);
    }
    forall f | f in s.role && s.role[f].Page?
      ensures s.role[f].slot.key < MAXPAGE || s.role[f].slot.h != 0
    {
      assert NodeOk(lo, hi, s.role, s.at, s.role[f].slot);
    }
  }

  /** s with frame f taken to be free: what mapping the held frame f starts from. */
  ghost function Releasing(s: State, f: int): State {
    if f in s.role then s.(role := s.role[f := Free]) else s
  }

  /** s with the n frames from f on taken to be free. */
  ghost function ReleasingAll(s: State, f: int, n: nat): State {
    if n == 0 then s else Releasing(ReleasingAll(s, f, n - 1), f + n - 1)
  }

  /** The n frames from f on are the kernel's, or lie outside the pool. */
  ghost predicate AllHeld(lo: int, hi: int, s: State, f: int, n: nat) {
    forall g {:trigger g in s.role} :: f <= g < f + n && InPool(lo, hi, g) ==> g in s.role && s.role[g] == Held
  }

  lemma {:induction false} ReleasingAllRoles(s: State, f: int, n: nat)
    ensures ReleasingAll(s, f, n).at == s.at && ReleasingAll(s, f, n).mem == s.mem && ReleasingAll(s, f, n).role.Keys == s.role.Keys
    ensures forall g {:trigger s.role[g]} :: g in s.role ==> ReleasingAll(s, f, n).role[g] == if f <= g < f + n then Free else s.role[g]
  {
    if n > 0 {
      ReleasingAllRoles(s, f, n - 1);
    }
  }

  /** One more page: the frame for it is still held, and taking it to be free from the start changes nothing. */
  lemma NextHeld(lo: int, hi: int, s: State, t: State, root: int, a: int, k: nat, f: int, n: nat)
    requires Trees(lo, hi, s.mem, s.role, s.at, NONE) && Trees(lo, hi, t.mem, t.role, t.at, NONE)
    requires AllHeld(lo, hi, s, f, n) && k < n && Grew(ReleasingAll(s, f, k), t, root, a, a + k)
    ensures InPool(lo, hi, f + k) ==> f + k in t.role && t.role[f + k] == Held
    ensures Grew(ReleasingAll(s, f, k + 1), Releasing(t, f + k), root, a, a + k)
  {
    hide Grew, Trees;
    if InPool(lo, hi, f + k) {
      ReleasingAllRoles(s, f, k);
      assert f + k in s.role;
      GrewKeepsHeld(ReleasingAll(s, f, k), t, root, a, a + k, f + k);
    } else {
      Foreign(lo, hi, t, f + k);
      ForeignAll(lo, hi, s, f, k);
    }
  }

  lemma ForeignAll(lo: int, hi: int, s: State, f: int, k: nat)
    requires Trees(lo, hi, s.mem, s.role, s.at, NONE) && !InPool(lo, hi, f + k)
    ensures ReleasingAll(s, f, k + 1) == ReleasingAll(s, f, k)
  {
    ReleasingAllRoles(s, f, k);
    assert f + k !in s.role;
  }

  /** The n pages from a on are mapped to the frames from f on. */
  ghost predicate PtesRun(s: State, root: int, a: int, n: nat, f: int, perm: int) {
    forall v {:trigger Pte(s, root, v)} :: a <= v < a + n ==> Pte(s, root, v) == MakePte(f + (v - a), WithV(perm))
  }

  lemma NoPtes(s: State, root: int, a: int, f: int, perm: int)
    ensures PtesRun(s, root, a, 0, f, perm)
  {
  }

  /** Mapping one page more keeps the run, and lengthens it. */
  lemma RunStays(s: State, t: State, root: int, a: int, n: nat, f: int, perm: int, c: int, d: int)
    requires PtesRun(s, root, a, n, f, perm) && 0 <= a && a + n < MAXPAGE && (c == d == 0 || (c == a + n && d == c + 1))
    requires (c < d && Grew(Releasing(s, f + n), t, root, c, d) && Pte(t, root, c) == MakePte(f + n, WithV(perm))) ||
      (c == d && Grew(s, t, root, c, d))
    ensures PtesRun(t, root, a, if c < d then n + 1 else n, f, perm)
  {
    forall v | a <= v < a + n
      ensures Pte(t, root, v) == Pte(s, root, v)
    {
      assert Pte(Releasing(s, f + n), root, v) == Pte(s, root, v);
    }
  }

  lemma GrewMore(s: State, t: State, u: State, root: int, a: int, b: int)
    requires Grew(s, t, root, a, b) && Grew(t, u, root, 0, 0)
    ensures Grew(s, u, root, a, b)
  {
    GrewTrans(s, t, u, root, a, b, 0, 0, a, b);
  }

  /** The next page of the range is as it was. */
  lemma NextSame(s: State, t: State, root: int, a: int, k: nat, f: int, n: nat)
    requires k < n && 0 <= a && a + n <= MAXPAGE && Grew(ReleasingAll(s, f, k), t, root, a, a + k)
    ensures Pte(t, root, a + k) == Pte(s, root, a + k)
  {
    ReleasingAllRoles(s, f, k);
    assert Pte(ReleasingAll(s, f, k), root, a + k) == Pte(s, root, a + k);
  }

  lemma MapGrew(lo: int, hi: int, s: State, t: State, u: State, root: int, vpn: int, f: int)
    requires Grew(s, t, root, 0, 0) && PtesBut(t, u, root, vpn, vpn + 1) && SameData(t.mem, t.role, u.mem) && t.mem.Keys == u.mem.Keys
    requires u.at == t.at[Slot(root, 0, vpn) := f] && u.role == RoleAttached(lo, hi, t.role, f, Slot(root, 0, vpn)) &&
      Slot(root, 0, vpn) !in t.at
    requires Trees(lo, hi, s.mem, s.role, s.at, NONE) && (InPool(lo, hi, f) ==> f in s.role && s.role[f] == Held)
    ensures Grew(Releasing(s, f), u, root, vpn, vpn + 1)
    ensures InPool(lo, hi, f) ==> f in s.mem && f in u.mem && u.mem[f] == s.mem[f]
  {
    if InPool(lo, hi, f) {
      HeldInPool(lo, hi, s.mem, s.role, s.at, f);
    }
  }

  // ---- Translations after a store ----

  lemma NoPage(lo: int, hi: int, mem: Memory, role: map<int, Role>, at: map<Slot, int>, root: int, vpn: int)
    requires Trees(lo, hi, mem, role, at, NONE) && 0 <= vpn < MAXPAGE
    ensures Pte(State(mem, role, at), root, vpn) == 0 <==> Slot(root, 0, vpn) !in at
    ensures Slot(root, 0, vpn) in at ==>
      IsV(Pte(State(mem, role, at), root, vpn)) && IsLeaf(Pte(State(mem, role, at), root, vpn)) &&
        Ppn(Pte(State(mem, role, at), root, vpn)) == at[Slot(root, 0, vpn)]
  {
    assert OnPath(root, vpn, 0) == Slot(root, 0, vpn);
    if OnPath(root, vpn, 1) in at {
      EntryOnPath(lo, hi, mem, role, at, root, vpn, 1);
    } else {
      AbsentBelow(lo, hi, mem, role, at, root, vpn, 1);
    }
  }

  ghost predicate SameTables(at: map<Slot, int>, at': map<Slot, int>) {
    forall t: Slot {:trigger t in at} {:trigger t in at'} :: t.h > 0 ==> (t in at <==> t in at') && (t in at ==> at'[t] == at[t])
  }

  /** A store into the entry of one page changes that translation alone. */
  lemma EntryChangesOnePte(lo: int, hi: int, mem: Memory, role: map<int, Role>, role': map<int, Role>,
                           at: map<Slot, int>, at': map<Slot, int>, gone: Slot, root: int, vpn: int, w: int)
    requires Trees(lo, hi, mem, role, at, gone) && OnPath(root, vpn, 1) in at && 0 <= vpn < MAXPAGE
    requires at[OnPath(root, vpn, 1)] in mem && |mem[at[OnPath(root, vpn, 1)]]| == WORDS
    requires SameTables(at, at')
    ensures var s' := State(SetEntry(mem, at, OnPath(root, vpn, 1), vpn % WORDS, w), role', at');
      PtesBut(State(mem, role, at), s', root, vpn, vpn + 1) && Pte(s', root, vpn) == w
  {
    var s := OnPath(root, vpn, 1);
    var now := State(SetEntry(mem, at, s, vpn % WORDS, w), role', at');
    assert NodeOk(lo, hi, role, at, s);
    forall r, v | 0 <= v < MAXPAGE && !(r == root && v == vpn)
      ensures Pte(now, r, v) == Pte(State(mem, role, at), r, v)
    {
      var t := OnPath(r, v, 1);
      if t == s {
        assert v / WORDS == Key(v, 1) == Key(vpn, 1) == vpn / WORDS;
        assert v % WORDS != vpn % WORDS;
      } else if t in at {
        NodesApart(lo, hi, mem, role, at, gone, s, t);
      }
    }
  }

  // ---- Facts about one node ----

  /** Writing a frame that is no page table changes no translation. */
  lemma StoreKeepsPtes(lo: int, hi: int, mem: Memory, role: map<int, Role>, role': map<int, Role>, at: map<Slot, int>,
                       gone: Slot, f: int, p: seq<int>)
    requires Trees(lo, hi, mem, role, at, gone) && f in role && f in mem && (role[f].Page? ==> role[f].slot.h == 0)
    requires |p| == WORDS
    ensures PtesBut(State(mem, role, at), State(mem[f := p], role', at), 0, 0, 0)
  {
    forall r, v | 0 <= v < MAXPAGE
      ensures Pte(State(mem[f := p], role', at), r, v) == Pte(State(mem, role, at), r, v)
    {
      var s := OnPath(r, v, 1);
      if s in at {
        assert NodeOk(lo, hi, role, at, s);
      }
    }
  }

  /** Where a node is, and that pages have no children. */
  lemma NodeFacts(lo: int, hi: int, mem: Memory, role: map<int, Role>, at: map<Slot, int>, gone: Slot, s: Slot)
    requires Trees(lo, hi, mem, role, at, gone) && s in at
    ensures Frames(lo, hi, mem, role) && Placed(s)
    ensures InPool(lo, hi, at[s]) ==> at[s] in mem && |mem[at[s]]| == WORDS && at[s] in role && role[at[s]] == Page(s)
    ensures s.h >= 1 ==> InPool(lo, hi, at[s])
    ensures s.h == 0 ==> forall j {:trigger Child(s, j)} :: Child(s, j) !in at
  {
    assert NodeOk(lo, hi, role, at, s);
    forall j | s.h == 0
      ensures Child(s, j) !in at
    {
      assert Child(s, j) in at ==> NodeOk(lo, hi, role, at, Child(s, j));
    }
  }

  /** The frame of a page is the only one with that role. */
  lemma OneOwner(lo: int, hi: int, mem: Memory, role: map<int, Role>, at: map<Slot, int>, c: Slot)
    requires Trees(lo, hi, mem, role, at, NONE) && c in at
    ensures forall f {:trigger role[f]} :: f in role && role[f] == Page(c) ==> f == at[c]
    ensures InPool(lo, hi, at[c]) ==> at[c] in role && role[at[c]] == Page(c) && at[c] in mem
    ensures !InPool(lo, hi, at[c]) ==> at[c] !in role
  {
    NodeFacts(lo, hi, mem, role, at, NONE, c);
  }

  lemma HeldInPool(lo: int, hi: int, mem: Memory, role: map<int, Role>, at: map<Slot, int>, f: int)
    requires Trees(lo, hi, mem, role, at, NONE) && f in role
    ensures InPool(lo, hi, f) && f in mem && |mem[f]| == WORDS
  {
  }

  lemma RootFrame(lo: int, hi: int, mem: Memory, role: map<int, Role>, at: map<Slot, int>, root: int)
    requires Trees(lo, hi, mem, role, at, NONE) && Slot(root, 3, 0) in at
    ensures at[Slot(root, 3, 0)] == root && 0 < root
  {
    assert NodeOk(lo, hi, role, at, Slot(root, 3, 0));
  }

  /** Below a missing table there is no table. */
  lemma AbsentBelow(lo: int, hi: int, mem: Memory, role: map<int, Role>, at: map<Slot, int>, root: int, vpn: int, h: int)
    requires Trees(lo, hi, mem, role, at, NONE) && 1 <= h <= 2 && OnPath(root, vpn, h) !in at
    ensures OnPath(root, vpn, 1) !in at && OnPath(root, vpn, 0) !in at
  {
    assert OnPath(root, vpn, 1) in at ==> NodeOk(lo, hi, role, at, OnPath(root, vpn, 1));
    assert OnPath(root, vpn, 0) in at ==> NodeOk(lo, hi, role, at, OnPath(root, vpn, 0));
    assert Parent(OnPath(root, vpn, 1)) == OnPath(root, vpn, 2);
    assert Parent(OnPath(root, vpn, 0)) == OnPath(root, vpn, 1);
  }

  lemma AttachKeepsFree(lo: int, hi: int, mem: Memory, head: int, free: seq<int>, role: map<int, Role>,
                        at: map<Slot, int>, s: Slot, i: int, f: int, w: int, c: Slot)
    requires FreeList(lo, hi, mem, head, free, role) && Trees(lo, hi, mem, role, at, NONE) && s in at &&
      at[s] in mem && InPool(lo, hi, at[s])
    requires 0 <= i < WORDS == |mem[at[s]]| && (InPool(lo, hi, f) ==> f in role && role[f] == Held)
    ensures FreeList(lo, hi, SetEntry(mem, at, s, i, w), head, free, RoleAttached(lo, hi, role, f, c))
  {
    assert NodeOk(lo, hi, role, at, s);
    StoreKeepsFree(lo, hi, mem, SetEntry(mem, at, s, i, w), head, free, role, at[s]);
    if InPool(lo, hi, f) {
      assert f in role;
      RoleKeepsFree(lo, hi, SetEntry(mem, at, s, i, w), head, free, role, f, Page(c));
    }
  }

  /** A fresh page-table page, all of whose entries are empty, adds no translation. */
  lemma TableAddsNoPtes(lo: int, hi: int, mem0: Memory, mem: Memory, role: map<int, Role>, role': map<int, Role>,
                        at: map<Slot, int>, root: int, vpn: int, h: int, f: int, w: int)
    requires Trees(lo, hi, mem, role, at, NONE) && 2 <= h <= 3 && OnPath(root, vpn, h) in at && OnPath(root, vpn, h - 1) !in at
    requires f in role && role[f] == Held && f in mem && f in mem0 && mem == mem0[f := Fill(0)]
    requires at[OnPath(root, vpn, h)] in mem && |mem[at[OnPath(root, vpn, h)]]| == WORDS
    ensures PtesBut(State(mem0, role, at),
        State(SetEntry(mem, at, OnPath(root, vpn, h), Index(vpn, h), w), role', at[OnPath(root, vpn, h - 1) := f]),
          root, 0, 0)
  {
    var s, c := OnPath(root, vpn, h), OnPath(root, vpn, h - 1);
    var now := State(SetEntry(mem, at, s, Index(vpn, h), w), role', at[c := f]);
    assert NodeOk(lo, hi, role, at, s);
    forall r, v | 0 <= v < MAXPAGE
      ensures Pte(now, r, v) == Pte(State(mem0, role, at), r, v)
    {
      var t := OnPath(r, v, 1);
      if t in at {
        assert NodeOk(lo, hi, role, at, t);
        NodesApart(lo, hi, mem, role, at, NONE, s, t);
      }
    }
  }

  /** The entry for the next level tells whether the node below exists. */
  lemma EntryOnPath(lo: int, hi: int, mem: Memory, role: map<int, Role>, at: map<Slot, int>, root: int, vpn: int, h: int)
    requires Trees(lo, hi, mem, role, at, NONE) && 1 <= h <= 3 && OnPath(root, vpn, h) in at
    ensures var s, i, c := OnPath(root, vpn, h), Index(vpn, h), OnPath(root, vpn, h - 1);
      && Child(s, i) == c && at[s] in mem && |mem[at[s]]| == WORDS && InPool(lo, hi, at[s]) && 0 < at[s] &&
        at[s] in role && role[at[s]] == Page(s)
      && (if c in at then IsV(mem[at[s]][i]) else mem[at[s]][i] == 0)
      && (c in at ==> at[c] == Ppn(mem[at[s]][i]) && (if h == 1 then IsLeaf(mem[at[s]][i]) else 0 < at[c] && Flags(mem[at[s]][i]) == PTE_V))
  {
    var s, i, c := OnPath(root, vpn, h), Index(vpn, h), OnPath(root, vpn, h - 1);
    PathStep(root, vpn, h);
    assert NodeOk(lo, hi, role, at, s) && TableOk(mem, at, NONE, s, i);
    assert c in at ==> NodeOk(lo, hi, role, at, c);
  }
}
