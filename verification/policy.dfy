/** The page-replacement policies of ass3: not frequently used, least accessed, and second chance. */
module ReplacementPolicy {
  import opened RamQueue
  import opened Bits
  import opened Paging

  datatype Policy = NFUA | LAPA | SCFIFO

  // ---- Counting ones ----

  /** The number of ones in the binary form of n. */
  function Ones(n: nat): nat {
    if n == 0 then 0 else n % 2 + Ones(n / 2)
  }

  /** Ones counts the bits that are set. */
  lemma {:induction false} OnesCountsBits(n: nat, w: nat)
    requires n < Pow2(w)
    ensures Ones(n) == |set k | 0 <= k < w && Bit(n, k)|
    decreases w
  {
    var bits := set k | 0 <= k < w && Bit(n, k);
    if w == 0 {
      assert bits == {};
    } else {
      OnesCountsBits(n / 2, w - 1);
      var half := set k | 0 <= k < w - 1 && Bit(n / 2, k);
      var up := set k | k in half :: k + 1;
      Shifted(half, up);
      forall k | 0 <= k < w - 1
        ensures Bit(n / 2, k) == Bit(n, k + 1)
      {
        BitOfHalf(n, k);
      }
      assert forall k :: k in up <==> k - 1 in half;
      assert Bit(n, 0) <==> n % 2 == 1;
      assert bits == up + if n % 2 == 1 then {0} else {};
    }
  }

  lemma {:induction false} Shifted(x: set<int>, y: set<int>)
    requires forall k {:trigger k in y} :: k in y <==> k - 1 in x
    ensures |y| == |x|
    decreases |x|
  {
    if k: int :| k in x {
      assert k + 1 in y;
      Shifted(x - {k}, y - {k + 1});
    } else {
      assert forall k: int :: k !in x;
      assert forall k: int :: k in y ==> k - 1 in x;
      assert x <= {} && y <= {};
    }
  }

  /** count_ones(): halve the number until it is zero, adding up its last bits. */
  method CountOnes(n: Uint) returns (counter: int)
    ensures counter == Ones(n)
  {
    counter := 0;
    var m: nat := n;
    while m > 0
      invariant counter + Ones(m) == Ones(n)
    {
      if m % 2 == 1 {
        counter := counter + 1;
      }
      m := m / 2;
    }
  }

  // ---- The minimum policies ----

  /** i is the first resident page of least key. */
  ghost predicate FirstLeast(pages: seq<PageData>, key: PageData -> int, i: int) {
    && 0 <= i < |pages| && Resident(pages[i])
    && forall j {:trigger pages[j]} :: 0 <= j < |pages| && Resident(pages[j]) ==>
      key(pages[j]) > key(pages[i]) || (key(pages[j]) == key(pages[i]) && i <= j)
  }

  ghost predicate NoneResident(pages: seq<PageData>) {
    forall j {:trigger pages[j]} :: 0 <= j < |pages| ==> !Resident(pages[j])
  }

  function AgeOf(p: PageData): int { p.age }

  function OnesOf(p: PageData): int { Ones(p.age) }

  /** NFUA_page(): the first resident page of least age. */
  method NfuaPage(pages: seq<PageData>) returns (minIndex: int)
    requires |pages| == MAX_TOTAL_PAGES
    ensures NoneResident(pages) ==> minIndex == 0
    ensures !NoneResident(pages) ==> FirstLeast(pages, AgeOf, minIndex)
    ensures forall j {:trigger pages[j]} :: 0 <= j < |pages| && Resident(pages[j]) ==>
      && 0 <= minIndex < |pages| && Resident(pages[minIndex]) && pages[minIndex].age <= pages[j].age
      && (pages[minIndex].age == pages[j].age ==> minIndex <= j)
  {
    minIndex := 0;
    var i := 0;
    while i < MAX_TOTAL_PAGES
      invariant 0 <= i <= MAX_TOTAL_PAGES && minIndex == 0
      invariant forall j {:trigger pages[j]} :: 0 <= j < i ==> !Resident(pages[j])
    {
      if pages[i].isAllocated && pages[i].inRam {
        minIndex := i;
        break;
      }
      i := i + 1;
    }
    ghost var none := i == MAX_TOTAL_PAGES;
    i := 1;
    while i < MAX_TOTAL_PAGES
      invariant 1 <= i <= MAX_TOTAL_PAGES && 0 <= minIndex < MAX_TOTAL_PAGES
      invariant none ==> NoneResident(pages) && minIndex == 0
      invariant !none ==> Resident(pages[minIndex])
      invariant !none ==> forall j {:trigger pages[j]} :: 0 <= j < MAX_TOTAL_PAGES && Resident(pages[j]) && (j < i || j <= minIndex) ==>
                  pages[j].age > pages[minIndex].age || (pages[j].age == pages[minIndex].age && minIndex <= j)
    {
      if pages[i].isAllocated && pages[i].inRam && pages[i].age < pages[minIndex].age {
        minIndex := i;
      }
      i := i + 1;
    }
  }

  /** LAPA_page(): the first resident page whose age has the fewest ones. */
  method LapaPage(pages: seq<PageData>) returns (minIndex: int)
    requires |pages| == MAX_TOTAL_PAGES
    ensures NoneResident(pages) ==> minIndex == 0
    ensures !NoneResident(pages) ==> FirstLeast(pages, OnesOf, minIndex)
    ensures forall j {:trigger pages[j]} :: 0 <= j < |pages| && Resident(pages[j]) ==>
      && 0 <= minIndex < |pages| && Resident(pages[minIndex]) && Ones(pages[minIndex].age) <= Ones(pages[j].age)
      && (Ones(pages[minIndex].age) == Ones(pages[j].age) ==> minIndex <= j)
  {
    minIndex := 0;
    var minCounter := 0;
    var i := 0;
    while i < MAX_TOTAL_PAGES
      invariant 0 <= i <= MAX_TOTAL_PAGES && minIndex == 0 && minCounter == 0
      invariant forall j {:trigger pages[j]} :: 0 <= j < i ==> !Resident(pages[j])
    {
      if pages[i].isAllocated && pages[i].inRam {
        minIndex := i;
        minCounter := CountOnes(pages[i].age);
        break;
      }
      i := i + 1;
    }
    ghost var none := i == MAX_TOTAL_PAGES;
    i := 1;
    while i < MAX_TOTAL_PAGES
      invariant 1 <= i <= MAX_TOTAL_PAGES && 0 <= minIndex < MAX_TOTAL_PAGES
      invariant none ==> NoneResident(pages) && minIndex == 0
      invariant !none ==> Resident(pages[minIndex]) && minCounter == OnesOf(pages[minIndex])
      invariant !none ==> forall j {:trigger pages[j]} :: 0 <= j < MAX_TOTAL_PAGES && Resident(pages[j]) && (j < i || j <= minIndex) ==>
                  OnesOf(pages[j]) > minCounter || (OnesOf(pages[j]) == minCounter && minIndex <= j)
    {
      var iCount := CountOnes(pages[i].age);
      if pages[i].isAllocated && pages[i].inRam && iCount < minCounter {
        minIndex := i;
        minCounter := iCount;
      }
      i := i + 1;
    }
  }
}
