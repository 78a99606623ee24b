/** Sizes the kernels share. */
module Sizes {

  const PGSIZE := 4096
  const BSIZE := 1024
  const NDIRECT := 12
  const NINDIRECT := BSIZE / 4  // block numbers in an indirect block
  const MAXFILE := NDIRECT + NINDIRECT

  /** The number of pages that sz bytes take: PGROUNDUP, in pages. */
  function PagesUp(sz: nat): nat { (sz + PGSIZE - 1) / PGSIZE }

  /** It is the least number of pages that holds sz bytes. */
  lemma PagesUpIsLeast(sz: nat, n: nat)
    ensures n >= PagesUp(sz) <==> n * PGSIZE >= sz
  {
  }
}
