/** The block device: an array of fixed-size blocks, each written atomically.
    A crash can fall between any two writes, so the history of writes is what
    the crash properties are about. */
module Disk {

  const BLOCK_WORDS := 256  // BSIZE / sizeof(uint)

  datatype Words = Words(w: seq<int>)

  type Block = b: Words | |b.w| == BLOCK_WORDS witness Words(seq(BLOCK_WORDS, _ => 0))

  datatype Write = Write(bn: int, data: Block)

  /** One atomic block write; a write outside the device does nothing. */
  function Put(d: seq<Block>, w: Write): (r: seq<Block>)
    ensures |r| == |d|
  {
    if 0 <= w.bn < |d| then d[w.bn := w.data] else d
  }

  /** The device after the first k writes of a sequence. */
  function After(d: seq<Block>, ws: seq<Write>, k: nat): (r: seq<Block>)
    requires k <= |ws|
    ensures |r| == |d|
    decreases k
  {
    if k == 0 then d else Put(After(d, ws, k - 1), ws[k - 1])
  }

  /** The device after a whole sequence of writes. */
  function Apply(d: seq<Block>, ws: seq<Write>): (r: seq<Block>)
    ensures |r| == |d|
  {
    After(d, ws, |ws|)
  }

  /** Only the writes up to the crash matter. */
  lemma {:induction false} AfterExtend(d: seq<Block>, ws: seq<Write>, more: seq<Write>, k: nat)
    requires k <= |ws|
    ensures After(d, ws + more, k) == After(d, ws, k)
  {
    if k > 0 {
      AfterExtend(d, ws, more, k - 1);
      assert (ws + more)[k - 1] == ws[k - 1];
    }
  }

  /** A crash k writes into `more`, after all of `ws`. */
  lemma {:induction false} AfterConcat(d: seq<Block>, ws: seq<Write>, more: seq<Write>, k: nat)
    requires k <= |more|
    ensures After(d, ws + more, |ws| + k) == After(Apply(d, ws), more, k)
  {
    if k == 0 {
      AfterExtend(d, ws, more, |ws|);
    } else {
      AfterConcat(d, ws, more, k - 1);
      assert (ws + more)[|ws| + k - 1] == more[k - 1];
    }
  }
}
