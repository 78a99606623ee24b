/** Counting arguments over distinct numbers below a bound. */
module Counting {
  import opened Sequences

  predicate AllBelow(s: seq<int>, n: nat) {
    forall i :: 0 <= i < |s| ==> 0 <= s[i] < n
  }

  predicate AllDifferent(s: seq<int>) {
    forall i, j :: 0 <= i < j < |s| ==> s[i] != s[j]
  }

  lemma RemoveKeeps(s: seq<int>, p: nat, x: int)
    requires p < |s| && x in s && x != s[p]
    ensures x in RemoveAt(s, p)
  {
    var i :| 0 <= i < |s| && s[i] == x;
    assert RemoveAt(s, p)[if i < p then i else i - 1] == x;
  }

  /** At most n distinct numbers lie below n, and n of them are all of them. */
  lemma {:induction false} Pigeonhole(s: seq<int>, n: nat)
    requires AllBelow(s, n) && AllDifferent(s)
    ensures |s| <= n
    ensures |s| == n ==> forall x :: 0 <= x < n ==> x in s
  {
    assert s != [] ==> 0 <= s[0] < n;
    if n == 0 {
    } else if p :| 0 <= p < |s| && s[p] == n - 1 {
      Pigeonhole(RemoveAt(s, p), n - 1);
      if |s| == n {
        forall x | 0 <= x < n
          ensures x in s
        {
          if x < n - 1 {
            assert x in RemoveAt(s, p);
          }
        }
      }
    } else {
      Pigeonhole(s, n - 1);
    }
  }

  /** Fewer than n numbers leave out some number below n. */
  lemma {:induction false} Missing(s: seq<int>, n: nat) returns (x: int)
    requires |s| < n
    ensures 0 <= x < n && x !in s
    decreases n
  {
    if p :| 0 <= p < |s| && s[p] == n - 1 {
      x := Missing(RemoveAt(s, p), n - 1);
      if x in s {
        RemoveKeeps(s, p, x);
      }
    } else {
      x := n - 1;
    }
  }
}
