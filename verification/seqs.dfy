/** Positional insertion and removal on sequences, and integer sums. */
module Seqs {

  /** `slices.Insert(s, i, x)`: x lands at index i, the rest keep their order. */
  function Insert<T>(s: seq<T>, i: nat, x: T): (r: seq<T>)
    requires i <= |s|
    ensures |r| == |s| + 1 && r[i] == x
    ensures forall k :: 0 <= k < i ==> r[k] == s[k]
    ensures forall k :: i < k < |r| ==> r[k] == s[k - 1]
  {
    s[..i] + [x] + s[i..]
  }

  function Remove<T>(s: seq<T>, i: nat): (r: seq<T>)
    requires i < |s|
    ensures |r| == |s| - 1
    ensures forall k :: 0 <= k < i ==> r[k] == s[k]
    ensures forall k :: i <= k < |r| ==> r[k] == s[k + 1]
  {
    s[..i] + s[i + 1..]
  }

  /** Removing what was inserted gives the original sequence back. */
  lemma RemoveInsert<T>(s: seq<T>, i: nat, x: T)
    requires i <= |s|
    ensures Remove(Insert(s, i, x), i) == s
  {
  }

  function Sum(w: seq<int>): int {
    if w == [] then 0 else w[0] + Sum(w[1..])
  }

  lemma {:induction false} SumAppend(a: seq<int>, b: seq<int>)
    ensures Sum(a + b) == Sum(a) + Sum(b)
  {
    if a == [] {
      assert a + b == b;
    } else {
      assert (a + b)[1..] == a[1..] + b;
      SumAppend(a[1..], b);
    }
  }

  /** A sum over a slice grows by the next element. */
  lemma SumExtend(w: seq<int>, i: nat, j: nat)
    requires i <= j < |w|
    ensures Sum(w[i..j + 1]) == Sum(w[i..j]) + w[j]
  {
    assert w[i..j + 1] == w[i..j] + [w[j]];
    SumAppend(w[i..j], [w[j]]);
  }
}
