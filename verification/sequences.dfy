/** Small facts about sequences that the proofs of the other modules share. */
module Sequences {

  /** A non-empty sequence is its prefix followed by its last element. */
  lemma InitAndLast<T>(s: seq<T>)
    requires s != []
    ensures s[..|s| - 1] + [s[|s| - 1]] == s
  {
  }

  /** A slice of a slice is a slice of the original. */
  lemma SliceOfSlice<T>(s: seq<T>, lo: nat, hi: nat, i: nat, j: nat)
    requires lo <= hi <= |s| && i <= j <= hi - lo
    ensures s[lo..hi][i..j] == s[lo + i..lo + j]
  {
    var t := s[lo..hi];
    forall k | 0 <= k < j - i
      ensures t[i..j][k] == s[lo + i..lo + j][k]
    {
      assert t[i..j][k] == t[i + k] == s[lo + i + k];
    }
  }

  /** When each element of a prefix is paired with its counterpart and one more
      pair is added, the extended sequences are still paired element by element. */
  lemma PairedSnoc<A, B>(xs: seq<A>, ys: seq<B>, y: B, paired: (A, B) -> bool)
    requires |xs| == |ys| + 1
    requires forall i :: 0 <= i < |ys| ==> paired(xs[..|ys|][i], ys[i])
    requires paired(xs[|ys|], y)
    ensures forall i :: 0 <= i < |xs| ==> paired(xs[i], (ys + [y])[i])
  {
    forall i | 0 <= i < |xs|
      ensures paired(xs[i], (ys + [y])[i])
    {
      if i < |ys| {
        assert xs[..|ys|][i] == xs[i];
      }
    }
  }

  /** A first failing element of the prefix is a first failing element of the
      whole sequence. */
  lemma FailureInPrefix<A>(xs: seq<A>, init: seq<A>, failed: A -> bool, passed: A -> bool)
    requires |xs| == |init| + 1 && init == xs[..|init|]
    requires exists i :: 0 <= i < |init| && failed(init[i]) && forall k :: 0 <= k < i ==> passed(init[k])
    ensures exists i :: 0 <= i < |xs| && failed(xs[i]) && forall k :: 0 <= k < i ==> passed(xs[k])
  {
    var i :| 0 <= i < |init| && failed(init[i]) && forall k :: 0 <= k < i ==> passed(init[k]);
    forall k | 0 <= k < i
      ensures passed(xs[k])
    {
      assert init[k] == xs[k];
    }
    assert init[i] == xs[i];
  }

  /** When every element before the last passes and the last fails, the last is
      the first failing element. */
  lemma FailureAtLast<A>(xs: seq<A>, init: seq<A>, failed: A -> bool, passed: A -> bool)
    requires |xs| == |init| + 1 && init == xs[..|init|]
    requires forall k :: 0 <= k < |init| ==> passed(init[k])
    requires failed(xs[|init|])
    ensures exists i :: 0 <= i < |xs| && failed(xs[i]) && forall k :: 0 <= k < i ==> passed(xs[k])
  {
    forall k | 0 <= k < |init|
      ensures passed(xs[k])
    {
      assert init[k] == xs[k];
    }
  }
}
