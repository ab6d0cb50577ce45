/** Facts about sequences that several models use. */
module Seqs {

  lemma SliceOfSlice<T>(s: seq<T>, lo: nat, hi: nat, i: nat, j: nat)
    requires lo <= hi <= |s| && i <= j <= hi - lo
    ensures s[lo..hi][i..j] == s[lo + i..lo + j]
  {
    var a, b := s[lo..hi][i..j], s[lo + i..lo + j];
    forall x | 0 <= x < |a|
      ensures a[x] == b[x]
    {
      assert a[x] == s[lo..hi][i + x];
    }
  }

  lemma SliceAppend<T>(s: seq<T>, lo: nat, mid: nat, hi: nat)
    requires lo <= mid <= hi <= |s|
    ensures s[lo..mid] + s[mid..hi] == s[lo..hi]
  {
  }

  lemma EmptyEnds<T>(a: seq<T>, b: seq<T>)
    ensures a + [] + b == a + b == a + b + []
    ensures a + b + [] == a + b
  {
  }

  /** Text appended to what was received is appended to what was handed up. */
  lemma AppendBoth<T>(a: seq<T>, b: seq<T>, whole: seq<T>, more: seq<T>)
    ensures a + b + [] == whole ==> a + b + more == whole + more
    ensures a <= whole ==> a <= whole + more
  {
    assert a + b + [] == a + b;
  }
}
