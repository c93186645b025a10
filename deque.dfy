/** The part of `collections.deque` the tracker relies on. */
module Deque {

  /**
    What a `deque(maxlen=n)` holds after the items of `s` have been appended to
    an empty one in order, one by one: the newest `n` of them.
  */
  function Bounded<T>(s: seq<T>, maxLen: nat): (r: seq<T>)
    ensures |r| <= maxLen && |r| <= |s|
    ensures |r| == maxLen || r == s
    ensures r == s[|s| - |r|..]
  {
    if |s| <= maxLen then s else s[|s| - maxLen..]
  }

  /** Appending to a bounded deque item by item is the same as bounding the concatenation. */
  lemma {:induction false} BoundedAppend<T>(s: seq<T>, t: seq<T>, maxLen: nat)
    ensures Bounded(Bounded(s, maxLen) + t, maxLen) == Bounded(s + t, maxLen)
  {
    var b := Bounded(s, maxLen);
    if |s| > maxLen {
      assert s == s[..|s| - maxLen] + b;
      assert s + t == s[..|s| - maxLen] + (b + t);
    }
  }

  /** The slice `s[-1:-n-1:-1]`: the last `n` elements (or all of them), newest first. */
  function LastReversed<T>(s: seq<T>, n: nat): (r: seq<T>)
    ensures |r| == if |s| < n then |s| else n
    ensures forall i :: 0 <= i < |r| ==> r[i] == s[|s| - 1 - i]
  {
    var len := if |s| < n then |s| else n;
    seq(len, i requires 0 <= i < len => s[|s| - 1 - i])
  }
}
