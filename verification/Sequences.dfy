/** Turning a list round. */
module Sequences {
  function Flip<T>(s: seq<T>): (r: seq<T>)
    ensures |r| == |s| && forall i :: 0 <= i < |s| ==> r[i] == s[|s| - 1 - i]
  {
    seq(|s|, i requires 0 <= i < |s| => s[|s| - 1 - i])
  }

  lemma FlipAppend<T>(s: seq<T>, t: seq<T>)
    ensures Flip(s + t) == Flip(t) + Flip(s)
  {
  }
}
