/** Facts about sequences of guesses shared by the two guessing games. */
module Guessing {

  /** The position of the first occurrence of `x` in `s`, or `|s|` when there is none. */
  function FirstIndex(s: seq<int>, x: int): (k: nat)
    ensures k <= |s|
    ensures k < |s| ==> s[k] == x
    ensures forall i :: 0 <= i < k ==> s[i] != x
  {
    if s == [] then 0
    else if s[0] == x then 0
    else 1 + FirstIndex(s[1..], x)
  }

  /** Extending a sequence does not move a first occurrence already found in it,
      and pushes an absent one at least past the old end. */
  lemma FirstIndexOfExtension(p: seq<int>, s: seq<int>, x: int)
    requires p <= s
    ensures FirstIndex(p, x) < |p| ==> FirstIndex(s, x) == FirstIndex(p, x)
    ensures FirstIndex(p, x) == |p| ==> FirstIndex(s, x) >= |p|
  {
    var k := FirstIndex(p, x);
    if k < |p| {
      assert s[k] == x;
    }
  }

  /** Appending one element: an earlier occurrence stays first, otherwise the
      new element is the first occurrence exactly when it equals `x`. */
  lemma FirstIndexAppend(s: seq<int>, g: int, x: int)
    ensures FirstIndex(s + [g], x)
         == if FirstIndex(s, x) < |s| then FirstIndex(s, x) else if g == x then |s| else |s| + 1
  {
    FirstIndexOfExtension(s, s + [g], x);
    if FirstIndex(s, x) == |s| && g == x {
      assert (s + [g])[|s|] == x;
    }
  }
}
