/**
 The JavaScript array built-ins that the frame utilities are written with:
 the spread copy `[...a]`, `Array.prototype.reverse` (which reverses the
 receiver in place), `Array.prototype.map` and `Array.prototype.some`.
 `Reversed` is the reference definition of what a reversal produces; the
 in-place method is proved against it.
 */
module JsArray {

  /** The reverse of a sequence: last element first. */
  function Reversed<T>(s: seq<T>): (r: seq<T>)
    ensures |r| == |s|
    ensures forall k :: 0 <= k < |s| ==> r[k] == s[|s| - 1 - k]
  {
    if s == [] then [] else Reversed(s[1..]) + [s[0]]
  }

  /** Reversing twice gives back the original sequence. */
  lemma ReversedInvolution<T>(s: seq<T>)
    ensures Reversed(Reversed(s)) == s
  {
    var r := Reversed(Reversed(s));
    assert |r| == |s|;
    forall k | 0 <= k < |s|
      ensures r[k] == s[k]
    {
      assert r[k] == Reversed(s)[|s| - 1 - k];
    }
  }

  /** A reversal keeps every element with its multiplicity: it is a permutation. */
  lemma {:induction false} ReversedPermutation<T>(s: seq<T>)
    ensures multiset(Reversed(s)) == multiset(s)
  {
    if s != [] {
      ReversedPermutation(s[1..]);
      assert s == [s[0]] + s[1..];
      assert Reversed(s) == Reversed(s[1..]) + [s[0]];
    }
  }

  /** The pointwise statement determines the reversal: nothing else satisfies it. */
  lemma ReversedUnique<T>(s: seq<T>, r: seq<T>)
    requires |r| == |s|
    requires forall k :: 0 <= k < |s| ==> r[k] == s[|s| - 1 - k]
    ensures r == Reversed(s)
  {
    assert forall k :: 0 <= k < |s| ==> r[k] == Reversed(s)[k];
  }

  /** `[...a]`: a fresh array holding the same elements as `a`. */
  method Copy<T>(a: array<T>) returns (c: array<T>)
    ensures fresh(c)
    ensures c[..] == a[..]
  {
    c := new T[a.Length](i requires 0 <= i < a.Length reads a => a[i]);
  }

  /** `a.reverse()`: reverses the receiver in place by swapping the ends inwards. */
  method ReverseInPlace<T>(a: array<T>)
    modifies a
    ensures a[..] == Reversed(old(a[..]))
  {
    var n := a.Length;
    var i := 0;
    while i < n / 2
      invariant 0 <= i <= n / 2
      invariant forall k :: 0 <= k < i ==> a[k] == old(a[n - 1 - k]) && a[n - 1 - k] == old(a[k])
      invariant forall k :: i <= k < n - i ==> a[k] == old(a[k])
    {
      a[i], a[n - 1 - i] := a[n - 1 - i], a[i];
      i := i + 1;
    }
    ReversedUnique(old(a[..]), a[..]);
  }

  /** `s.map(f)`: the element at every index is `f` of the input's element there. */
  function Map<A, B>(f: A -> B, s: seq<A>): (r: seq<B>)
    ensures |r| == |s|
    ensures forall i :: 0 <= i < |s| ==> r[i] == f(s[i])
  {
    if s == [] then [] else [f(s[0])] + Map(f, s[1..])
  }

  /** `s.some(p)`: true exactly when some element satisfies `p`. */
  function Some<A>(p: A -> bool, s: seq<A>): (b: bool)
    ensures b <==> exists i :: 0 <= i < |s| && p(s[i])
    ensures s == [] ==> !b
  {
    if s == [] then false else p(s[0]) || Some(p, s[1..])
  }
}
