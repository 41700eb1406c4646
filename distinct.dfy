/**
 * `Array.from(new Set(xs))`: the distinct elements of `xs`, each at the place
 * of its first occurrence. A JavaScript `Set` iterates in insertion order and
 * ignores re-insertions, which is what `Unique` does element by element.
 */
module Distinct {

  predicate NoDuplicates<T(==,!new)>(s: seq<T>) {
    forall i, j :: 0 <= i < j < |s| ==> s[i] != s[j]
  }

  /** Position of the first occurrence of `x` in `s`. */
  function FirstIndex<T(==,!new)>(s: seq<T>, x: T): (k: nat)
    requires x in s
    ensures k < |s| && s[k] == x
    ensures forall j :: 0 <= j < k ==> s[j] != x
  {
    if s[0] == x then 0 else 1 + FirstIndex(s[1..], x)
  }

  /** Appending an element does not move the first occurrence of an element already present. */
  lemma {:induction false} FirstIndexAppend<T(!new)>(s: seq<T>, y: T, x: T)
    requires x in s
    ensures FirstIndex(s + [y], x) == FirstIndex(s, x)
  {
    if s[0] != x {
      assert (s + [y])[1..] == s[1..] + [y];
      FirstIndexAppend(s[1..], y, x);
    }
  }

  /** Iterating the set built from `s`: the elements of `s` without repetition. */
  function Unique<T(==,!new)>(s: seq<T>): (r: seq<T>)
    ensures NoDuplicates(r)
    ensures forall x :: x in r <==> x in s
    ensures |r| <= |s|
    decreases |s|
  {
    if |s| == 0 then []
    else
      var d := Unique(s[..|s| - 1]);
      assert s == s[..|s| - 1] + [s[|s| - 1]];
      if s[|s| - 1] in d then d else d + [s[|s| - 1]]
  }

  /** The set's iteration order is the order of first occurrence in `s`. */
  lemma {:induction false} UniqueFirstOccurrenceOrder<T(!new)>(s: seq<T>)
    ensures forall i, j :: 0 <= i < j < |Unique(s)| ==>
              FirstIndex(s, Unique(s)[i]) < FirstIndex(s, Unique(s)[j])
  {
    if |s| > 0 {
      var init, x := s[..|s| - 1], s[|s| - 1];
      assert s == init + [x];
      UniqueFirstOccurrenceOrder(init);
      var d := Unique(init);
      forall i, j | 0 <= i < j < |Unique(s)|
        ensures FirstIndex(s, Unique(s)[i]) < FirstIndex(s, Unique(s)[j])
      {
        FirstIndexAppend(init, x, d[i]);
        if j < |d| {
          FirstIndexAppend(init, x, d[j]);
        } else {
          assert Unique(s)[j] == x && x !in init;
          assert FirstIndex(s, x) == |init| by {
            assert s[|init|] == x;
            assert forall k :: 0 <= k < |init| ==> s[k] == init[k];
          }
        }
      }
    }
  }

  /** Deduplicating twice changes nothing. */
  lemma {:induction false} UniqueIdempotent<T(!new)>(s: seq<T>)
    ensures Unique(Unique(s)) == Unique(s)
  {
    UniqueOfDistinct(Unique(s));
  }

  /** A sequence without repetitions is its own deduplication. */
  lemma {:induction false} UniqueOfDistinct<T(!new)>(s: seq<T>)
    requires NoDuplicates(s)
    ensures Unique(s) == s
  {
    if |s| > 0 {
      var init := s[..|s| - 1];
      UniqueOfDistinct(init);
      assert s[|s| - 1] !in init;
      assert s == init + [s[|s| - 1]];
    }
  }

  /** Appending only elements already seen leaves the deduplication unchanged. */
  lemma {:induction false} UniqueAppendSeen<T(!new)>(s: seq<T>, t: seq<T>)
    requires forall x :: x in t ==> x in s
    ensures Unique(s + t) == Unique(s)
    decreases |t|
  {
    if |t| == 0 {
      assert s + t == s;
    } else {
      var init := t[..|t| - 1];
      assert (s + t)[..|s + t| - 1] == s + init;
      assert (s + t)[|s + t| - 1] == t[|t| - 1];
      assert t[|t| - 1] in t;
      UniqueAppendSeen(s, init);
    }
  }
}
