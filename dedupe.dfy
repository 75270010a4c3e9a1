/**
 Order-preserving removal of duplicates, applied to every report list before
 it is written.
 */
module Dedupe {

  predicate NoDuplicates<T(==)>(s: seq<T>) {
    forall i, j :: 0 <= i < j < |s| ==> s[i] != s[j]
  }

  /** The elements of `s`, as a set. */
  function Elements<T>(s: seq<T>): set<T> {
    set x | x in s
  }

  /** Position of the first occurrence of `x` in `s`. */
  function FirstIndex<T(==)>(s: seq<T>, x: T): (k: nat)
    requires x in s
    ensures k < |s| && s[k] == x
    ensures forall j :: 0 <= j < k ==> s[j] != x
  {
    if s[0] == x then 0 else 1 + FirstIndex(s[1..], x)
  }

  /** An occurrence of `x` with none before it is the first one. */
  lemma FirstIndexUnique<T>(s: seq<T>, x: T, k: nat)
    requires k < |s| && s[k] == x
    requires forall j :: 0 <= j < k ==> s[j] != x
    ensures FirstIndex(s, x) == k
  {
  }

  /** The specification of `dedupe`: scanning left to right, keep a value the
      first time it is seen. */
  function Deduped<T(==)>(s: seq<T>): seq<T> {
    if s == [] then []
    else
      var d := Deduped(s[..|s| - 1]);
      if s[|s| - 1] in d then d else d + [s[|s| - 1]]
  }

  /** `dedupe` as the source writes it: a `seen` set and an output list. */
  method Dedupe<T(==)>(values: seq<T>) returns (out: seq<T>)
    ensures out == Deduped(values)
    ensures NoDuplicates(out) && Elements(out) == Elements(values)
  {
    var seen: set<T> := {};
    out := [];
    for i := 0 to |values|
      invariant out == Deduped(values[..i])
      invariant seen == Elements(out)
    {
      assert values[..i + 1][..i] == values[..i];
      var value := values[i];
      if value in seen {
        continue;
      }
      seen := seen + {value};
      out := out + [value];
    }
    assert values[..|values|] == values;
    DedupedElements(values);
    DedupedNoDuplicates(values);
  }

  /** Exactly the input's values survive. */
  lemma {:induction false} DedupedHas<T>(s: seq<T>, x: T)
    ensures x in Deduped(s) <==> x in s
  {
    if s != [] {
      var init := s[..|s| - 1];
      DedupedHas(init, x);
      assert s == init + [s[|s| - 1]];
    }
  }

  lemma DedupedElements<T>(s: seq<T>)
    ensures forall x :: x in Deduped(s) <==> x in s
  {
    forall x {
      DedupedHas(s, x);
    }
  }

  /** No value is kept twice. */
  lemma {:induction false} DedupedNoDuplicates<T>(s: seq<T>)
    ensures NoDuplicates(Deduped(s))
  {
    if s != [] {
      DedupedNoDuplicates(s[..|s| - 1]);
    }
  }

  /** The output is never longer than the input. */
  lemma {:induction false} DedupedNotLonger<T>(s: seq<T>)
    ensures |Deduped(s)| <= |s|
  {
    if s != [] {
      DedupedNotLonger(s[..|s| - 1]);
    }
  }

  /** Values come out in the order of their first occurrence in the input. */
  lemma {:induction false} DedupedFirstOccurrenceOrder<T>(s: seq<T>, i: int, j: int)
    requires 0 <= i < j < |Deduped(s)|
    ensures Deduped(s)[i] in s && Deduped(s)[j] in s
    ensures FirstIndex(s, Deduped(s)[i]) < FirstIndex(s, Deduped(s)[j])
  {
    var init, last := s[..|s| - 1], s[|s| - 1];
    var d := Deduped(init);
    var x := Deduped(s)[i];
    assert x == d[i] && x in d;
    DedupedHas(init, x);
    assert s == init + [last];
    FirstIndexOfPrefix(init, last, x);
    if j < |d| {
      var y := Deduped(s)[j];
      assert y == d[j] && y in d;
      DedupedHas(init, y);
      FirstIndexOfPrefix(init, last, y);
      DedupedFirstOccurrenceOrder(init, i, j);
    } else {
      DedupedHas(init, last);
      assert Deduped(s)[j] == last && last !in init;
      assert FirstIndex(s, last) == |init|;
    }
  }

  lemma {:induction false} FirstIndexOfPrefix<T>(init: seq<T>, last: T, x: T)
    requires x in init
    ensures x in init + [last] && FirstIndex(init + [last], x) == FirstIndex(init, x)
  {
    if init[0] != x {
      assert (init + [last])[1..] == init[1..] + [last];
      FirstIndexOfPrefix(init[1..], last, x);
    }
  }

  /** A list without duplicates is left as it is. */
  lemma {:induction false} DedupedOfDistinct<T>(s: seq<T>)
    requires NoDuplicates(s)
    ensures Deduped(s) == s
  {
    if s != [] {
      var init := s[..|s| - 1];
      DedupedOfDistinct(init);
      DedupedElements(init);
    }
  }

  /** Deduplicating twice is the same as deduplicating once. */
  lemma DedupedIdempotent<T>(s: seq<T>)
    ensures Deduped(Deduped(s)) == Deduped(s)
  {
    DedupedNoDuplicates(s);
    DedupedOfDistinct(Deduped(s));
  }

  /** A list without duplicates is as long as its set of values. */
  lemma {:induction false} DistinctLength<T>(s: seq<T>)
    requires NoDuplicates(s)
    ensures |s| == |Elements(s)|
  {
    if s != [] {
      var init, last := s[..|s| - 1], s[|s| - 1];
      DistinctLength(init);
      assert Elements(s) == Elements(init) + {last};
      assert last !in Elements(init);
    }
  }

  /** So a deduplicated list is as long as the number of distinct values in
      the input: this is what every `*_count` of the summary reports. */
  lemma DedupedLength<T>(s: seq<T>)
    ensures |Deduped(s)| == |Elements(s)|
  {
    DedupedNoDuplicates(s);
    DedupedElements(s);
    DistinctLength(Deduped(s));
    assert Elements(Deduped(s)) == Elements(s);
  }
}
