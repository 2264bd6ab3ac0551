/** The `Vec<String>` operations of tag reconciliation: `sort`, `binary_search`
    and `remove(idx)`. The vector is a sequence value that the caller
    reassigns. */
module Slices {
  import opened Errors
  import opened Text

  /** Ascending in the `Ord` of `String`. */
  ghost predicate Sorted(s: seq<string>) {
    forall i, j :: 0 <= i < j < |s| ==> AtMost(s[i], s[j])
  }

  /** `s` with `x` put before its first element above `x`. */
  function Insert(s: seq<string>, x: string): (r: seq<string>)
    requires Sorted(s)
    ensures Sorted(r)
    ensures multiset(r) == multiset(s) + multiset{x}
    decreases |s|
  {
    if s == [] then [x]
    else if AtMost(x, s[0]) then
      forall j | 0 <= j < |s| ensures AtMost(x, s[j]) { AtMostFacts(x, s[0], s[j]); }
      SortedCons(x, s);
      [x] + s
    else
      var tail := Insert(s[1..], x);
      assert s == [s[0]] + s[1..];
      HeadBelowTail(s, x, tail);
      SortedCons(s[0], tail);
      [s[0]] + tail
  }

  /** An element at most each element of a sorted sequence can go in front of it. */
  lemma SortedCons(h: string, t: seq<string>)
    requires Sorted(t) && forall j :: 0 <= j < |t| ==> AtMost(h, t[j])
    ensures Sorted([h] + t)
  {
    var r := [h] + t;
    forall i, j | 0 <= i < j < |r| ensures AtMost(r[i], r[j]) {
      assert r[j] == t[j - 1];
      if i > 0 { assert r[i] == t[i - 1]; }
    }
  }

  /** When `x` goes after the head, the head stays at most every element of
      the tail it is inserted into. */
  lemma HeadBelowTail(s: seq<string>, x: string, tail: seq<string>)
    requires Sorted(s) && s != [] && !AtMost(x, s[0])
    requires multiset(tail) == multiset(s[1..]) + multiset{x}
    ensures forall j :: 0 <= j < |tail| ==> AtMost(s[0], tail[j])
  {
    AtMostFacts(x, s[0], x);
    forall j | 0 <= j < |tail| ensures AtMost(s[0], tail[j]) {
      var e := tail[j];
      assert e in multiset(tail);
      if e != x {
        assert e in multiset(s[1..]);
        var k :| 0 <= k < |s[1..]| && s[1..][k] == e;
        assert s[k + 1] == e;
      }
    }
  }

  /** `slice::sort`: an ascending permutation of `s`. Rust sorts the vector in
      place; here the sorted value is returned. */
  method Sort(s: seq<string>) returns (r: seq<string>)
    ensures Sorted(r)
    ensures multiset(r) == multiset(s)
  {
    r := [];
    for i := 0 to |s|
      invariant Sorted(r)
      invariant multiset(r) == multiset(s[..i])
    {
      assert s[..i + 1] == s[..i] + [s[i]];
      r := Insert(r, s[i]);
    }
    assert s[..|s|] == s;
  }

  /** The head of a sorted sequence is at most each of its elements. */
  lemma HeadIsLeast(s: seq<string>, x: string)
    requires Sorted(s) && x in multiset(s)
    ensures AtMost(s[0], x)
  {
    var i :| 0 <= i < |s| && s[i] == x;
    if i == 0 { CompareEqual(x, x); }
  }

  /** The tail of a sorted sequence is sorted. */
  lemma SortedTail(s: seq<string>)
    requires Sorted(s) && s != []
    ensures Sorted(s[1..])
  {
    forall i, j | 0 <= i < j < |s[1..]| ensures AtMost(s[1..][i], s[1..][j]) {
      assert s[1..][i] == s[i + 1] && s[1..][j] == s[j + 1];
    }
  }

  /** The multiset of a tail is that of the sequence less its head. */
  lemma MultisetTail(s: seq<string>)
    requires s != []
    ensures multiset(s[1..]) == multiset(s) - multiset{s[0]}
  {
    assert s == [s[0]] + s[1..];
  }

  /** A sorted sequence is determined by its multiset, so every correct sort
      of the same input gives the same sequence. */
  lemma {:induction false} SortedUnique(a: seq<string>, b: seq<string>)
    requires Sorted(a) && Sorted(b)
    requires multiset(a) == multiset(b)
    ensures a == b
    decreases |a|
  {
    if a != [] && b != [] {
      SortedHeads(a, b);
      MultisetTail(a);
      MultisetTail(b);
      SortedTail(a);
      SortedTail(b);
      SortedUnique(a[1..], b[1..]);
      assert a == [a[0]] + a[1..] && b == [b[0]] + b[1..];
    }
  }

  /** Two sorted sequences with the same elements start with the same one. */
  lemma SortedHeads(a: seq<string>, b: seq<string>)
    requires Sorted(a) && Sorted(b) && a != [] && b != []
    requires multiset(a) == multiset(b)
    ensures a[0] == b[0]
  {
    assert a[0] in multiset(b) && b[0] in multiset(a);
    HeadIsLeast(b, a[0]);
    HeadIsLeast(a, b[0]);
    AtMostFacts(a[0], b[0], a[0]);
  }

  /** `slice::binary_search` on a sorted vector, keeping only whether and where
      `x` was found (Rust's `Err` insertion point is not used by the caller). */
  method BinarySearch(s: seq<string>, x: string) returns (r: Option<nat>)
    requires Sorted(s)
    ensures r.Some? ==> r.value < |s| && s[r.value] == x
    ensures r.None? <==> x !in s
  {
    var lo, hi := 0, |s|;
    while lo < hi
      invariant 0 <= lo <= hi <= |s|
      invariant forall i :: 0 <= i < lo ==> Below(s[i], x)
      invariant forall i :: hi <= i < |s| ==> Below(x, s[i])
      decreases hi - lo
    {
      var mid := (lo + hi) / 2;
      var c := Compare(s[mid], x);
      if c == Ordering.Less {
        forall i | 0 <= i <= mid ensures Below(s[i], x) {
          if i < mid { AtMostFacts(s[i], s[mid], x); }
        }
        lo := mid + 1;
      } else if c == Ordering.Greater {
        CompareReverse(s[mid], x);
        forall i | mid <= i < |s| ensures Below(x, s[i]) {
          if mid < i { AtMostFacts(x, s[mid], s[i]); }
        }
        hi := mid;
      } else {
        CompareEqual(s[mid], x);
        return Some(mid);
      }
    }
    forall i | 0 <= i < |s| ensures s[i] != x {
      if i < lo { AtMostFacts(s[i], x, x); } else { AtMostFacts(x, s[i], x); }
    }
    return None;
  }

  /** `Vec::remove(idx)`: drops one element and keeps the order of the rest. */
  function Remove(s: seq<string>, idx: nat): (r: seq<string>)
    requires idx < |s|
    ensures multiset(r) == multiset(s) - multiset{s[idx]}
    ensures Sorted(s) ==> Sorted(r)
  {
    assert s == s[..idx] + [s[idx]] + s[idx + 1..];
    var r := s[..idx] + s[idx + 1..];
    assert forall i :: 0 <= i < |r| ==> r[i] == if i < idx then s[i] else s[i + 1];
    r
  }
}
