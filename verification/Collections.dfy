/** Sequences that leave out, keep or reorder the elements of others, and sizes of sets. */
module Collections {
  /** `part` is `whole` with some elements left out. */
  predicate IsSubsequence<T(==)>(part: seq<T>, whole: seq<T>) {
    part == [] ||
    (whole != []
     && (IsSubsequence(part, whole[..|whole| - 1])
         || (part[|part| - 1] == whole[|whole| - 1]
             && IsSubsequence(part[..|part| - 1], whole[..|whole| - 1]))))
  }

  ghost predicate Increasing(s: seq<nat>) {
    forall i, j :: 0 <= i < j < |s| ==> s[i] < s[j]
  }

  ghost predicate Distinct<T>(s: seq<T>) {
    forall i, j :: 0 <= i < j < |s| ==> s[i] != s[j]
  }

  ghost predicate Contained<T>(part: seq<T>, whole: seq<T>) {
    forall x :: x in part ==> x in whole
  }

  /** The elements of `whole` that are also in `part` come in increasing order. */
  ghost predicate KeepsOrder(part: seq<nat>, whole: seq<nat>) {
    forall i, j :: 0 <= i < j < |whole| && whole[i] in part && whole[j] in part ==> whole[i] < whole[j]
  }

  /** A larger number at the end keeps the order. */
  lemma {:induction false} IncreasingSnoc(s: seq<nat>, n: nat)
    requires Increasing(s) && forall x :: x in s ==> x < n
    ensures Increasing(s + [n]) && forall x :: x in s + [n] <==> x in s || x == n
  {
    assert forall i :: 0 <= i < |s| ==> s[i] in s;
  }

  lemma {:induction false} SubsequenceIsContained<T>(part: seq<T>, whole: seq<T>)
    requires IsSubsequence(part, whole)
    ensures Contained(part, whole)
    decreases |whole|
  {
    if part != [] {
      var init := whole[..|whole| - 1];
      if IsSubsequence(part, init) {
        SubsequenceIsContained(part, init);
      } else {
        SubsequenceIsContained(part[..|part| - 1], init);
        assert forall x :: x in part ==> x in part[..|part| - 1] || x == part[|part| - 1];
      }
    }
  }

  /** Numbers in order are a subsequence exactly when they are all there, in that order. */
  lemma {:induction false} SubsequenceWhen(part: seq<nat>, whole: seq<nat>)
    requires Increasing(part) && Distinct(whole)
    ensures IsSubsequence(part, whole) <==> Contained(part, whole) && KeepsOrder(part, whole)
  {
    if IsSubsequence(part, whole) {
      SubsequenceIsContained(part, whole);
      SubsequenceKeepsOrder(part, whole);
    }
    if Contained(part, whole) && KeepsOrder(part, whole) {
      OrderedIsSubsequence(part, whole);
    }
  }

  lemma {:induction false} SubsequenceKeepsOrder(part: seq<nat>, whole: seq<nat>)
    requires Increasing(part) && Distinct(whole) && IsSubsequence(part, whole)
    ensures KeepsOrder(part, whole)
    decreases |whole|
  {
    if part != [] {
      var n := |whole| - 1;
      var init, last := whole[..n], whole[n];
      assert last !in init;
      if IsSubsequence(part, init) {
        SubsequenceIsContained(part, init);
        SubsequenceKeepsOrder(part, init);
        assert last !in part;
      } else {
        var less := part[..|part| - 1];
        SubsequenceKeepsOrder(less, init);
        assert forall x :: x in part ==> x in less || x == last;
        assert forall x :: x in less ==> x < last;
      }
      assert forall i :: 0 <= i < n ==> whole[i] == init[i] && whole[i] in init;
    }
  }

  lemma {:induction false} OrderedIsSubsequence(part: seq<nat>, whole: seq<nat>)
    requires Increasing(part) && Distinct(whole) && Contained(part, whole) && KeepsOrder(part, whole)
    ensures IsSubsequence(part, whole)
    decreases |whole|
  {
    if part != [] {
      assert part[0] in whole;
      var n := |whole| - 1;
      var init, last := whole[..n], whole[n];
      assert forall x :: x in whole ==> x in init || x == last;
      if last in part {
        LastIsLargest(part, whole);
        var less := part[..|part| - 1];
        assert forall x :: x in less ==> x in part && x != last;
        OrderedIsSubsequence(less, init);
      } else {
        OrderedIsSubsequence(part, init);
      }
    }
  }

  lemma {:induction false} LastIsLargest(part: seq<nat>, whole: seq<nat>)
    requires Increasing(part) && Contained(part, whole) && KeepsOrder(part, whole)
    requires whole != [] && whole[|whole| - 1] in part
    ensures part[|part| - 1] == whole[|whole| - 1]
  {
    var last, top := whole[|whole| - 1], part[|part| - 1];
    assert top in part;
    var i :| 0 <= i < |whole| && whole[i] == top;
    var k :| 0 <= k < |part| && part[k] == last;
    assert i < |whole| - 1 ==> top < last;
    assert k < |part| - 1 ==> last < top;
  }

  /** Two increasing sequences with the same elements are the same. */
  lemma {:induction false} IncreasingIsUnique(a: seq<nat>, b: seq<nat>)
    requires Increasing(a) && Increasing(b) && Contained(a, b) && Contained(b, a)
    ensures a == b
    decreases |a|
  {
    assert a != [] ==> a[0] in a;
    assert b != [] ==> b[0] in b;
    if a != [] && b != [] {
      LastBelow(a, b);
      LastBelow(b, a);
      InitsContained(a, b);
      InitsContained(b, a);
      IncreasingIsUnique(a[..|a| - 1], b[..|b| - 1]);
      assert a == a[..|a| - 1] + [a[|a| - 1]] && b == b[..|b| - 1] + [b[|b| - 1]];
    }
  }

  lemma {:induction false} LastBelow(a: seq<nat>, b: seq<nat>)
    requires a != [] && b != [] && Increasing(b) && Contained(a, b)
    ensures a[|a| - 1] <= b[|b| - 1]
  {
    assert a[|a| - 1] in a;
    var k :| 0 <= k < |b| && b[k] == a[|a| - 1];
    assert k < |b| - 1 ==> b[k] < b[|b| - 1];
  }

  lemma {:induction false} InitsContained(a: seq<nat>, b: seq<nat>)
    requires a != [] && b != [] && Increasing(a) && Contained(a, b) && a[|a| - 1] == b[|b| - 1]
    ensures Contained(a[..|a| - 1], b[..|b| - 1])
  {
    var initA, initB := a[..|a| - 1], b[..|b| - 1];
    forall x | x in initA ensures x in initB {
      var i :| 0 <= i < |initA| && initA[i] == x;
      assert x == a[i] && x in a;
      var k :| 0 <= k < |b| && b[k] == x;
      assert x < a[|a| - 1];
      assert initB[k] == x;
    }
  }

  lemma {:induction false} DistinctSize<T>(s: seq<T>)
    requires Distinct(s)
    ensures |set x | x in s| == |s|
    decreases |s|
  {
    if s != [] {
      var init, last := s[..|s| - 1], s[|s| - 1];
      DistinctSize(init);
      assert (set x | x in s) == (set x | x in init) + {last};
    }
  }

  /** Distinct elements, all of them from as many others: they are all the others. */
  lemma {:induction false} SameSizeSameElements<T>(part: seq<T>, whole: seq<T>)
    requires Distinct(part) && Distinct(whole) && Contained(part, whole)
    ensures |part| <= |whole|
    ensures |part| == |whole| <==> Contained(whole, part)
  {
    DistinctSize(part);
    DistinctSize(whole);
    var p, w := set x | x in part, set x | x in whole;
    SubsetSize(p, w);
    if |part| == |whole| {
      assert forall x :: x in whole ==> x in w;
    }
    if Contained(whole, part) {
      assert p == w;
    }
  }

  lemma {:induction false} SubsetSize<T>(part: set<T>, whole: set<T>)
    requires part <= whole
    ensures |part| <= |whole|
    ensures |part| == |whole| ==> part == whole
    ensures |part| == 0 <==> part == {}
  {
    assert whole == part + (whole - part);
    if |part| == |whole| {
      assert whole - part == {};
    }
  }
}
