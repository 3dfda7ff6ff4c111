/** The abstract meaning of the sorted integer list: what its logical contents
    become under each operation, stated on plain sequences. The buffer-level
    implementation in module SortedIntList is proved to produce exactly these
    contents, and the lemmas here relate each operation to an independent
    description (sortedness plus the multiset of elements). */
module SortedSeq {

  /** Non-decreasing order; duplicates are allowed. */
  predicate Sorted(s: seq<int>) {
    forall i, j :: 0 <= i < j < |s| ==> s[i] <= s[j]
  }

  /** Where the insertion scan stops: the first index whose element is greater
      than x, or |s| when there is none. Elements equal to x stay in front. */
  function InsertionPoint(s: seq<int>, x: int): (p: nat)
    ensures p <= |s|
    ensures forall k :: 0 <= k < p ==> s[k] <= x
    ensures p < |s| ==> x < s[p]
  {
    if |s| == 0 || x < s[0] then 0 else 1 + InsertionPoint(s[1..], x)
  }

  /** The contents after adding x: x goes in at the insertion point and every
      later element moves one place to the right. */
  function Insert(s: seq<int>, x: int): seq<int> {
    var p := InsertionPoint(s, x);
    s[..p] + [x] + s[p..]
  }

  /** Adding x makes the contents one longer and adds exactly one x. */
  lemma InsertAddsOne(s: seq<int>, x: int)
    ensures |Insert(s, x)| == |s| + 1
    ensures multiset(Insert(s, x)) == multiset(s) + multiset{x}
  {
    var p := InsertionPoint(s, x);
    assert s == s[..p] + s[p..];
  }

  /** Adding x to sorted contents keeps them sorted. */
  lemma InsertKeepsSorted(s: seq<int>, x: int)
    requires Sorted(s)
    ensures Sorted(Insert(s, x))
  {
  }

  /** The index of the first element equal to x, or |s| when x does not occur. */
  function FirstIndex(s: seq<int>, x: int): (i: nat)
    ensures i <= |s|
    ensures forall k :: 0 <= k < i ==> s[k] != x
    ensures i < |s| ==> s[i] == x
    ensures i < |s| <==> x in s
  {
    if |s| == 0 || s[0] == x then 0 else 1 + FirstIndex(s[1..], x)
  }

  /** The contents after removing x: its first occurrence is deleted and the
      order of the rest is kept; without an occurrence nothing changes. */
  function RemoveFirst(s: seq<int>, x: int): seq<int> {
    var i := FirstIndex(s, x);
    if i < |s| then s[..i] + s[i + 1..] else s
  }

  /** Removing a present x makes the contents one shorter and takes out exactly
      one x; removing an absent x changes nothing. */
  lemma RemoveFirstTakesOne(s: seq<int>, x: int)
    ensures x in s ==> |RemoveFirst(s, x)| == |s| - 1
    ensures x !in s ==> RemoveFirst(s, x) == s
    ensures multiset(RemoveFirst(s, x)) == multiset(s) - multiset{x}
  {
    var i := FirstIndex(s, x);
    if i < |s| {
      assert s == s[..i] + [s[i]] + s[i + 1..];
    }
  }

  /** Removing from sorted contents keeps them sorted. */
  lemma RemoveFirstKeepsSorted(s: seq<int>, x: int)
    requires Sorted(s)
    ensures Sorted(RemoveFirst(s, x))
  {
  }

  /** Adding every element of xs, one after the other in index order. */
  function InsertEach(s: seq<int>, xs: seq<int>): seq<int>
    decreases |xs|
  {
    if |xs| == 0 then s else InsertEach(Insert(s, xs[0]), xs[1..])
  }

  /** Adding a list grows the contents by its length and by its multiset. */
  lemma {:induction false} InsertEachAddsAll(s: seq<int>, xs: seq<int>)
    ensures |InsertEach(s, xs)| == |s| + |xs|
    ensures multiset(InsertEach(s, xs)) == multiset(s) + multiset(xs)
    decreases |xs|
  {
    if |xs| > 0 {
      assert xs == [xs[0]] + xs[1..];
      InsertAddsOne(s, xs[0]);
      InsertEachAddsAll(Insert(s, xs[0]), xs[1..]);
    }
  }

  /** Adding a list to sorted contents keeps them sorted. */
  lemma {:induction false} InsertEachKeepsSorted(s: seq<int>, xs: seq<int>)
    requires Sorted(s)
    ensures Sorted(InsertEach(s, xs))
    decreases |xs|
  {
    if |xs| > 0 {
      InsertKeepsSorted(s, xs[0]);
      InsertEachKeepsSorted(Insert(s, xs[0]), xs[1..]);
    }
  }

  /** Removing one occurrence of every element of xs, one after the other in
      index order. The flag is true when at least one removal found its value. */
  function RemoveEach(s: seq<int>, xs: seq<int>): (seq<int>, bool)
    decreases |xs|
  {
    if |xs| == 0 then (s, false)
    else
      var rest := RemoveEach(RemoveFirst(s, xs[0]), xs[1..]);
      (rest.0, xs[0] in s || rest.1)
  }

  /** Removing a list leaves the multiset difference, so at most one
      occurrence goes per listed value; the flag is true exactly when the list
      and the contents share a value, and exactly when the contents shrank. */
  lemma {:induction false} RemoveEachTakesDifference(s: seq<int>, xs: seq<int>)
    ensures |RemoveEach(s, xs).0| <= |s|
    ensures multiset(RemoveEach(s, xs).0) == multiset(s) - multiset(xs)
    ensures RemoveEach(s, xs).1 <==> !(multiset(s) !! multiset(xs))
    ensures RemoveEach(s, xs).1 <==> |RemoveEach(s, xs).0| < |s|
    decreases |xs|
  {
    if |xs| > 0 {
      var x := xs[0];
      RemoveFirstTakesOne(s, x);
      RemoveEachTakesDifference(RemoveFirst(s, x), xs[1..]);
      assert xs == [x] + xs[1..];
      DifferenceOfSum(multiset(s), multiset{x}, multiset(xs[1..]));
      if x in s {
        assert x in multiset(s) && x in multiset(xs);
      } else {
        assert multiset(s) !! multiset{x};
      }
    }
  }

  /** Removing a list from sorted contents keeps them sorted. */
  lemma {:induction false} RemoveEachKeepsSorted(s: seq<int>, xs: seq<int>)
    requires Sorted(s)
    ensures Sorted(RemoveEach(s, xs).0)
    decreases |xs|
  {
    if |xs| > 0 {
      RemoveFirstKeepsSorted(s, xs[0]);
      RemoveEachKeepsSorted(RemoveFirst(s, xs[0]), xs[1..]);
    }
  }

  /** Taking b and then c out of a is taking b + c out of it. */
  lemma DifferenceOfSum(a: multiset<int>, b: multiset<int>, c: multiset<int>)
    ensures (a - b) - c == a - (b + c)
  {
  }

  /** Two sorted sequences holding the same elements are equal. */
  lemma {:induction false} SortedUnique(a: seq<int>, b: seq<int>)
    requires Sorted(a) && Sorted(b)
    requires multiset(a) == multiset(b)
    ensures a == b
    decreases |a|
  {
    if |a| == 0 {
      assert |b| == |multiset(b)| == 0;
    } else {
      SameHead(a, b);
      SortedUnique(a[1..], b[1..]);
      ConsEqual(a, b);
    }
  }

  /** Sorted sequences with equal multisets start alike, and their tails are
      again sorted with equal multisets. */
  lemma SameHead(a: seq<int>, b: seq<int>)
    requires Sorted(a) && Sorted(b)
    requires multiset(a) == multiset(b)
    requires 0 < |a|
    ensures 0 < |b| && a[0] == b[0]
    ensures Sorted(a[1..]) && Sorted(b[1..])
    ensures multiset(a[1..]) == multiset(b[1..])
  {
    assert |b| == |multiset(b)| == |multiset(a)| == |a|;
    assert b[0] in multiset(a) && a[0] in multiset(b);
    HeadIsLeast(a, b[0]);
    HeadIsLeast(b, a[0]);
    SortedTail(a);
    SortedTail(b);
  }

  /** Sequences with the same head and the same tail are equal. */
  lemma ConsEqual(a: seq<int>, b: seq<int>)
    requires 0 < |a| && 0 < |b| && a[0] == b[0] && a[1..] == b[1..]
    ensures a == b
  {
  }

  /** The first element of a sorted sequence is at most any of its values. */
  lemma HeadIsLeast(a: seq<int>, x: int)
    requires Sorted(a) && x in multiset(a)
    ensures a[0] <= x
  {
  }

  /** Dropping the head keeps a sequence sorted and takes the head out of its multiset. */
  lemma SortedTail(a: seq<int>)
    requires Sorted(a) && 0 < |a|
    ensures Sorted(a[1..])
    ensures multiset(a[1..]) == multiset(a) - multiset{a[0]}
  {
    assert a == [a[0]] + a[1..];
  }

  /** On sorted contents, Insert is the one sorted arrangement of the old
      elements plus x. */
  lemma InsertCharacterised(s: seq<int>, x: int, t: seq<int>)
    requires Sorted(s)
    ensures Insert(s, x) == t <==> Sorted(t) && multiset(t) == multiset(s) + multiset{x}
  {
    InsertAddsOne(s, x);
    InsertKeepsSorted(s, x);
    if Sorted(t) && multiset(t) == multiset(s) + multiset{x} {
      SortedUnique(Insert(s, x), t);
    }
  }

  /** On sorted contents, RemoveFirst is the one sorted arrangement of the old
      elements less one x (less nothing when x is absent). */
  lemma RemoveFirstCharacterised(s: seq<int>, x: int, t: seq<int>)
    requires Sorted(s)
    ensures RemoveFirst(s, x) == t <==> Sorted(t) && multiset(t) == multiset(s) - multiset{x}
  {
    RemoveFirstTakesOne(s, x);
    RemoveFirstKeepsSorted(s, x);
    if Sorted(t) && multiset(t) == multiset(s) - multiset{x} {
      SortedUnique(RemoveFirst(s, x), t);
    }
  }

  /** Adding a list element by element into sorted contents yields the sorted
      arrangement of both together, whatever the order of the list. */
  lemma InsertEachCharacterised(s: seq<int>, xs: seq<int>, t: seq<int>)
    requires Sorted(s)
    ensures InsertEach(s, xs) == t <==> Sorted(t) && multiset(t) == multiset(s) + multiset(xs)
  {
    InsertEachAddsAll(s, xs);
    InsertEachKeepsSorted(s, xs);
    if Sorted(t) && multiset(t) == multiset(s) + multiset(xs) {
      SortedUnique(InsertEach(s, xs), t);
    }
  }

  /** Removing a list element by element from sorted contents yields the sorted
      arrangement of the multiset difference. */
  lemma RemoveEachCharacterised(s: seq<int>, xs: seq<int>, t: seq<int>)
    requires Sorted(s)
    ensures RemoveEach(s, xs).0 == t <==> Sorted(t) && multiset(t) == multiset(s) - multiset(xs)
  {
    RemoveEachTakesDifference(s, xs);
    RemoveEachKeepsSorted(s, xs);
    if Sorted(t) && multiset(t) == multiset(s) - multiset(xs) {
      SortedUnique(RemoveEach(s, xs).0, t);
    }
  }

  /** Removing a value just added gives back the sorted contents. */
  lemma RemoveUndoesInsert(s: seq<int>, x: int)
    requires Sorted(s)
    ensures RemoveFirst(Insert(s, x), x) == s
  {
    // Dafny can find this proof alone, but spelling out the uniqueness
    // argument keeps it small.
    InsertCharacterised(s, x, Insert(s, x));
    InsertAddsOne(s, x);
    RemoveFirstCharacterised(Insert(s, x), x, RemoveFirst(Insert(s, x), x));
    assert multiset(s) + multiset{x} - multiset{x} == multiset(s);
    SortedUnique(RemoveFirst(Insert(s, x), x), s);
  }

  /** Adding back a value just removed gives back the sorted contents. */
  lemma InsertUndoesRemove(s: seq<int>, x: int)
    requires Sorted(s)
    requires x in s
    ensures Insert(RemoveFirst(s, x), x) == s
  {
    RemoveFirstTakesOne(s, x);
    RemoveFirstKeepsSorted(s, x);
    InsertAddsOne(RemoveFirst(s, x), x);
    InsertKeepsSorted(RemoveFirst(s, x), x);
    assert x in multiset(s);
    assert multiset(s) - multiset{x} + multiset{x} == multiset(s);
    SortedUnique(Insert(RemoveFirst(s, x), x), s);
  }

  /** Adding 5, 3, 8 and 1 in that order to empty contents gives [1, 3, 5, 8]. */
  lemma InsertFiveThreeEightOne()
    ensures Insert(Insert(Insert(Insert([], 5), 3), 8), 1) == [1, 3, 5, 8]
  {
    // Each step names one intermediate result, which keeps the unfolding small.
    assert InsertionPoint([], 5) == 0;
    assert Insert([], 5) == [5];
    assert InsertionPoint([5], 3) == 0;
    assert Insert([5], 3) == [3, 5];
    assert InsertionPoint([3, 5], 8) == 2;
    assert Insert([3, 5], 8) == [3, 5, 8];
    assert InsertionPoint([3, 5, 8], 1) == 0;
  }
}
