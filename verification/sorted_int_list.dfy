/** The sorted integer list as the Java class `SortedIntList` stores it: an int buffer whose
    first `size` slots hold the elements in ascending order. Each Java method
    that changes the list becomes a method taking the old state and returning
    the new one, with every array write modelled as a sequence update, so the
    scan and shift loops are the same loops. */
module SortedIntList {
  import opened SortedSeq

  /** Length of the buffer a new list starts with. */
  const DEFAULT_CAPACITY: nat := 10

  /** The `elements` buffer (its length is the capacity) and the logical `size`. */
  datatype List = List(elements: seq<int>, size: nat)

  /** The buffer shape every operation relies on: a non-empty buffer, so that
      doubling makes room, and a size that fits in it. */
  predicate WellFormed(l: List) {
    0 < |l.elements| && l.size <= |l.elements|
  }

  /** The logical contents: the slots [0, size) of the buffer. */
  function Contents(l: List): seq<int>
    requires l.size <= |l.elements|
  {
    l.elements[..l.size]
  }

  /** The class invariant: well formed, with the logical contents in order. */
  predicate Valid(l: List) {
    WellFormed(l) && Sorted(Contents(l))
  }

  /** A new list: a zeroed buffer of the default capacity and no elements. */
  function Empty(): (l: List)
    ensures Valid(l)
    ensures Contents(l) == []
    ensures |l.elements| == DEFAULT_CAPACITY
  {
    List(seq(DEFAULT_CAPACITY, _ => 0), 0)
  }

  /** Replaces the buffer by a zeroed one twice as long and copies the slots
      [0, size) into it. */
  method ExpandCapacity(l: List) returns (l': List)
    requires WellFormed(l)
    ensures WellFormed(l')
    ensures |l'.elements| == 2 * |l.elements|
    ensures l'.size == l.size
    ensures Contents(l') == Contents(l)
    ensures forall k :: l.size <= k < |l'.elements| ==> l'.elements[k] == 0
  {
    var newElements := seq(2 * |l.elements|, _ => 0);
    var i := 0;
    while i < l.size
      invariant 0 <= i <= l.size
      invariant |newElements| == 2 * |l.elements|
      invariant newElements[..i] == l.elements[..i]
      invariant forall k :: i <= k < |newElements| ==> newElements[k] == 0
    {
      newElements := newElements[i := l.elements[i]];
      i := i + 1;
    }
    l' := List(newElements, l.size);
  }

  /** Adds num at its place in the order, growing the buffer first when it is
      full. Always answers true. */
  method Add(l: List, num: int) returns (l': List, r: bool)
    requires WellFormed(l)
    ensures WellFormed(l')
    ensures r
    ensures l'.size == l.size + 1
    ensures |l'.elements| == if l.size == |l.elements| then 2 * |l.elements| else |l.elements|
    ensures var p := InsertionPoint(Contents(l), num);
      && Contents(l')[..p] == Contents(l)[..p]
      && Contents(l')[p] == num
      && Contents(l')[p + 1..] == Contents(l)[p..]
    ensures Contents(l') == Insert(Contents(l), num)
    ensures Valid(l) ==> Valid(l')
  {
    var cur := l;
    if cur.size == |cur.elements| {
      cur := ExpandCapacity(cur);
    }
    l' := InsertIntoRoom(cur, num);
    r := true;
    if Valid(l) {
      InsertKeepsSorted(Contents(l), num);
    }
  }

  /** The part of `add` after any growth: scans for the insertion point, shifts
      the tail right by one slot and writes num into the gap. */
  method InsertIntoRoom(l: List, num: int) returns (l': List)
    requires l.size < |l.elements|
    ensures WellFormed(l')
    ensures l'.size == l.size + 1
    ensures |l'.elements| == |l.elements|
    ensures var p := InsertionPoint(Contents(l), num);
      && Contents(l')[..p] == Contents(l)[..p]
      && Contents(l')[p] == num
      && Contents(l')[p + 1..] == Contents(l)[p..]
    ensures Contents(l') == Insert(Contents(l), num)
  {
    var insertionPoint := 0;
    while insertionPoint < l.size && l.elements[insertionPoint] <= num
      invariant 0 <= insertionPoint <= l.size
      invariant forall k :: 0 <= k < insertionPoint ==> l.elements[k] <= num
    {
      insertionPoint := insertionPoint + 1;
    }
    assert insertionPoint == InsertionPoint(Contents(l), num);

    var shifted := ShiftRight(l.elements, insertionPoint, l.size);
    l' := List(shifted[insertionPoint := num], l.size + 1);
    WrittenIntoGap(l.elements, shifted, l.size, insertionPoint, num);
    SplicedIsInsert(Contents(l), Contents(l'), insertionPoint, num);
  }

  /** Writing x into the gap that ShiftRight opened at p splices x into the
      first size slots of the old buffer. */
  lemma WrittenIntoGap(buf: seq<int>, shifted: seq<int>, size: nat, p: nat, x: int)
    requires p <= size < |buf| == |shifted|
    requires shifted[..p + 1] == buf[..p + 1]
    requires shifted[p + 1..size + 1] == buf[p..size]
    ensures var t := shifted[p := x][..size + 1];
      && t[..p] == buf[..size][..p]
      && t[p] == x
      && t[p + 1..] == buf[..size][p..]
  {
    var t := shifted[p := x][..size + 1];
    assert t[..p] == shifted[..p] == buf[..p];
    assert t[p + 1..] == shifted[p + 1..size + 1];
  }

  /** The shift loop of `add`: moves the slots [from, size) one place to the
      right, working from the end, so slot `from` is free to overwrite. */
  method ShiftRight(elements: seq<int>, from: nat, size: nat) returns (e: seq<int>)
    requires from <= size < |elements|
    ensures |e| == |elements|
    ensures e[..from + 1] == elements[..from + 1]
    ensures e[from + 1..size + 1] == elements[from..size]
    ensures e[size + 1..] == elements[size + 1..]
  {
    e := elements;
    var i := size;
    while i > from
      invariant from <= i <= size
      invariant |e| == |elements|
      invariant forall k :: 0 <= k <= i ==> e[k] == elements[k]
      invariant forall k :: i < k <= size ==> e[k] == elements[k - 1]
      invariant forall k :: size < k < |e| ==> e[k] == elements[k]
    {
      e := e[i := e[i - 1]];
      i := i - 1;
    }
    assert forall k :: 0 <= k < size - from ==> e[from + 1..size + 1][k] == elements[from..size][k];
  }

  /** A sequence that agrees with s before the insertion point, holds x there
      and continues with the rest of s is Insert(s, x). */
  lemma SplicedIsInsert(s: seq<int>, t: seq<int>, p: nat, x: int)
    requires p == InsertionPoint(s, x)
    requires |t| == |s| + 1
    requires t[..p] == s[..p] && t[p] == x && t[p + 1..] == s[p..]
    ensures t == Insert(s, x)
  {
  }

  /** What `get` answers: the element, or the out-of-range failure carrying the
      offending index and the size. */
  datatype GetResult = Element(value: int) | IndexOutOfBounds(index: int, size: nat)

  /** The element at index, failing exactly when index is outside [0, size). */
  function Get(l: List, index: int): (r: GetResult)
    requires WellFormed(l)
    ensures r.IndexOutOfBounds? <==> index < 0 || |Contents(l)| <= index
    ensures r.IndexOutOfBounds? ==> r.index == index && r.size == |Contents(l)|
    ensures r.Element? ==> r.value == Contents(l)[index]
  {
    if index < 0 || index >= l.size then IndexOutOfBounds(index, l.size)
    else Element(l.elements[index])
  }

  /** Deletes the first element equal to num by shifting the rest left; the
      slot freed at the end keeps its old value. Answers whether num occurred. */
  method Remove(l: List, num: int) returns (l': List, r: bool)
    requires WellFormed(l)
    ensures WellFormed(l')
    ensures r <==> num in Contents(l)
    ensures l'.size == if r then l.size - 1 else l.size
    ensures |l'.elements| == |l.elements|
    ensures Contents(l') == RemoveFirst(Contents(l), num)
    ensures !r ==> l' == l
    ensures Valid(l) ==> Valid(l')
  {
    var i := 0;
    while i < l.size
      invariant 0 <= i <= l.size
      invariant forall k :: 0 <= k < i ==> l.elements[k] != num
    {
      if l.elements[i] == num {
        assert i == FirstIndex(Contents(l), num);
        l' := DeleteAt(l, i);
        if Valid(l) {
          RemoveFirstKeepsSorted(Contents(l), num);
        }
        return l', true;
      }
      i := i + 1;
    }
    assert num !in Contents(l);
    return l, false;
  }

  /** The part of `remove` after a match at slot i: shifts the slots after it
      left by one and shrinks the size. */
  method DeleteAt(l: List, i: nat) returns (l': List)
    requires i < l.size <= |l.elements|
    ensures l'.size == l.size - 1
    ensures |l'.elements| == |l.elements|
    ensures Contents(l') == Contents(l)[..i] + Contents(l)[i + 1..]
  {
    var shifted := ShiftLeft(l.elements, i, l.size);
    l' := List(shifted, l.size - 1);
    ClosedGap(l.elements, shifted, l.size, i);
  }

  /** After ShiftLeft from slot i, the first size - 1 slots are the first size
      slots of the old buffer without slot i. */
  lemma ClosedGap(buf: seq<int>, shifted: seq<int>, size: nat, i: nat)
    requires i < size <= |buf| == |shifted|
    requires shifted[..i] == buf[..i]
    requires shifted[i..size - 1] == buf[i + 1..size]
    ensures shifted[..size - 1] == buf[..size][..i] + buf[..size][i + 1..]
  {
  }

  /** The shift loop of `remove`: moves the slots (from, size) one place to the
      left, overwriting slot `from`; slot size - 1 keeps its value. */
  method ShiftLeft(elements: seq<int>, from: nat, size: nat) returns (e: seq<int>)
    requires from < size <= |elements|
    ensures |e| == |elements|
    ensures e[..from] == elements[..from]
    ensures e[from..size - 1] == elements[from + 1..size]
    ensures e[size - 1..] == elements[size - 1..]
  {
    e := elements;
    var j := from;
    while j < size - 1
      invariant from <= j <= size - 1
      invariant |e| == |elements|
      invariant forall k :: 0 <= k < from ==> e[k] == elements[k]
      invariant forall k :: from <= k < j ==> e[k] == elements[k + 1]
      invariant forall k :: j <= k < |e| ==> e[k] == elements[k]
    {
      e := e[j := e[j + 1]];
      j := j + 1;
    }
  }

  /** Calls Remove once for each value of list, in index order, and answers
      whether any of those calls answered true. */
  method RemoveAll(l: List, list: seq<int>) returns (l': List, r: bool)
    requires WellFormed(l)
    ensures WellFormed(l')
    ensures (Contents(l'), r) == RemoveEach(Contents(l), list)
    ensures l'.size <= l.size
    ensures |l'.elements| == |l.elements|
    ensures Valid(l) ==> Valid(l')
  {
    l' := l;
    var modified := false;
    var i := 0;
    while i < |list|
      invariant 0 <= i <= |list|
      invariant WellFormed(l')
      invariant |l'.elements| == |l.elements|
      invariant var rest := RemoveEach(Contents(l'), list[i..]);
        (rest.0, modified || rest.1) == RemoveEach(Contents(l), list)
    {
      assert list[i..][1..] == list[i + 1..];
      var removed;
      l', removed := Remove(l', list[i]);
      if removed {
        modified := true;
      }
      i := i + 1;
    }
    r := modified;
    RemoveEachTakesDifference(Contents(l), list);
    if Valid(l) {
      RemoveEachKeepsSorted(Contents(l), list);
    }
  }

  /** The inherited `addAll`: calls Add once for each value of list, in index
      order, and answers whether any of those calls answered true. */
  method AddAll(l: List, list: seq<int>) returns (l': List, r: bool)
    requires WellFormed(l)
    ensures WellFormed(l')
    ensures r <==> 0 < |list|
    ensures l'.size == l.size + |list|
    ensures |l.elements| <= |l'.elements|
    ensures Contents(l') == InsertEach(Contents(l), list)
    ensures Valid(l) ==> Valid(l')
  {
    l' := l;
    var modified := false;
    var i := 0;
    while i < |list|
      invariant 0 <= i <= |list|
      invariant WellFormed(l')
      invariant |l.elements| <= |l'.elements|
      invariant modified <==> 0 < i
      invariant l'.size == l.size + i
      invariant InsertEach(Contents(l'), list[i..]) == InsertEach(Contents(l), list)
    {
      assert list[i..][1..] == list[i + 1..];
      var added;
      l', added := Add(l', list[i]);
      if added {
        modified := true;
      }
      i := i + 1;
    }
    r := modified;
    if Valid(l) {
      InsertEachKeepsSorted(Contents(l), list);
    }
  }

  /** The logical element count. */
  function Size(l: List): (n: nat)
    requires WellFormed(l)
    ensures n == |Contents(l)|
    ensures n <= |l.elements|
  {
    l.size
  }

  /** Adding 5, 3, 8 and 1 to a new list stores them as [1, 3, 5, 8], and
      `get(2)` then answers 5. */
  method AddFiveThreeEightOne() returns (l: List, got: GetResult)
    ensures Valid(l)
    ensures Contents(l) == [1, 3, 5, 8]
    ensures got == Element(5)
  {
    l := Empty();
    var added;
    l, added := Add(l, 5);
    l, added := Add(l, 3);
    l, added := Add(l, 8);
    l, added := Add(l, 1);
    InsertFiveThreeEightOne();
    got := Get(l, 2);
  }

  /** Removing 9 from a new list answers false and leaves it empty. */
  method RemoveFromNew() returns (l: List, r: bool)
    ensures !r
    ensures Valid(l) && Size(l) == 0
  {
    l, r := Remove(Empty(), 9);
  }
}
