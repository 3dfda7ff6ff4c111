/** The counting decorator: it owns a plain sorted list, forwards every call to
    it, and counts every int handed to `add` or `addAll`. Removals never lower
    the count, so it bounds the delegate's size from above. */
module DelegationSortedIntList {
  import opened SortedSeq
  import SortedIntList
  import CallHistory

  /** The owned delegate and the `totalAdded` counter. */
  datatype Counting = Counting(delegate: SortedIntList.List, totalAdded: nat)

  /** The decorator's invariant: a valid delegate that holds no more elements
      than the number of ints ever handed over. */
  predicate Valid(c: Counting) {
    SortedIntList.Valid(c.delegate) && c.delegate.size <= c.totalAdded
  }

  /** The logical contents, which are the delegate's. */
  function Contents(c: Counting): seq<int>
    requires SortedIntList.WellFormed(c.delegate)
  {
    SortedIntList.Contents(c.delegate)
  }

  /** A new decorator: an empty delegate and a zero count. */
  function New(): (c: Counting)
    ensures Valid(c)
    ensures c.totalAdded == 0
    ensures Contents(c) == []
    ensures c.delegate == SortedIntList.Empty()
  {
    Counting(SortedIntList.Empty(), 0)
  }

  /** The count of ints handed to the insert family, never below the size. */
  function GetTotalAdded(c: Counting): (n: nat)
    requires Valid(c)
    ensures n == c.totalAdded
    ensures |Contents(c)| <= n
  {
    c.totalAdded
  }

  /** Counts one insertion, then forwards to the delegate's add. */
  method Add(c: Counting, num: int) returns (c': Counting, r: bool)
    requires Valid(c)
    ensures Valid(c')
    ensures c'.totalAdded == c.totalAdded + 1
    ensures r
    ensures Contents(c') == Insert(Contents(c), num)
  {
    var delegate, added := SortedIntList.Add(c.delegate, num);
    c' := Counting(delegate, c.totalAdded + 1);
    r := added;
  }

  /** Counts |list| insertions up front, then forwards to the delegate's addAll. */
  method AddAll(c: Counting, list: seq<int>) returns (c': Counting, r: bool)
    requires Valid(c)
    ensures Valid(c')
    ensures c'.totalAdded == c.totalAdded + |list|
    ensures r <==> 0 < |list|
    ensures Contents(c') == InsertEach(Contents(c), list)
  {
    var counted := c.totalAdded + |list|;
    var delegate, added := SortedIntList.AddAll(c.delegate, list);
    c' := Counting(delegate, counted);
    r := added;
  }

  /** Forwards to the delegate's get, failure included. */
  function Get(c: Counting, index: int): (r: SortedIntList.GetResult)
    requires Valid(c)
    ensures r == SortedIntList.Get(c.delegate, index)
    ensures r.IndexOutOfBounds? <==> index < 0 || |Contents(c)| <= index
  {
    SortedIntList.Get(c.delegate, index)
  }

  /** Forwards to the delegate's remove; the count stays. */
  method Remove(c: Counting, num: int) returns (c': Counting, r: bool)
    requires Valid(c)
    ensures Valid(c')
    ensures c'.totalAdded == c.totalAdded
    ensures r <==> num in Contents(c)
    ensures Contents(c') == RemoveFirst(Contents(c), num)
  {
    var delegate, removed := SortedIntList.Remove(c.delegate, num);
    c' := Counting(delegate, c.totalAdded);
    r := removed;
  }

  /** Forwards to the delegate's removeAll; the count stays. */
  method RemoveAll(c: Counting, list: seq<int>) returns (c': Counting, r: bool)
    requires Valid(c)
    ensures Valid(c')
    ensures c'.totalAdded == c.totalAdded
    ensures (Contents(c'), r) == RemoveEach(Contents(c), list)
  {
    var delegate, removed := SortedIntList.RemoveAll(c.delegate, list);
    c' := Counting(delegate, c.totalAdded);
    r := removed;
  }

  /** Forwards to the delegate's size. */
  function Size(c: Counting): (n: nat)
    requires Valid(c)
    ensures n == SortedIntList.Size(c.delegate)
    ensures n <= c.totalAdded
  {
    SortedIntList.Size(c.delegate)
  }

  /** One call on the decorator, with the answer it gives. */
  method Perform(c: Counting, call: CallHistory.Call) returns (c': Counting, a: CallHistory.Answer)
    requires Valid(c)
    ensures Valid(c')
    ensures c'.totalAdded == c.totalAdded + |CallHistory.Passed(call)|
    ensures Contents(c') == CallHistory.Apply(Contents(c), call)
    ensures a == CallHistory.AnswerOf(Contents(c), call)
  {
    c' := c;
    match call {
      case Add(num) =>
        var b;
        c', b := Add(c, num);
        a := CallHistory.Flag(b);
      case AddAll(list) =>
        var b;
        c', b := AddAll(c, list);
        a := CallHistory.Flag(b);
      case Get(index) =>
        a := CallHistory.Got(Get(c, index));
      case Remove(num) =>
        var b;
        c', b := Remove(c, num);
        a := CallHistory.Flag(b);
      case RemoveAll(list) =>
        var b;
        c', b := RemoveAll(c, list);
        a := CallHistory.Flag(b);
      case Size =>
        a := CallHistory.Count(Size(c));
    }
  }

  /** Runs a history on a new decorator. The count is the number of ints the
      history handed to add and addAll, and the delegate ends with the contents
      and gives the answers that a plain list gives to the same history. */
  method Replay(calls: seq<CallHistory.Call>) returns (c: Counting, answers: seq<CallHistory.Answer>)
    ensures Valid(c)
    ensures c.totalAdded == |CallHistory.InsertedValues(calls)|
    ensures Contents(c) == CallHistory.Run([], calls)
    ensures answers == CallHistory.Answers([], calls)
  {
    c, answers := ReplayFrom(New(), calls);
  }

  /** Runs a history on the decorator c. */
  method ReplayFrom(c: Counting, calls: seq<CallHistory.Call>)
    returns (c': Counting, answers: seq<CallHistory.Answer>)
    requires Valid(c)
    ensures Valid(c')
    ensures c'.totalAdded == c.totalAdded + |CallHistory.InsertedValues(calls)|
    ensures Contents(c') == CallHistory.Run(Contents(c), calls)
    ensures answers == CallHistory.Answers(Contents(c), calls)
    decreases |calls|
  {
    if |calls| == 0 {
      return c, [];
    }
    var next, a := Perform(c, calls[0]);
    var rest;
    c', rest := ReplayFrom(next, calls[1..]);
    answers := [a] + rest;
  }

  /** Runs one history on a new decorator and on a new plain list: the two
      end with the same contents and give the same answers, and the count is
      at least the size. That bound holds twice over: by the decorator's
      invariant, and by the plain list's bound from CallHistory.RunBounded. */
  method ReplayBoth(calls: seq<CallHistory.Call>)
    returns (c: Counting, l: SortedIntList.List,
             countingAnswers: seq<CallHistory.Answer>, plainAnswers: seq<CallHistory.Answer>)
    ensures Valid(c) && SortedIntList.Valid(l)
    ensures Contents(c) == SortedIntList.Contents(l)
    ensures countingAnswers == plainAnswers
    ensures c.totalAdded == |CallHistory.InsertedValues(calls)|
    ensures SortedIntList.Size(l) <= c.totalAdded
  {
    c, countingAnswers := Replay(calls);
    l, plainAnswers := CallHistory.ReplayPlain(calls);
  }

  /** `addAll([2, 2, 2])` on a new decorator counts three ints and leaves three
      equal elements. */
  method AddAllTwos() returns (c: Counting)
    ensures Valid(c)
    ensures GetTotalAdded(c) == 3
    ensures Size(c) == 3
    ensures Contents(c) == [2, 2, 2]
  {
    var added;
    c, added := AddAll(New(), [2, 2, 2]);
    assert InsertEach([], [2, 2, 2]) == [2, 2, 2];
  }
}
