/** A history of calls on the integer list interface and what the plain sorted
    list does with it: the contents it ends with, the answer it gives to each
    call, and every int handed to the insert family along the way. The counting
    decorator is measured against these definitions. */
module CallHistory {
  import opened SortedSeq
  import SortedIntList

  /** One call on the list interface. */
  datatype Call =
    | Add(num: int)
    | AddAll(list: seq<int>)
    | Get(index: int)
    | Remove(num: int)
    | RemoveAll(list: seq<int>)
    | Size

  /** The answer of one call: the boolean of the changing calls, the outcome of
      `get`, or the count of `size`. */
  datatype Answer = Flag(b: bool) | Got(g: SortedIntList.GetResult) | Count(n: nat)

  /** The ints a call hands to the insert family. */
  function Passed(c: Call): seq<int> {
    match c
    case Add(num) => [num]
    case AddAll(list) => list
    case _ => []
  }

  /** Every int handed to the insert family over a history, in call order. */
  function InsertedValues(calls: seq<Call>): seq<int> {
    if |calls| == 0 then [] else Passed(calls[0]) + InsertedValues(calls[1..])
  }

  /** The contents after one call, from contents s. */
  function Apply(s: seq<int>, c: Call): seq<int> {
    match c
    case Add(num) => Insert(s, num)
    case AddAll(list) => InsertEach(s, list)
    case Remove(num) => RemoveFirst(s, num)
    case RemoveAll(list) => RemoveEach(s, list).0
    case _ => s
  }

  /** The answer to one call made on contents s. */
  function AnswerOf(s: seq<int>, c: Call): Answer {
    match c
    case Add(_) => Flag(true)
    case AddAll(list) => Flag(0 < |list|)
    case Get(index) =>
      if index < 0 || |s| <= index then Got(SortedIntList.IndexOutOfBounds(index, |s|))
      else Got(SortedIntList.Element(s[index]))
    case Remove(num) => Flag(num in s)
    case RemoveAll(list) => Flag(RemoveEach(s, list).1)
    case Size => Count(|s|)
  }

  /** The contents after a whole history, from contents s. */
  function Run(s: seq<int>, calls: seq<Call>): seq<int>
    decreases |calls|
  {
    if |calls| == 0 then s else Run(Apply(s, calls[0]), calls[1..])
  }

  /** Every call keeps the contents sorted, and every element present after a
      history was present before it or was handed to the insert family; so
      the size never exceeds the old size plus the number of ints handed over. */
  lemma {:induction false} RunBounded(s: seq<int>, calls: seq<Call>)
    ensures Sorted(s) ==> Sorted(Run(s, calls))
    ensures multiset(Run(s, calls)) <= multiset(s) + multiset(InsertedValues(calls))
    ensures |Run(s, calls)| <= |s| + |InsertedValues(calls)|
    decreases |calls|
  {
    if |calls| > 0 {
      var next := Apply(s, calls[0]);
      ApplyBounded(s, calls[0]);
      RunBounded(next, calls[1..]);
    }
  }

  /** One call keeps the contents sorted and brings in no element other than
      the ints it hands to the insert family. */
  lemma ApplyBounded(s: seq<int>, c: Call)
    ensures Sorted(s) ==> Sorted(Apply(s, c))
    ensures multiset(Apply(s, c)) <= multiset(s) + multiset(Passed(c))
    ensures |Apply(s, c)| <= |s| + |Passed(c)|
  {
    match c {
      case Add(num) =>
        InsertAddsOne(s, num);
        if Sorted(s) { InsertKeepsSorted(s, num); }
      case AddAll(list) =>
        InsertEachAddsAll(s, list);
        if Sorted(s) { InsertEachKeepsSorted(s, list); }
      case Remove(num) =>
        RemoveFirstTakesOne(s, num);
        if Sorted(s) { RemoveFirstKeepsSorted(s, num); }
        assert multiset(s) - multiset{num} <= multiset(s);
        assert |RemoveFirst(s, num)| <= |s|;
      case RemoveAll(list) =>
        RemoveEachTakesDifference(s, list);
        if Sorted(s) { RemoveEachKeepsSorted(s, list); }
        assert multiset(s) - multiset(list) <= multiset(s);
      case _ =>
    }
  }

  /** The answers to a whole history, in call order, from contents s. */
  function Answers(s: seq<int>, calls: seq<Call>): (r: seq<Answer>)
    ensures |r| == |calls|
    decreases |calls|
  {
    if |calls| == 0 then []
    else [AnswerOf(s, calls[0])] + Answers(Apply(s, calls[0]), calls[1..])
  }

  /** The answer the plain list gives to one call. */
  method Perform(l: SortedIntList.List, c: Call) returns (l': SortedIntList.List, a: Answer)
    requires SortedIntList.Valid(l)
    ensures SortedIntList.Valid(l')
    ensures SortedIntList.Contents(l') == Apply(SortedIntList.Contents(l), c)
    ensures a == AnswerOf(SortedIntList.Contents(l), c)
  {
    l' := l;
    match c {
      case Add(num) =>
        var b;
        l', b := SortedIntList.Add(l, num);
        a := Flag(b);
      case AddAll(list) =>
        var b;
        l', b := SortedIntList.AddAll(l, list);
        a := Flag(b);
      case Get(index) =>
        a := Got(SortedIntList.Get(l, index));
      case Remove(num) =>
        var b;
        l', b := SortedIntList.Remove(l, num);
        a := Flag(b);
      case RemoveAll(list) =>
        var b;
        l', b := SortedIntList.RemoveAll(l, list);
        a := Flag(b);
      case Size =>
        a := Count(SortedIntList.Size(l));
    }
  }

  /** Runs a history on a new plain list, collecting the answers. The list
      never holds more elements than the history handed to add and addAll. */
  method ReplayPlain(calls: seq<Call>) returns (l: SortedIntList.List, answers: seq<Answer>)
    ensures SortedIntList.Valid(l)
    ensures SortedIntList.Contents(l) == Run([], calls)
    ensures answers == Answers([], calls)
    ensures SortedIntList.Size(l) <= |InsertedValues(calls)|
  {
    l, answers := ReplayFrom(SortedIntList.Empty(), calls);
    RunBounded([], calls);
  }

  /** Runs a history on the plain list l, collecting the answers. */
  method ReplayFrom(l: SortedIntList.List, calls: seq<Call>)
    returns (l': SortedIntList.List, answers: seq<Answer>)
    requires SortedIntList.Valid(l)
    ensures SortedIntList.Valid(l')
    ensures SortedIntList.Contents(l') == Run(SortedIntList.Contents(l), calls)
    ensures answers == Answers(SortedIntList.Contents(l), calls)
    decreases |calls|
  {
    if |calls| == 0 {
      return l, [];
    }
    var next, a := Perform(l, calls[0]);
    var rest;
    l', rest := ReplayFrom(next, calls[1..]);
    answers := [a] + rest;
  }
}

