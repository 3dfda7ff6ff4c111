# Sorted integer list and its counting decorator, in Dafny

This project models the two classes of the `edu.cmu.cs.cs214.rec04` package and proves properties of the model.

- `SortedIntList` keeps ints in ascending order and allows duplicates. It stores them in an `int[]` buffer with a logical `size`:
  - `add` scans for the first element greater than the new value, shifts the tail right and writes the value into the gap. When the buffer is full it first doubles it (`expandCapacity`).
  - `remove` deletes the first equal element by shifting the tail left.
  - `removeAll` calls `remove` once per element of its argument.
  - `get` bounds-checks its index.
- `DelegationSortedIntList` owns a `SortedIntList` and forwards every call to it. It also counts, in `totalAdded`, every int handed to `add` or `addAll`.

The model has four modules:

- `SortedSeq` (`sorted_seq.dfy`) gives the meaning of each operation on the logical contents, as plain sequence functions:
  - `Insert`, `RemoveFirst`, `InsertEach` and `RemoveEach` each come with lemmas about length, multiset and sortedness.
  - `SortedUnique` proves that two sorted sequences with the same multiset are equal.
  - Building on it, each operation is characterised independently: on sorted contents its result is *the* sorted arrangement of the expected multiset. `Insert` and `RemoveFirst` are also proved to undo each other.
- `SortedIntList` (`sorted_int_list.dfy`) is the buffer itself: a datatype `List(elements, size)`. Each Java array write becomes a sequence update, so the scan loop and the two shift loops appear as loops with their invariants. Every method returns the new state. It is proved to leave `Contents == elements[..size]` equal to the sequence-level result, and to keep the buffer shape and the sorted invariant.
- `CallHistory` (`call_history.dfy`) describes a history of calls on the list interface and what the plain list does with it: the final contents (`Run`), the answer to every call (`Answers`), and every int handed to the insert family (`InsertedValues`).
- `DelegationSortedIntList` (`delegation_sorted_int_list.dfy`) is the decorator, a datatype `Counting(delegate, totalAdded)`. Over any history from a new object:
  - `totalAdded` equals the number of ints passed to `add`/`addAll`;
  - the delegate ends with the same contents, and gives the same answers, as a plain list given the same history;
  - `totalAdded` is never below the size.

`addAll` belongs to `AbstractIntList`, which is not part of this model. It is modelled on an assumption: it calls `add` once per element of its argument, in index order, and answers whether any of those calls answered true. Since `add` always answers true, that means "the argument was non-empty". The argument lists of `addAll` and `removeAll` are modelled as `seq<int>`, which holds the values `list.get(0)`, …, `list.get(list.size() - 1)`.

## Model

| member | source | states |
|---|---|---|
| SortedSeq.InsertionPoint | Java/src/main/java/edu/cmu/cs/cs214/rec04/SortedIntList.java:34-37 | the scan stops at the first index whose element is greater than num; every element before it is at most num; it is the size when no element is greater |
| SortedSeq.InsertAddsOne | Java/src/main/java/edu/cmu/cs/cs214/rec04/SortedIntList.java:29-47 | adding num makes the contents one longer and adds exactly one num to their multiset |
| SortedSeq.InsertKeepsSorted | Java/src/main/java/edu/cmu/cs/cs214/rec04/SortedIntList.java:29-47 | adding num at its insertion point keeps sorted contents sorted |
| SortedSeq.FirstIndex | Java/src/main/java/edu/cmu/cs/cs214/rec04/SortedIntList.java:82-83 | the scan finds the first index holding num; it finds one exactly when num occurs |
| SortedSeq.RemoveFirstTakesOne | Java/src/main/java/edu/cmu/cs/cs214/rec04/SortedIntList.java:81-92 | removing a present num makes the contents one shorter and takes exactly one num out of their multiset; an absent num leaves them unchanged |
| SortedSeq.RemoveFirstKeepsSorted | Java/src/main/java/edu/cmu/cs/cs214/rec04/SortedIntList.java:81-92 | removing the first occurrence of num keeps sorted contents sorted |
| SortedSeq.InsertEachAddsAll | Java/src/main/java/edu/cmu/cs/cs214/rec04/DelegationSortedIntList.java:53-56 | adding a list element by element grows the contents by its length and adds its multiset |
| SortedSeq.InsertEachKeepsSorted | Java/src/main/java/edu/cmu/cs/cs214/rec04/DelegationSortedIntList.java:53-56 | adding a list element by element keeps sorted contents sorted |
| SortedSeq.RemoveEachTakesDifference | Java/src/main/java/edu/cmu/cs/cs214/rec04/SortedIntList.java:101-109 | removing a list element by element leaves the multiset difference, so at most one occurrence goes per listed value; the answer is true exactly when the list and the contents share a value, and exactly when the contents shrank |
| SortedSeq.RemoveEachKeepsSorted | Java/src/main/java/edu/cmu/cs/cs214/rec04/SortedIntList.java:101-109 | removing a list element by element keeps sorted contents sorted |
| SortedSeq.SortedUnique | Java/src/main/java/edu/cmu/cs/cs214/rec04/SortedIntList.java:3-7 | under the ascending-order invariant, the contents are fixed by their multiset: two sorted sequences with equal multisets are equal |
| SortedSeq.InsertCharacterised | Java/src/main/java/edu/cmu/cs/cs214/rec04/SortedIntList.java:29-47 | on sorted contents, a sequence is the result of add exactly when it is sorted and holds the old elements plus num |
| SortedSeq.RemoveFirstCharacterised | Java/src/main/java/edu/cmu/cs/cs214/rec04/SortedIntList.java:81-92 | on sorted contents, a sequence is the result of remove exactly when it is sorted and holds the old elements less one num |
| SortedSeq.InsertEachCharacterised | Java/src/main/java/edu/cmu/cs/cs214/rec04/DelegationSortedIntList.java:53-56 | on sorted contents, a sequence is the result of addAll exactly when it is sorted and holds the old elements plus the list's, whatever the list's order |
| SortedSeq.RemoveEachCharacterised | Java/src/main/java/edu/cmu/cs/cs214/rec04/SortedIntList.java:101-109 | on sorted contents, a sequence is the result of removeAll exactly when it is sorted and holds the multiset difference |
| SortedSeq.RemoveUndoesInsert | Java/src/main/java/edu/cmu/cs/cs214/rec04/SortedIntList.java:29-92 | on sorted contents, removing num right after adding it gives back the old contents |
| SortedSeq.InsertUndoesRemove | Java/src/main/java/edu/cmu/cs/cs214/rec04/SortedIntList.java:29-92 | on sorted contents holding num, adding num right after removing it gives back the old contents |
| SortedSeq.InsertFiveThreeEightOne | Java/src/main/java/edu/cmu/cs/cs214/rec04/SortedIntList.java:29-47 | worked example: adding 5, 3, 8 and 1 in that order to empty contents gives [1, 3, 5, 8] |
| SortedIntList.Empty | Java/src/main/java/edu/cmu/cs/cs214/rec04/SortedIntList.java:15-19 | a new list has a buffer of the default capacity 10, no elements, and satisfies the invariant |
| SortedIntList.ExpandCapacity | Java/src/main/java/edu/cmu/cs/cs214/rec04/SortedIntList.java:53-57 | the new buffer is exactly twice as long, the slots [0, size) are unchanged and the rest are zero |
| SortedIntList.Add | Java/src/main/java/edu/cmu/cs/cs214/rec04/SortedIntList.java:29-47 | answers true; the size grows by one; the buffer doubles exactly when it was full; the elements before the insertion point stay put, num sits at it and the rest move one to the right; the invariant is kept |
| SortedIntList.InsertIntoRoom | Java/src/main/java/edu/cmu/cs/cs214/rec04/SortedIntList.java:34-46 | with a free slot, scan, shift and write leave the old contents with num spliced in at the insertion point, in a buffer of the same length |
| SortedIntList.ShiftRight | Java/src/main/java/edu/cmu/cs/cs214/rec04/SortedIntList.java:40-42 | the slots [from, size) move to [from + 1, size + 1) and no slot outside that range changes |
| SortedIntList.Get | Java/src/main/java/edu/cmu/cs/cs214/rec04/SortedIntList.java:67-72 | fails exactly when the index is negative or not below the size, carrying the index and the size; otherwise returns the element at that index |
| SortedIntList.Remove | Java/src/main/java/edu/cmu/cs/cs214/rec04/SortedIntList.java:81-92 | answers whether num occurred; if so, only its first occurrence is gone, the order of the rest is kept and the size drops by one; if not, the list is unchanged; the capacity never changes and the invariant is kept |
| SortedIntList.DeleteAt | Java/src/main/java/edu/cmu/cs/cs214/rec04/SortedIntList.java:84-87 | deleting slot i leaves the contents without their i-th element, one shorter, in a buffer of the same length |
| SortedIntList.ShiftLeft | Java/src/main/java/edu/cmu/cs/cs214/rec04/SortedIntList.java:84-86 | the slots (from, size) move one to the left over slot from; the slots from size - 1 on keep their values |
| SortedIntList.RemoveAll | Java/src/main/java/edu/cmu/cs/cs214/rec04/SortedIntList.java:101-109 | the contents and the answer are those of removing each listed value once, in order, with the answer true when any removal answered true; the capacity never changes and the invariant is kept |
| SortedIntList.AddAll | Java/src/main/java/edu/cmu/cs/cs214/rec04/DelegationSortedIntList.java:55 | under the addAll assumption, the size grows by the list's length, the contents are those of adding each value in order, the answer is true exactly when the list is non-empty, and the invariant is kept |
| SortedIntList.Size | Java/src/main/java/edu/cmu/cs/cs214/rec04/SortedIntList.java:117-119 | the logical count, which is the length of the contents and never exceeds the capacity |
| SortedIntList.AddFiveThreeEightOne | Java/src/main/java/edu/cmu/cs/cs214/rec04/SortedIntList.java:29-72 | worked example: a new list given add(5), add(3), add(8), add(1) holds [1, 3, 5, 8], and get(2) answers 5 |
| SortedIntList.RemoveFromNew | Java/src/main/java/edu/cmu/cs/cs214/rec04/SortedIntList.java:81-92 | worked example: remove(9) on a new list answers false and the size stays 0 |
| CallHistory.ApplyBounded | Java/src/main/java/edu/cmu/cs/cs214/rec04/SortedIntList.java:29-109 | one call keeps sorted contents sorted and brings in no element other than the ints it hands to add/addAll |
| CallHistory.RunBounded | Java/src/main/java/edu/cmu/cs/cs214/rec04/DelegationSortedIntList.java:3-7 | after any history, every element present arrived through add/addAll or was already there; so the size is at most the old size plus the number of ints handed over, and sortedness is kept |
| CallHistory.ReplayPlain | Java/src/main/java/edu/cmu/cs/cs214/rec04/SortedIntList.java:28-119 | a plain list given any history ends sorted, with the contents of the history's fold and the answers of the history's reference answers; through RunBounded, its size never exceeds the number of ints the history handed to add/addAll |
| DelegationSortedIntList.New | Java/src/main/java/edu/cmu/cs/cs214/rec04/DelegationSortedIntList.java:15-17 | a new decorator has a new empty delegate and a count of zero |
| DelegationSortedIntList.GetTotalAdded | Java/src/main/java/edu/cmu/cs/cs214/rec04/DelegationSortedIntList.java:27-29 | returns the counter, which is never below the delegate's size |
| DelegationSortedIntList.Add | Java/src/main/java/edu/cmu/cs/cs214/rec04/DelegationSortedIntList.java:40-43 | the count grows by exactly one; the answer is the delegate's, which is true; the contents gain num in order |
| DelegationSortedIntList.AddAll | Java/src/main/java/edu/cmu/cs/cs214/rec04/DelegationSortedIntList.java:53-56 | the count grows by exactly the list's length, even for an empty list; the contents and answer are the delegate's addAll |
| DelegationSortedIntList.Get | Java/src/main/java/edu/cmu/cs/cs214/rec04/DelegationSortedIntList.java:64-66 | the delegate's answer, failing exactly when the index is out of range |
| DelegationSortedIntList.Remove | Java/src/main/java/edu/cmu/cs/cs214/rec04/DelegationSortedIntList.java:72-74 | the delegate's remove, with the count unchanged |
| DelegationSortedIntList.RemoveAll | Java/src/main/java/edu/cmu/cs/cs214/rec04/DelegationSortedIntList.java:80-82 | the delegate's removeAll, with the count unchanged |
| DelegationSortedIntList.Size | Java/src/main/java/edu/cmu/cs/cs214/rec04/DelegationSortedIntList.java:88-90 | the delegate's size, never above the count |
| DelegationSortedIntList.Replay | Java/src/main/java/edu/cmu/cs/cs214/rec04/DelegationSortedIntList.java:17-56 | from a new decorator, after any history, the count equals the number of ints passed to add/addAll, the invariant holds, and the contents and answers are the history's reference fold |
| DelegationSortedIntList.ReplayBoth | Java/src/main/java/edu/cmu/cs/cs214/rec04/DelegationSortedIntList.java:58-90 | the same history run on a new decorator and on a new plain list ends with equal contents and equal answers to every call, and the count is at least the plain list's size |
| DelegationSortedIntList.AddAllTwos | Java/src/main/java/edu/cmu/cs/cs214/rec04/DelegationSortedIntList.java:27-56 | worked example: addAll([2, 2, 2]) on a new decorator gives a count of 3, a size of 3 and the contents [2, 2, 2] |

## Left out

- `toString` (`SortedIntList.java:126-137`) is left out because it only builds diagnostic text. The exception message of `get` is reduced to the two values it reports, the index and the size.
- `AbstractIntList` and `IntegerList` are not part of this model. `addAll` is modelled only on the stated assumption; nothing else about `AbstractIntList` is claimed.
- Passing a list to its own `removeAll` or `addAll` is left out. There the argument changes while it is being read. In the model the argument is a separate `seq<int>` value.
- Object identity, in-place mutation and Java dispatch are left out. Each state change is a method that returns the new state, so "the same object" is "the returned value".
- SortedIntList.ExpandCapacity: does not model the 32-bit overflow of `elements.length * 2`, because capacities are unbounded integers. In Java, doubling a buffer whose length is at least 2^30 gives a negative length, and the allocation throws `NegativeArraySizeException`.
- SortedIntList.Add: always answers true with size + 1, even where Java's `add` throws because a full buffer of length at least 2^30 cannot be doubled (`SortedIntList.java:30-32`, `54`). `size++` itself never wraps: after any growth, `size < elements.length`.
- DelegationSortedIntList.Add: does not model the 32-bit wrap-around of `totalAdded++`, because the counter is an unbounded natural number.
- DelegationSortedIntList.AddAll: does not model the 32-bit wrap-around of `totalAdded += list.size()`, for the same reason.
- Element values are mathematical integers. The list only compares and copies them, so their width never changes a result.
- DelegationSortedIntList.ReplayBoth: compares the two lists by logical contents and answers, not by buffer. Slots at or beyond `size` are not observable through the interface.
