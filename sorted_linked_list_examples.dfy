// The scenarios of the sorted linked list's tests, run on fresh lists:
// each method builds a list, calls the operations in the tests' order and
// promises the values the tests read back.

module SortedListExamples {
  import opened Wrappers
  import opened SortedList

  /** A fresh list is empty and its ends cannot be read. */
  method InitialState() returns (empty: bool, count: nat, head: Result<nat, ListError>, tail: Result<nat, ListError>)
    ensures empty && count == 0 && head.Err? && tail.Err?
  {
    var l := new SortedLinkedList();
    empty, count, head, tail := l.IsEmpty(), l.GetCount(), l.GetHead(), l.GetTail();
  }

  /** The value 0 cannot be added. */
  method RequireNotZero() returns (ok: bool)
    ensures !ok
  {
    var l := new SortedLinkedList();
    ok := l.Add(0, []);
  }

  /** Adding 42 twice leaves one node, both head and tail. */
  method AddOneItem() returns (ok1: bool, count: nat, ok2: bool, head: Result<nat, ListError>, tail: Result<nat, ListError>)
    ensures ok1 && count == 1 && ok2 && head == Ok(42) && tail == Ok(42)
  {
    var l := new SortedLinkedList();
    ok1 := l.Add(42, []);
    count := l.GetCount();
    ok2 := l.Add(42, []);
    head, tail := l.GetHead(), l.GetTail();
  }

  /** A removed value is gone: a second remove reports false and the list is empty again. */
  method MakeEmpty() returns (removed: bool, again: bool, count: nat, head: Result<nat, ListError>, tail: Result<nat, ListError>)
    ensures removed && !again && count == 0 && head.Err? && tail.Err?
  {
    var l := new SortedLinkedList();
    var ok := l.Add(42, []);
    removed := l.Remove(42);
    again := l.Remove(42);
    count, head, tail := l.GetCount(), l.GetHead(), l.GetTail();
  }

  // ---------------------------------------------------------------------
  // Following a list through its ascending contents

  /** A list whose values are those of an ascending sequence holds exactly that sequence. */
  lemma Holds(l: SortedLinkedList, s: seq<nat>)
    requires l.Valid() && Increasing(s) && l.Elements() == Elems(s)
    ensures l.Contents == s
  {
    AscendingIncreasing(l.Contents);
    IncreasingUnique(l.Contents, s);
  }

  /** Adds v, known to belong at position p of the contents s. */
  method AddAt(l: SortedLinkedList, v: nat, hints: seq<nat>, ghost s: seq<nat>, ghost p: nat, ghost t: seq<nat>)
      returns (ok: bool)
    requires l.Valid() && l.Contents == s && v != 0 && p <= |s|
    requires (p > 0 ==> s[p - 1] < v) && (p < |s| ==> v < s[p]) && t == InsertAt(s, v, p)
    modifies l
    ensures ok && l.Valid() && l.Contents == t
  {
    AscendingIncreasing(s);
    ok := l.Add(v, hints);
    InsertIncreasing(s, v, p);
    Holds(l, t);
  }

  /** Removes v, known to sit at position k of the contents s. */
  method RemoveAt(l: SortedLinkedList, v: nat, ghost s: seq<nat>, ghost k: nat, ghost t: seq<nat>)
      returns (removed: bool)
    requires l.Valid() && l.Contents == s && k < |s| && s[k] == v && t == DeleteAt(s, k)
    modifies l
    ensures removed && l.Valid() && l.Contents == t
  {
    AscendingIncreasing(s);
    removed := l.Remove(v);
    DeleteIncreasing(s, k);
    Holds(l, t);
  }

  /** The neighbours the getters report for the value at position i. */
  lemma ReadAt(l: SortedLinkedList, i: nat)
    requires l.Valid() && i < |l.Contents|
    ensures var s := l.Contents;
      && l.GetNext(s[i]) == (if i + 1 < |s| then Ok(s[i + 1]) else Err(NoNext))
      && l.GetPrev(s[i]) == (if i > 0 then Ok(s[i - 1]) else Err(NoPrev))
      && l.TryGetNext(s[i]) == Ok(Succ(s, i)) && l.TryGetPrev(s[i]) == Ok(Pred(s, i))
      && l.HasNext(s[i]) == (i + 1 < |s|) && l.HasPrev(s[i]) == (i > 0)
  {
    var s := l.Contents;
    assert s[i] in l.Elements();
    if i + 1 < |s| { assert s[i + 1] in Elems(s); }
    if i > 0 { assert s[i - 1] in Elems(s); }
  }

  /** What the getters return, read around one value of the list. */
  datatype View = View(count: nat, head: Result<nat, ListError>, tail: Result<nat, ListError>,
                       hasNext: bool, hasPrev: bool, next: Result<nat, ListError>, prev: Result<nat, ListError>,
                       tryNext: Result<nat, ListError>, tryPrev: Result<nat, ListError>)

  /** Reads the getters around v, the value at position i of the contents. */
  method Look(l: SortedLinkedList, v: nat, ghost i: nat) returns (w: View)
    requires l.Valid() && i < |l.Contents| && l.Contents[i] == v
    ensures var s := l.Contents;
      && w.count == |s| && w.head == Ok(s[|s| - 1]) && w.tail == Ok(s[0])
      && w.hasNext == (i + 1 < |s|) && w.hasPrev == (i > 0)
      && w.next == (if i + 1 < |s| then Ok(s[i + 1]) else Err(NoNext))
      && w.prev == (if i > 0 then Ok(s[i - 1]) else Err(NoPrev))
      && w.tryNext == Ok(Succ(s, i)) && w.tryPrev == Ok(Pred(s, i))
  {
    ReadAt(l, i);
    w := View(l.GetCount(), l.GetHead(), l.GetTail(), l.HasNext(v), l.HasPrev(v),
              l.GetNext(v), l.GetPrev(v), l.TryGetNext(v), l.TryGetPrev(v));
  }

  /** Reads the getters for a value not in the list. */
  method LookAbsent(l: SortedLinkedList, v: nat) returns (contains: bool, tryNext: Result<nat, ListError>, tryPrev: Result<nat, ListError>)
    requires l.Valid() && v !in Elems(l.Contents)
    ensures !contains && tryNext.Err? && tryPrev.Err?
  {
    contains, tryNext, tryPrev := l.Contains(v), l.TryGetNext(v), l.TryGetPrev(v);
  }

  // ---------------------------------------------------------------------
  // The scenarios

  /** Two values: the larger is the head, each is the other's neighbour;
      removing the tail leaves the other as both ends. */
  method AddTwoItems() returns (at42: View, at43: View, removed: bool, after: View)
    ensures at42.count == 2 && at42.head == Ok(43) && at42.tail == Ok(42)
    ensures at43.prev == Ok(42) && at42.next == Ok(43)
    ensures removed && after.count == 1 && after.head == Ok(43) && after.tail == Ok(43)
  {
    var l := new SortedLinkedList();
    var ok := AddAt(l, 42, [], [], 0, [42]);
    ok := AddAt(l, 43, [], [42], 1, [42, 43]);
    at42 := Look(l, 42, 0);
    at43 := Look(l, 43, 1);
    removed := RemoveAt(l, 42, [42, 43], 0, [43]);
    after := Look(l, 43, 0);
  }

  /** Three values added out of order come out sorted, and the ends have no
      neighbour beyond them. */
  method AddThreeItems() returns (at41: View, at42: View, at43: View)
    ensures at42.count == 3 && at42.head == Ok(43) && at42.tail == Ok(41)
    ensures at42.next == Ok(43) && at42.prev == Ok(41) && at41.next == Ok(42) && at43.prev == Ok(42)
    ensures !at43.hasNext && !at41.hasPrev
  {
    var l := new SortedLinkedList();
    var ok := AddAt(l, 42, [], [], 0, [42]);
    ok := AddAt(l, 41, [], [42], 0, [41, 42]);
    ok := AddAt(l, 43, [], [41, 42], 2, [41, 42, 43]);
    at41 := Look(l, 41, 0);
    at42 := Look(l, 42, 1);
    at43 := Look(l, 43, 2);
  }

  /** Six values added at both ends and in between. */
  method SixItems() returns (l: SortedLinkedList)
    ensures fresh(l) && l.Valid() && l.Contents == [35, 40, 41, 42, 43, 45]
  {
    l := new SortedLinkedList();
    var ok := AddAt(l, 42, [], [], 0, [42]);
    ok := AddAt(l, 41, [], [42], 0, [41, 42]);
    ok := AddAt(l, 43, [], [41, 42], 2, [41, 42, 43]);
    ok := AddAt(l, 45, [], [41, 42, 43], 3, [41, 42, 43, 45]);
    ok := AddAt(l, 35, [], [41, 42, 43, 45], 0, [35, 41, 42, 43, 45]);
    ok := AddAt(l, 40, [], [35, 41, 42, 43, 45], 1, [35, 40, 41, 42, 43, 45]);
  }

  /** Values added at both ends and in between are linked in order. */
  method AddMultipleItems() returns (at45: View, at35: View, at40: View, at41: View)
    ensures at45.prev == Ok(43) && at35.next == Ok(40) && at40.next == Ok(41) && at41.prev == Ok(40)
    ensures at45.count == 6
  {
    var l := SixItems();
    at45 := Look(l, 45, 5);
    at35 := Look(l, 35, 0);
    at40 := Look(l, 40, 1);
    at41 := Look(l, 41, 2);
  }

  /** Removing a middle value joins its neighbours, and removing an end moves it. */
  method RemoveMultipleItems() returns (joinedBelow: View, joinedAbove: View, newTail: View, newHead: View)
    ensures joinedAbove.prev == Ok(41) && joinedBelow.next == Ok(43)
    ensures newTail.tail == Ok(40) && !newTail.hasPrev && newHead.head == Ok(43) && !newHead.hasNext
  {
    var l := SixItems();
    var removed := RemoveAt(l, 42, [35, 40, 41, 42, 43, 45], 3, [35, 40, 41, 43, 45]);
    joinedBelow := Look(l, 41, 2);
    joinedAbove := Look(l, 43, 3);
    removed := RemoveAt(l, 35, [35, 40, 41, 43, 45], 0, [40, 41, 43, 45]);
    newTail := Look(l, 40, 0);
    removed := RemoveAt(l, 45, [40, 41, 43, 45], 3, [40, 41, 43]);
    newHead := Look(l, 43, 2);
  }

  /** A hint in the list and a hint that is not both give the sorted placement. */
  method Hints() returns (at35: View, contains: bool, at36: View)
    ensures at35.count == 3 && at35.next == Ok(36) && !contains && at36.count == 4 && at36.next == Ok(37)
  {
    var l := new SortedLinkedList();
    var ok := AddAt(l, 35, [], [], 0, [35]);
    ok := AddAt(l, 40, [], [35], 1, [35, 40]);
    ok := AddAt(l, 36, [40], [35, 40], 1, [35, 36, 40]);
    at35 := Look(l, 35, 0);
    var tryNext, tryPrev;
    contains, tryNext, tryPrev := LookAbsent(l, 38);
    ok := AddAt(l, 37, [38], [35, 36, 40], 2, [35, 36, 37, 40]);
    at36 := Look(l, 36, 1);
  }

  /** Several hints, the first of them absent, still add the value below all others. */
  method MultipleHints() returns (ok: bool, at2: View)
    ensures ok && at2.tail == Ok(2) && at2.count == 4
  {
    var l := new SortedLinkedList();
    ok := AddAt(l, 3, [], [], 0, [3]);
    ok := AddAt(l, 5, [], [3], 1, [3, 5]);
    ok := AddAt(l, 10, [], [3, 5], 2, [3, 5, 10]);
    ok := AddAt(l, 2, [11, 5, 1], [3, 5, 10], 0, [2, 3, 5, 10]);
    at2 := Look(l, 2, 0);
  }

  /** The try-variants give the neighbour, 0 past an end, and fail for an absent value. */
  method TryFunctions() returns (at5: View, at10: View, at3: View, absentNext: Result<nat, ListError>, absentPrev: Result<nat, ListError>)
    ensures at5.tryNext == Ok(10) && at5.tryPrev == Ok(3) && at10.tryNext == Ok(0) && at3.tryPrev == Ok(0)
    ensures absentNext.Err? && absentPrev.Err?
  {
    var l := new SortedLinkedList();
    var ok := AddAt(l, 3, [], [], 0, [3]);
    ok := AddAt(l, 5, [], [3], 1, [3, 5]);
    ok := AddAt(l, 10, [], [3, 5], 2, [3, 5, 10]);
    at5 := Look(l, 5, 1);
    at10 := Look(l, 10, 2);
    at3 := Look(l, 3, 0);
    var contains;
    contains, absentNext, absentPrev := LookAbsent(l, 11);
  }
}
