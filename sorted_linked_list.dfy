/**
  SortedLinkedListUint256: a doubly linked list of distinct non-zero uint256
  values kept in order, the head holding the largest value and the tail the
  smallest.  Each value is its own node key; `nextOf[x]` is the node with the next
  larger value and `prevOf[x]` the one with the next smaller value, 0 meaning none.
 */
module SortedList {
  import opened Wrappers

  datatype ListError = ZeroValue | EmptyList | NotInList | NoNext | NoPrev

  /** The values met walking from the head down the prev links, and from the tail up the next links. */
  datatype Walks = Walks(down: seq<nat>, up: seq<nat>)

  // ---------------------------------------------------------------------
  // Ascending sequences, the abstract contents of a list

  predicate Increasing(s: seq<nat>) {
    forall i, j :: 0 <= i < j < |s| ==> s[i] < s[j]
  }

  /** Increasing, stated one adjacent pair at a time. */
  predicate Ascending(s: seq<nat>)
    decreases |s|
  {
    |s| < 2 || (s[0] < s[1] && Ascending(s[1..]))
  }

  lemma {:induction false} AscendingIncreasing(s: seq<nat>)
    requires Ascending(s)
    ensures Increasing(s)
    decreases |s|
  {
    if |s| >= 2 {
      AscendingIncreasing(s[1..]);
      forall i, j | 0 <= i < j < |s| ensures s[i] < s[j] {
        if i == 0 {
          if j > 1 { assert s[1..][0] < s[1..][j - 1]; }
        } else {
          assert s[1..][i - 1] < s[1..][j - 1];
        }
      }
    }
  }

  lemma {:induction false} IncreasingAscending(s: seq<nat>)
    requires Increasing(s)
    ensures Ascending(s)
    decreases |s|
  {
    if |s| >= 2 {
      assert Increasing(s[1..]) by {
        forall i, j | 0 <= i < j < |s| - 1 ensures s[1..][i] < s[1..][j] {
          assert s[i + 1] < s[j + 1];
        }
      }
      IncreasingAscending(s[1..]);
      assert s[0] < s[1];
    }
  }

  function Elems(s: seq<nat>): set<nat> {
    set x | x in s
  }

  /** The value after position i, or 0 at the end. */
  function Succ(s: seq<nat>, i: int): nat
    requires 0 <= i < |s|
  {
    if i + 1 < |s| then s[i + 1] else 0
  }

  /** The value before position i, or 0 at the start. */
  function Pred(s: seq<nat>, i: int): nat
    requires 0 <= i < |s|
  {
    if i > 0 then s[i - 1] else 0
  }

  /**
    The node maps, head and tail represent the ascending sequence s: every value
    is a key of both maps, linked to its neighbours in s.
   */
  predicate Linked(s: seq<nat>, next: map<nat, nat>, prev: map<nat, nat>, head: nat, tail: nat) {
    && Ascending(s)
    && 0 !in Elems(s)
    && next.Keys == Elems(s) && prev.Keys == Elems(s)
    && (forall i {:trigger next[s[i]]} :: 0 <= i < |s| ==> next[s[i]] == Succ(s, i))
    && (forall i {:trigger prev[s[i]]} :: 0 <= i < |s| ==> prev[s[i]] == Pred(s, i))
    && head == (if s == [] then 0 else s[|s| - 1])
    && tail == (if s == [] then 0 else s[0])
  }

  /** Two ascending sequences with the same values are the same sequence. */
  lemma {:induction false} IncreasingUnique(s: seq<nat>, t: seq<nat>)
    requires Increasing(s) && Increasing(t) && Elems(s) == Elems(t)
    ensures s == t
  {
    IncreasingCard(s);
    IncreasingCard(t);
    if s != [] {
      assert s[0] == t[0] by {
        assert s[0] in Elems(t) && t[0] in Elems(s);
      }
      assert Elems(s[1..]) == Elems(t[1..]) by {
        forall x | x in Elems(s[1..]) ensures x in Elems(t[1..]) {
          assert x in Elems(t) && x != t[0];
        }
        forall x | x in Elems(t[1..]) ensures x in Elems(s[1..]) {
          assert x in Elems(s) && x != s[0];
        }
      }
      IncreasingUnique(s[1..], t[1..]);
      assert s == [s[0]] + s[1..] && t == [t[0]] + t[1..];
    }
  }

  /** An ascending sequence holds as many values as it has positions. */
  lemma {:induction false} IncreasingCard(s: seq<nat>)
    requires Increasing(s)
    ensures |Elems(s)| == |s|
  {
    if s != [] {
      var t := s[1..];
      assert Elems(s) == Elems(t) + {s[0]};
      assert s[0] !in Elems(t);
      IncreasingCard(t);
    }
  }

  /** The sequence with v put at position p. */
  function InsertAt(s: seq<nat>, v: nat, p: nat): (s': seq<nat>)
    requires p <= |s|
    ensures |s'| == |s| + 1 && s'[p] == v
  {
    s[..p] + [v] + s[p..]
  }

  lemma InsertAtIndex(s: seq<nat>, v: nat, p: nat)
    requires p <= |s|
    ensures forall i {:trigger InsertAt(s, v, p)[i]} :: 0 <= i < p ==> InsertAt(s, v, p)[i] == s[i]
    ensures forall i {:trigger InsertAt(s, v, p)[i]} :: p < i <= |s| ==> InsertAt(s, v, p)[i] == s[i - 1]
  {
  }

  lemma InsertIncreasing(s: seq<nat>, v: nat, p: nat)
    requires Increasing(s) && p <= |s|
    requires p > 0 ==> s[p - 1] < v
    requires p < |s| ==> v < s[p]
    ensures Increasing(InsertAt(s, v, p))
    ensures Elems(InsertAt(s, v, p)) == Elems(s) + {v}
  {
    InsertOrder(s, v, p);
    assert s == s[..p] + s[p..];
  }

  lemma InsertOrder(s: seq<nat>, v: nat, p: nat)
    requires Increasing(s) && p <= |s|
    requires p > 0 ==> s[p - 1] < v
    requires p < |s| ==> v < s[p]
    ensures Increasing(InsertAt(s, v, p))
  {
    var s' := InsertAt(s, v, p);
    InsertAtIndex(s, v, p);
    forall i, j | 0 <= i < j < |s'| ensures s'[i] < s'[j] {
      if j < p {
      } else if j == p {
        if i < p - 1 { assert s[i] < s[p - 1]; }
      } else if i == p {
        if j > p + 1 { assert s[p] < s[j - 1]; }
      } else if i < p {
        if i < p - 1 { assert s[i] < s[p - 1]; }
      }
    }
  }

  /** The successor links after v is put at position p. */
  lemma InsertNextLinks(s: seq<nat>, next: map<nat, nat>, v: nat, p: nat, below: nat, above: nat,
                        next': map<nat, nat>)
    requires Increasing(s) && p <= |s|
    requires next.Keys == Elems(s) && 0 !in Elems(s)
    requires forall i {:trigger next[s[i]]} :: 0 <= i < |s| ==> next[s[i]] == Succ(s, i)
    requires below == (if p > 0 then s[p - 1] else 0) && above == (if p < |s| then s[p] else 0)
    requires p > 0 ==> below < v
    requires p < |s| ==> v < above
    requires next' == if below != 0 then next[v := above][below := v] else next[v := above]
    ensures forall i {:trigger next'[InsertAt(s, v, p)[i]]} :: 0 <= i < |InsertAt(s, v, p)| ==>
              next'[InsertAt(s, v, p)[i]] == Succ(InsertAt(s, v, p), i)
  {
    var s' := InsertAt(s, v, p);
    InsertAtIndex(s, v, p);
    forall i | 0 <= i < |s'|
      ensures next'[s'[i]] == Succ(s', i)
    {
      if i < p {
        assert s'[i] == s[i];
        if i < p - 1 {
          assert s[i] < s[p - 1];
        }
      } else if i > p {
        assert s'[i] == s[i - 1];
        if p < i - 1 {
          assert s[p] < s[i - 1];
        }
        if p > 0 {
          assert s[p - 1] < s[i - 1];
        }
      }
    }
  }

  /** The predecessor links after v is put at position p. */
  lemma InsertPrevLinks(s: seq<nat>, prev: map<nat, nat>, v: nat, p: nat, below: nat, above: nat,
                        prev': map<nat, nat>)
    requires Increasing(s) && p <= |s|
    requires prev.Keys == Elems(s) && 0 !in Elems(s)
    requires forall i {:trigger prev[s[i]]} :: 0 <= i < |s| ==> prev[s[i]] == Pred(s, i)
    requires below == (if p > 0 then s[p - 1] else 0) && above == (if p < |s| then s[p] else 0)
    requires p > 0 ==> below < v
    requires p < |s| ==> v < above
    requires prev' == if above != 0 then prev[v := below][above := v] else prev[v := below]
    ensures forall i {:trigger prev'[InsertAt(s, v, p)[i]]} :: 0 <= i < |InsertAt(s, v, p)| ==>
              prev'[InsertAt(s, v, p)[i]] == Pred(InsertAt(s, v, p), i)
  {
    var s' := InsertAt(s, v, p);
    InsertAtIndex(s, v, p);
    forall i | 0 <= i < |s'|
      ensures prev'[s'[i]] == Pred(s', i)
    {
      if i < p {
        assert s'[i] == s[i];
        if p < |s| {
          assert s[i] < s[p];
        }
        if i < p - 1 {
          assert s[i] < s[p - 1];
        }
      } else if i > p {
        assert s'[i] == s[i - 1];
        if p < i - 1 {
          assert s[p] < s[i - 1];
        }
      }
    }
  }

  /** Putting v between positions p-1 and p keeps the links right. */
  lemma LinkedInsert(s: seq<nat>, next: map<nat, nat>, prev: map<nat, nat>, head: nat, tail: nat,
                     v: nat, p: nat, below: nat, above: nat,
                     next': map<nat, nat>, prev': map<nat, nat>, head': nat, tail': nat)
    requires Linked(s, next, prev, head, tail)
    requires v > 0 && p <= |s|
    requires below == (if p > 0 then s[p - 1] else 0) && above == (if p < |s| then s[p] else 0)
    requires p > 0 ==> below < v
    requires p < |s| ==> v < above
    requires next' == if below != 0 then next[v := above][below := v] else next[v := above]
    requires prev' == if above != 0 then prev[v := below][above := v] else prev[v := below]
    requires head' == (if above == 0 then v else head) && tail' == (if below == 0 then v else tail)
    ensures Linked(InsertAt(s, v, p), next', prev', head', tail')
  {
    AscendingIncreasing(s);
    InsertIncreasing(s, v, p);
    IncreasingAscending(InsertAt(s, v, p));
    InsertNextLinks(s, next, v, p, below, above, next');
    InsertPrevLinks(s, prev, v, p, below, above, prev');
    assert below != 0 ==> below in Elems(s) by {
      if p > 0 { assert s[p - 1] in Elems(s); }
    }
    assert above != 0 ==> above in Elems(s) by {
      if p < |s| { assert s[p] in Elems(s); }
    }
    InsertKeys(s, next, v, p, above, below, next');
    InsertKeys(s, prev, v, p, below, above, prev');
    InsertEnds(s, v, p);
  }

  /** Linking v in adds exactly v to the keys of a node map. */
  lemma InsertKeys(s: seq<nat>, m: map<nat, nat>, v: nat, p: nat, x: nat, y: nat, m': map<nat, nat>)
    requires Increasing(s) && p <= |s| && m.Keys == Elems(s)
    requires y != 0 ==> y in Elems(s)
    requires m' == if y != 0 then m[v := x][y := v] else m[v := x]
    ensures m'.Keys == Elems(InsertAt(s, v, p))
  {
    assert Elems(InsertAt(s, v, p)) == Elems(s) + {v} by {
      assert s == s[..p] + s[p..];
    }
    assert m[v := x].Keys == m.Keys + {v};
  }

  /** Where the inserted value ends up relative to the old ends. */
  lemma InsertEnds(s: seq<nat>, v: nat, p: nat)
    requires p <= |s|
    ensures var s' := InsertAt(s, v, p);
            && s'[|s'| - 1] == (if p == |s| then v else s[|s| - 1])
            && s'[0] == (if p == 0 then v else s[0])
  {
    InsertAtIndex(s, v, p);
  }

  /** The sequence without its element at position k. */
  function DeleteAt(s: seq<nat>, k: nat): (s': seq<nat>)
    requires k < |s|
    ensures |s'| == |s| - 1
  {
    s[..k] + s[k + 1..]
  }

  lemma DeleteAtIndex(s: seq<nat>, k: nat)
    requires k < |s|
    ensures forall i {:trigger DeleteAt(s, k)[i]} :: 0 <= i < k ==> DeleteAt(s, k)[i] == s[i]
    ensures forall i {:trigger DeleteAt(s, k)[i]} :: k <= i < |s| - 1 ==> DeleteAt(s, k)[i] == s[i + 1]
  {
  }

  lemma DeleteIncreasing(s: seq<nat>, k: nat)
    requires Increasing(s) && k < |s|
    ensures Increasing(DeleteAt(s, k))
    ensures Elems(DeleteAt(s, k)) == Elems(s) - {s[k]}
  {
    var s' := DeleteAt(s, k);
    DeleteAtIndex(s, k);
    forall i, j | 0 <= i < j < |s'| ensures s'[i] < s'[j] {
      if j < k {
      } else if i >= k {
      } else {
        assert s[i] < s[j + 1];
      }
    }
    assert s == s[..k] + [s[k]] + s[k + 1..];
    forall x | x in Elems(s') ensures x != s[k] {
      var i :| 0 <= i < |s'| && s'[i] == x;
      if i < k { assert s[i] < s[k]; } else { assert s[k] < s[i + 1]; }
    }
  }

  /** The successor links after the value at position k is unlinked. */
  lemma DeleteNextLinks(s: seq<nat>, next: map<nat, nat>, k: nat, below: nat, above: nat, next': map<nat, nat>)
    requires Increasing(s) && k < |s| && next.Keys == Elems(s) && 0 !in Elems(s)
    requires forall i {:trigger next[s[i]]} :: 0 <= i < |s| ==> next[s[i]] == Succ(s, i)
    requires below == Pred(s, k) && above == Succ(s, k)
    requires next' == (if below != 0 then next[below := above] else next) - {s[k]}
    ensures forall i {:trigger next'[DeleteAt(s, k)[i]]} :: 0 <= i < |DeleteAt(s, k)| ==>
              next'[DeleteAt(s, k)[i]] == Succ(DeleteAt(s, k), i)
  {
    var s' := DeleteAt(s, k);
    DeleteAtIndex(s, k);
    forall i | 0 <= i < |s'|
      ensures next'[s'[i]] == Succ(s', i)
    {
      if i < k {
        assert s[i] < s[k];
        if i < k - 1 { assert s[i] < s[k - 1]; }
      } else {
        assert s[k] < s[i + 1];
        if k > 0 { assert s[k - 1] < s[i + 1]; }
      }
    }
  }

  /** The predecessor links after the value at position k is unlinked. */
  lemma DeletePrevLinks(s: seq<nat>, prev: map<nat, nat>, k: nat, below: nat, above: nat, prev': map<nat, nat>)
    requires Increasing(s) && k < |s| && prev.Keys == Elems(s) && 0 !in Elems(s)
    requires forall i {:trigger prev[s[i]]} :: 0 <= i < |s| ==> prev[s[i]] == Pred(s, i)
    requires below == Pred(s, k) && above == Succ(s, k)
    requires prev' == (if above != 0 then prev[above := below] else prev) - {s[k]}
    ensures forall i {:trigger prev'[DeleteAt(s, k)[i]]} :: 0 <= i < |DeleteAt(s, k)| ==>
              prev'[DeleteAt(s, k)[i]] == Pred(DeleteAt(s, k), i)
  {
    var s' := DeleteAt(s, k);
    DeleteAtIndex(s, k);
    forall i | 0 <= i < |s'|
      ensures prev'[s'[i]] == Pred(s', i)
    {
      if i < k {
        assert s[i] < s[k];
        if k + 1 < |s| { assert s[i] < s[k + 1]; }
      } else {
        assert s[k] < s[i + 1];
        if i > k { assert s[k + 1] < s[i + 1]; }
      }
    }
  }

  /** Unlinking the value at position k removes exactly it from the keys of a node map. */
  lemma DeleteKeys(s: seq<nat>, m: map<nat, nat>, k: nat, x: nat, y: nat, m': map<nat, nat>)
    requires Increasing(s) && k < |s| && m.Keys == Elems(s)
    requires y != 0 ==> y in Elems(s)
    requires m' == (if y != 0 then m[y := x] else m) - {s[k]}
    ensures m'.Keys == Elems(DeleteAt(s, k))
  {
    DeleteIncreasing(s, k);
  }

  /** The new ends once position k is gone. */
  lemma DeleteEnds(s: seq<nat>, k: nat)
    requires k < |s|
    ensures var s' := DeleteAt(s, k);
            && (s' == [] <==> |s| == 1)
            && (s' != [] ==> s'[|s'| - 1] == (if k == |s| - 1 then s[k - 1] else s[|s| - 1]))
            && (s' != [] ==> s'[0] == (if k == 0 then s[1] else s[0]))
  {
    DeleteAtIndex(s, k);
  }

  /** Unlinking the value at position k joins its two neighbours. */
  lemma LinkedDelete(s: seq<nat>, next: map<nat, nat>, prev: map<nat, nat>, head: nat, tail: nat,
                     k: nat, v: nat, below: nat, above: nat,
                     s': seq<nat>, next': map<nat, nat>, prev': map<nat, nat>, head': nat, tail': nat)
    requires Linked(s, next, prev, head, tail)
    requires k < |s| && s[k] == v && s' == DeleteAt(s, k)
    requires v in next && v in prev && below == prev[v] && above == next[v]
    requires next' == (if below != 0 then next[below := above] else next) - {v}
    requires prev' == (if above != 0 then prev[above := below] else prev) - {v}
    requires head' == (if above == 0 then below else head)
    requires tail' == (if below == 0 then above else tail)
    ensures Linked(s', next', prev', head', tail')
    ensures Elems(s') == Elems(s) - {v}
  {
    assert next[s[k]] == Succ(s, k) && prev[s[k]] == Pred(s, k);
    AscendingIncreasing(s);
    assert Ascending(DeleteAt(s, k)) && Elems(DeleteAt(s, k)) == Elems(s) - {v} by {
      DeleteIncreasing(s, k);
      IncreasingAscending(DeleteAt(s, k));
    }
    DeleteNextLinks(s, next, k, below, above, next');
    DeletePrevLinks(s, prev, k, below, above, prev');
    assert below != 0 ==> below in Elems(s) by {
      if k > 0 { assert s[k - 1] in Elems(s); }
    }
    assert above != 0 ==> above in Elems(s) by {
      if k + 1 < |s| { assert s[k + 1] in Elems(s); }
    }
    DeleteKeys(s, next, k, above, below, next');
    DeleteKeys(s, prev, k, below, above, prev');
    DeleteEnds(s, k);
  }

  /** A node map once v is unlinked: its neighbour x, when there is one, now points to y. */
  function Unlink(m: map<nat, nat>, v: nat, x: nat, y: nat): map<nat, nat> {
    (if x != 0 then m[x := y] else m) - {v}
  }

  /** An end of the list once a node is unlinked: it moves to y when the node had no x neighbour. */
  function NewEnd(end: nat, x: nat, y: nat): nat {
    if x == 0 then y else end
  }

  /** The links once the value v at position k, between below and above, is unlinked. */
  lemma LinkedDeleteAt(s: seq<nat>, next: map<nat, nat>, prev: map<nat, nat>, head: nat, tail: nat,
                       k: nat, v: nat, below: nat, above: nat)
    requires Linked(s, next, prev, head, tail)
    requires k < |s| && s[k] == v
    requires v in next && v in prev && below == prev[v] && above == next[v]
    ensures Linked(DeleteAt(s, k), Unlink(next, v, below, above), Unlink(prev, v, above, below),
                   NewEnd(head, above, below), NewEnd(tail, below, above))
    ensures Elems(DeleteAt(s, k)) == Elems(s) - {v}
  {
    LinkedDelete(s, next, prev, head, tail, k, v, below, above,
                 DeleteAt(s, k), Unlink(next, v, below, above), Unlink(prev, v, above, below),
                 NewEnd(head, above, below), NewEnd(tail, below, above));
  }

  /** A node map once v is linked in: v points to x and its neighbour y, when there is one, to v. */
  function Link(m: map<nat, nat>, v: nat, x: nat, y: nat): map<nat, nat> {
    if y != 0 then m[v := x][y := v] else m[v := x]
  }

  /** Unlinking a value of a represented state represents the sequence without it. */
  lemma RemoveStep(s: seq<nat>, next: map<nat, nat>, prev: map<nat, nat>, head: nat, tail: nat, v: nat)
    returns (k: nat)
    requires Linked(s, next, prev, head, tail) && v in next
    ensures v in prev && k < |s| && s[k] == v
    ensures Linked(DeleteAt(s, k), Unlink(next, v, prev[v], next[v]), Unlink(prev, v, next[v], prev[v]),
                       NewEnd(head, next[v], prev[v]), NewEnd(tail, prev[v], next[v]))
    ensures Elems(DeleteAt(s, k)) == Elems(s) - {v}
  {
        k :| 0 <= k < |s| && s[k] == v;
    LinkedDeleteAt(s, next, prev, head, tail, k, v, prev[v], next[v]);
  }

  /** Linking v in at its place p, between below and above, represents the sequence with v inserted. */
  lemma InsertStep(s: seq<nat>, next: map<nat, nat>, prev: map<nat, nat>, head: nat, tail: nat,
                   v: nat, p: nat, below: nat, above: nat)
    requires Linked(s, next, prev, head, tail) && v > 0 && p <= |s|
    requires below == (if p > 0 then s[p - 1] else 0) && above == (if p < |s| then s[p] else 0)
    requires p > 0 ==> below < v
    requires p < |s| ==> v < above
    ensures Linked(InsertAt(s, v, p), Link(next, v, above, below), Link(prev, v, below, above),
                       NewEnd(head, above, v), NewEnd(tail, below, v))
    ensures Elems(InsertAt(s, v, p)) == Elems(s) + {v}
  {
        AscendingIncreasing(s);
    LinkedInsert(s, next, prev, head, tail, v, p, below, above,
                 Link(next, v, above, below), Link(prev, v, below, above), NewEnd(head, above, v), NewEnd(tail, below, v));
    InsertIncreasing(s, v, p);
  }

  /** s read backwards. */
  function Reverse(s: seq<nat>): (r: seq<nat>)
    ensures |r| == |s| && forall i :: 0 <= i < |s| ==> r[i] == s[|s| - 1 - i]
  {
    seq(|s|, i requires 0 <= i < |s| => s[|s| - 1 - i])
  }

  /** An ascending sequence read backwards is strictly decreasing. */
  lemma ReverseDecreasing(s: seq<nat>)
    requires Ascending(s)
    ensures Increasing(s)
    ensures forall i, j :: 0 <= i < j < |s| ==> Reverse(s)[i] > Reverse(s)[j]
  {
    AscendingIncreasing(s);
    forall i, j | 0 <= i < j < |s| ensures Reverse(s)[i] > Reverse(s)[j] {
      assert Reverse(s)[i] == s[|s| - 1 - i] && Reverse(s)[j] == s[|s| - 1 - j];
    }
  }

  /** In an ascending sequence, the element right after position i is the least value above s[i]. */
  lemma SuccIsLeastAbove(s: seq<nat>, i: nat, x: nat)
    requires Increasing(s) && i < |s| && x in Elems(s) && s[i] < x
    ensures i + 1 < |s| && s[i + 1] <= x
  {
    var j :| 0 <= j < |s| && s[j] == x;
    if j > i + 1 {
      assert s[i + 1] < s[j];
    }
  }

  /** In an ascending sequence, the element right before position i is the greatest value below s[i]. */
  lemma PredIsGreatestBelow(s: seq<nat>, i: nat, x: nat)
    requires Increasing(s) && i < |s| && x in Elems(s) && x < s[i]
    ensures i > 0 && x <= s[i - 1]
  {
    var j :| 0 <= j < |s| && s[j] == x;
    if j < i - 1 {
      assert s[j] < s[i - 1];
    }
  }

  /** The first and last elements of an ascending sequence are its least and greatest values. */
  lemma EndsAreExtremes(s: seq<nat>, x: nat)
    requires Increasing(s) && x in Elems(s)
    ensures s[0] <= x <= s[|s| - 1]
  {
    var j :| 0 <= j < |s| && s[j] == x;
    if 0 < j { assert s[0] < s[j]; }
    if j < |s| - 1 { assert s[j] < s[|s| - 1]; }
  }

  /** The successor link of a value in the list: 0 at the head, else the least larger value. */
  lemma NextLink(s: seq<nat>, next: map<nat, nat>, prev: map<nat, nat>, head: nat, tail: nat, v: nat)
    requires Linked(s, next, prev, head, tail) && v in Elems(s)
    ensures v in next
    ensures next[v] == 0 <==> forall x :: x in Elems(s) ==> x <= v
    ensures next[v] != 0 ==> next[v] in Elems(s) && v < next[v]
    ensures next[v] != 0 ==> forall x :: x in Elems(s) && v < x ==> next[v] <= x
  {
    AscendingIncreasing(s);
    var i :| 0 <= i < |s| && s[i] == v;
    assert next[s[i]] == Succ(s, i);
    if i + 1 < |s| {
      assert s[i + 1] in Elems(s);
      forall x | x in Elems(s) && v < x ensures next[v] <= x {
        SuccIsLeastAbove(s, i, x);
      }
    } else {
      forall x | x in Elems(s) ensures x <= v {
        EndsAreExtremes(s, x);
      }
    }
  }

  /** The predecessor link of a value in the list: 0 at the tail, else the greatest smaller value. */
  lemma PrevLink(s: seq<nat>, next: map<nat, nat>, prev: map<nat, nat>, head: nat, tail: nat, v: nat)
    requires Linked(s, next, prev, head, tail) && v in Elems(s)
    ensures v in prev
    ensures prev[v] == 0 <==> forall x :: x in Elems(s) ==> v <= x
    ensures prev[v] != 0 ==> prev[v] in Elems(s) && prev[v] < v
    ensures prev[v] != 0 ==> forall x :: x in Elems(s) && x < v ==> x <= prev[v]
  {
    AscendingIncreasing(s);
    var i :| 0 <= i < |s| && s[i] == v;
    assert prev[s[i]] == Pred(s, i);
    if i > 0 {
      assert s[i - 1] in Elems(s);
      assert s[i - 1] < s[i];
      forall x | x in Elems(s) && x < v ensures x <= prev[v] {
        PredIsGreatestBelow(s, i, x);
      }
    } else {
      forall x | x in Elems(s) ensures v <= x {
        EndsAreExtremes(s, x);
      }
    }
  }

  // ---------------------------------------------------------------------
  // The list

  class SortedLinkedList {
    /** The largest value, 0 when the list is empty. */
    var head: nat
    /** The smallest value, 0 when the list is empty. */
    var tail: nat
    var count: nat
    /** For each value in the list, the next larger value (0 at the head). */
    var nextOf: map<nat, nat>
    /** For each value in the list, the next smaller value (0 at the tail). */
    var prevOf: map<nat, nat>
    /** The values from tail to head. */
    ghost var Contents: seq<nat>

    ghost predicate Valid()
      reads this
    {
      Linked(Contents, nextOf, prevOf, head, tail) && count == |Contents|
    }

    ghost function Elements(): set<nat>
      reads this
    {
      Elems(Contents)
    }

    constructor ()
      ensures Valid() && Contents == []
    {
      head, tail, count := 0, 0, 0;
      nextOf, prevOf := map[], map[];
      Contents := [];
    }

    /** isEmpty */
    function IsEmpty(): (b: bool)
      requires Valid()
      reads this
      ensures b <==> Elements() == {}
    {
      assert Contents != [] ==> Contents[0] in Elements();
      count == 0
    }

    /** getCount: the number of values held. */
    function GetCount(): (n: nat)
      requires Valid()
      reads this
      ensures n == |Elements()|
    {
      AscendingIncreasing(Contents);
      IncreasingCard(Contents);
      count
    }

    /** contains */
    function Contains(v: nat): (b: bool)
      requires Valid()
      reads this
      ensures b <==> v in Elements()
    {
      v in nextOf
    }

    /** getHead: the largest value; fails on an empty list. */
    function GetHead(): (r: Result<nat, ListError>)
      requires Valid()
      reads this
      ensures r.Err? <==> Elements() == {}
      ensures r.Ok? ==> r.value in Elements() && forall x :: x in Elements() ==> x <= r.value
    {
      if count == 0 then Err(EmptyList)
      else
        AscendingIncreasing(Contents);
        assert Contents[0] in Elements() && Contents[|Contents| - 1] in Elements();
        assert forall x :: x in Elements() ==> x <= head by {
          forall x | x in Elements() ensures x <= head { EndsAreExtremes(Contents, x); }
        }
        Ok(head)
    }

    /** getTail: the smallest value; fails on an empty list. */
    function GetTail(): (r: Result<nat, ListError>)
      requires Valid()
      reads this
      ensures r.Err? <==> Elements() == {}
      ensures r.Ok? ==> r.value in Elements() && forall x :: x in Elements() ==> r.value <= x
    {
      if count == 0 then Err(EmptyList)
      else
        AscendingIncreasing(Contents);
        assert Contents[0] in Elements();
        assert forall x :: x in Elements() ==> tail <= x by {
          forall x | x in Elements() ensures tail <= x { EndsAreExtremes(Contents, x); }
        }
        Ok(tail)
    }

    /** hasNext: whether v is in the list with a larger value after it. */
    function HasNext(v: nat): (b: bool)
      requires Valid()
      reads this
      ensures b <==> v in Elements() && exists x :: x in Elements() && v < x
    {
      if v in nextOf then
        NextLink(Contents, nextOf, prevOf, head, tail, v);
        nextOf[v] != 0
      else false
    }

    /** hasPrev: whether v is in the list with a smaller value before it. */
    function HasPrev(v: nat): (b: bool)
      requires Valid()
      reads this
      ensures b <==> v in Elements() && exists x :: x in Elements() && x < v
    {
      if v in prevOf then
        PrevLink(Contents, nextOf, prevOf, head, tail, v);
        prevOf[v] != 0
      else false
    }

    /** getNext: the least value above v; fails when v is absent or the head. */
    function GetNext(v: nat): (r: Result<nat, ListError>)
      requires Valid()
      reads this
      ensures r.Ok? <==> HasNext(v)
      ensures r.Ok? ==> r.value in Elements() && v < r.value
      ensures r.Ok? ==> forall x :: x in Elements() && v < x ==> r.value <= x
    {
      if v !in nextOf then Err(NotInList)
      else
        NextLink(Contents, nextOf, prevOf, head, tail, v);
        if nextOf[v] == 0 then Err(NoNext) else Ok(nextOf[v])
    }

    /** getPrev: the greatest value below v; fails when v is absent or the tail. */
    function GetPrev(v: nat): (r: Result<nat, ListError>)
      requires Valid()
      reads this
      ensures r.Ok? <==> HasPrev(v)
      ensures r.Ok? ==> r.value in Elements() && r.value < v
      ensures r.Ok? ==> forall x :: x in Elements() && x < v ==> x <= r.value
    {
      if v !in prevOf then Err(NotInList)
      else
        PrevLink(Contents, nextOf, prevOf, head, tail, v);
        if prevOf[v] == 0 then Err(NoPrev) else Ok(prevOf[v])
    }

    /** tryGetNext: like getNext, but 0 at the head; fails only when v is absent. */
    function TryGetNext(v: nat): (r: Result<nat, ListError>)
      requires Valid()
      reads this
      ensures r.Err? <==> v !in Elements()
      ensures r.Ok? ==> (r.value == 0 <==> !HasNext(v))
      ensures r.Ok? && r.value != 0 ==> GetNext(v) == Ok(r.value)
    {
      if v !in nextOf then Err(NotInList)
      else Ok(nextOf[v])
    }

    /** tryGetPrev: like getPrev, but 0 at the tail; fails only when v is absent. */
    function TryGetPrev(v: nat): (r: Result<nat, ListError>)
      requires Valid()
      reads this
      ensures r.Err? <==> v !in Elements()
      ensures r.Ok? ==> (r.value == 0 <==> !HasPrev(v))
      ensures r.Ok? && r.value != 0 ==> GetPrev(v) == Ok(r.value)
    {
      if v !in prevOf then Err(NotInList)
      else Ok(prevOf[v])
    }

    /**
      remove: unlinks v and joins its neighbours, moving the head or tail when v
      was at an end; returns whether v was there.
     */
    method Remove(v: nat) returns (removed: bool)
      requires Valid()
      modifies this
      ensures Valid()
      ensures removed <==> v in old(Elements())
      ensures Elements() == old(Elements()) - {v}
      ensures !removed ==> unchanged(this)
    {
      if v !in nextOf {
          return false;
      }
      ghost var k := RemoveStep(Contents, nextOf, prevOf, head, tail, v);
      var below, above := prevOf[v], nextOf[v];
      nextOf, prevOf, head, tail, count, Contents :=
        Unlink(nextOf, v, below, above), Unlink(prevOf, v, above, below),
        NewEnd(head, above, below), NewEnd(tail, below, above),
        count - 1, DeleteAt(Contents, k);
      return true;
    }

    /** The first hint that is in the list, or the tail when there is none. */
    method FindStart(hints: seq<nat>) returns (start: nat)
      requires Valid() && count > 0
      ensures start in Elements()
      ensures (exists h :: 0 <= h < |hints| && hints[h] in Elements()) ==> start in hints
      ensures start !in hints ==> start == tail
    {
      var h := 0;
      while h < |hints| && hints[h] !in nextOf
        invariant 0 <= h <= |hints|
        invariant forall i :: 0 <= i < h ==> hints[i] !in Elements()
      {
        h := h + 1;
      }
      if h < |hints| {
        start := hints[h];
      } else {
        start := tail;
      }
    }

    /**
      The walk of add(): from start, up the next links while they stay below v or
      down the prev links while they stay above v; it ends at the two neighbours
      v is to be linked between (0 standing for an end of the list).
     */
    method Locate(v: nat, start: nat) returns (below: nat, above: nat, ghost p: nat)
      requires Valid() && v != 0 && v !in Elements() && start in Elements()
      ensures p <= |Contents|
      ensures below == (if p > 0 then Contents[p - 1] else 0)
      ensures above == (if p < |Contents| then Contents[p] else 0)
      ensures p > 0 ==> below < v
      ensures p < |Contents| ==> v < above
    {
      ghost var j :| 0 <= j < |Contents| && Contents[j] == start;
      var cur := start;
      if cur < v {
        while nextOf[cur] != 0 && nextOf[cur] < v
          invariant 0 <= j < |Contents| && Contents[j] == cur && cur < v
          decreases |Contents| - j
        {
          assert nextOf[Contents[j]] == Succ(Contents, j);
          cur := nextOf[cur];
          j := j + 1;
        }
        assert nextOf[Contents[j]] == Succ(Contents, j);
        below, above, p := cur, nextOf[cur], j + 1;
      } else {
        assert cur != v;
        while prevOf[cur] != 0 && v < prevOf[cur]
          invariant 0 <= j < |Contents| && Contents[j] == cur && v < cur
          decreases j
        {
          assert prevOf[Contents[j]] == Pred(Contents, j);
          cur := prevOf[cur];
          j := j - 1;
        }
        assert prevOf[Contents[j]] == Pred(Contents, j);
        below, above, p := prevOf[cur], cur, j;
      }
    }

    /** Links v in between its neighbours below and above, at position p of the contents. */
    method LinkIn(v: nat, below: nat, above: nat, ghost p: nat)
      requires Valid() && v != 0 && p <= |Contents|
      requires below == (if p > 0 then Contents[p - 1] else 0)
      requires above == (if p < |Contents| then Contents[p] else 0)
      requires p > 0 ==> below < v
      requires p < |Contents| ==> v < above
      modifies this
      ensures Valid()
      ensures Elements() == old(Elements()) + {v}
    {
      InsertStep(Contents, nextOf, prevOf, head, tail, v, p, below, above);
      nextOf, prevOf, head, tail, count, Contents :=
        Link(nextOf, v, above, below), Link(prevOf, v, below, above),
        NewEnd(head, above, v), NewEnd(tail, below, v),
        count + 1, InsertAt(Contents, v, p);
    }

    /**
      add(value, hints): rejects 0; a value already present is removed first; the
      walk for the insertion point starts at the first hint that is in the list
      (the tail when there is none) and moves up or down the links.
     */
    method Add(v: nat, hints: seq<nat>) returns (ok: bool)
      requires Valid()
      modifies this
      ensures Valid()
      ensures ok <==> v != 0
      ensures ok ==> Elements() == old(Elements()) + {v}
      ensures !ok ==> unchanged(this)
    {
      if v == 0 {
        return false;
      }
      var wasThere := Remove(v);
      var below, above: nat;
      ghost var p: nat;
      if count == 0 {
        below, above, p := 0, 0, 0;
      } else {
        var start := FindStart(hints);
        below, above, p := Locate(v, start);
      }
      LinkIn(v, below, above, p);
      return true;
    }

    /** The getPrev walk from the head: the contents from the largest value down. */
    method WalkDown() returns (down: seq<nat>)
      requires Valid() && Contents != []
      ensures down == Reverse(Contents)
    {
      var n := |Contents|;
      var val := GetHead().value;
      down := [val];
      ghost var j := n - 1;
      while HasPrev(val)
        invariant 0 <= j < n && val == Contents[j]
        invariant |down| == n - j
        invariant forall i :: 0 <= i < |down| ==> down[i] == Contents[n - 1 - i]
        decreases j
      {
        assert prevOf[Contents[j]] == Pred(Contents, j);
        val := GetPrev(val).value;
        down := down + [val];
        j := j - 1;
      }
      assert prevOf[Contents[j]] == Pred(Contents, j);
      assert down == Reverse(Contents);
    }

    /** The getNext walk from the tail: the contents from the smallest value up. */
    method WalkUp() returns (up: seq<nat>)
      requires Valid() && Contents != []
      ensures up == Contents
    {
      var n := |Contents|;
      var val := GetTail().value;
      up := [val];
      ghost var j := 0;
      while HasNext(val)
        invariant 0 <= j < n && val == Contents[j]
        invariant up == Contents[..j + 1]
        decreases n - j
      {
        assert nextOf[Contents[j]] == Succ(Contents, j);
        val := GetNext(val).value;
        up := up + [val];
        j := j + 1;
      }
      assert nextOf[Contents[j]] == Succ(Contents, j);
    }

    /**
      The order check run after every operation: walk getPrev from the head,
      each value below the one before, then getNext from the tail, each value
      above the one before.  Fails, like getHead, on an empty list.
     */
    method OrderValidation() returns (r: Result<Walks, ListError>)
      requires Valid()
      ensures r.Err? <==> Elements() == {}
      ensures r.Ok? ==> r.value.up == Contents && r.value.down == Reverse(Contents)
      ensures r.Ok? ==> Increasing(r.value.up)
      ensures r.Ok? ==> forall i, j :: 0 <= i < j < |r.value.down| ==> r.value.down[i] > r.value.down[j]
    {
      var first := GetHead();
      if first.Err? {
        return Err(first.error);
      }
      var down := WalkDown();
      var up := WalkUp();
      ReverseDecreasing(Contents);
      return Ok(Walks(down, up));
    }
  }
}
