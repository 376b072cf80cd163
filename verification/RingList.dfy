/**
 * The circular doubly linked list of components/include/list.h: a head and its elements are one ring of nodes, and
 * the operations change the sequence of that ring and nothing else.
 */
module RingList {
  import opened Sequences

  /** struct list_head, as INIT_LIST_HEAD leaves it. */
  class Node {
    var next: Node
    var prev: Node

    constructor ()
      ensures Ring([this])
    {
      next := this;
      prev := this;
      new;
      assert LinkAt([this], 0);
    }
  }

  function After(n: nat, i: nat): nat {
    if i + 1 == n then 0 else i + 1
  }

  ghost predicate LinkAt(r: seq<Node>, i: nat)
    requires i < |r|
    reads r
  {
    r[i].next == r[After(|r|, i)] && r[After(|r|, i)].prev == r[i]
  }

  /** The nodes in order, next and prev being each other's inverse all the way round. */
  ghost predicate Ring(r: seq<Node>)
    reads r
  {
    r != [] && Distinct(r) && forall i :: 0 <= i < |r| ==> LinkAt(r, i)
  }

  // ----- what a ring says

  /** The heap determines the sequence that starts at a node. */
  lemma RingUnique(r: seq<Node>, s: seq<Node>)
    requires Ring(r) && Ring(s) && r[0] == s[0]
    ensures r == s
  {
    if |r| <= |s| {
      SamePrefix(r, s, |r|);
    } else {
      SamePrefix(s, r, |s|);
    }
  }

  lemma {:induction false} SamePrefix(r: seq<Node>, s: seq<Node>, k: nat)
    requires Ring(r) && Ring(s) && r[0] == s[0] && k <= |r| <= |s|
    ensures forall i :: 0 <= i < k ==> r[i] == s[i]
    ensures k == |r| ==> |s| == |r|
  {
    if k > 1 {
      SamePrefix(r, s, k - 1);
      assert LinkAt(r, k - 2) && LinkAt(s, k - 2);
    }
    if k == |r| {
      assert LinkAt(r, k - 1);
      if |r| < |s| {
        NotBackYet(s, k - 1);
      }
    }
  }

  lemma NotBackYet(s: seq<Node>, i: nat)
    requires Ring(s) && i + 1 < |s|
    ensures s[i].next != s[0]
  {
    assert LinkAt(s, i);
  }

  /** A ring can be read from any of its nodes. */
  lemma Rotate(r: seq<Node>, k: nat)
    requires Ring(r) && k < |r|
    ensures Ring(r[k..] + r[..k])
  {
    var s := r[k..] + r[..k];
    forall i | 0 <= i < |s| ensures LinkAt(s, i) {
      assert LinkAt(r, if i + k < |r| then i + k else i + k - |r|);
    }
  }

  // ----- the lists of a program

  /** The ring of a head: the head, then its elements. */
  function RingAt(m: map<Node, seq<Node>>, h: Node): seq<Node>
    requires h in m
  {
    [h] + m[h]
  }

  ghost predicate Apart(m: map<Node, seq<Node>>) {
    forall h, g, x :: h in m && g in m && x in RingAt(m, h) && x in RingAt(m, g) ==> h == g
  }

  ghost function Nodes(m: map<Node, seq<Node>>): (s: set<Node>)
    ensures forall h, x :: h in m && x in RingAt(m, h) ==> x in s
  {
    set h, x | h in m && x in RingAt(m, h) :: x
  }

  /** The heap holds the lists of m, head by head, and no node is in two of them. */
  ghost predicate Lists(m: map<Node, seq<Node>>)
    reads Nodes(m)
  {
    Apart(m) && forall h :: h in m ==> Ring(RingAt(m, h))
  }

  /** A node in no list, or one that heads an empty list, as list_del_init leaves it. */
  ghost predicate Free(m: map<Node, seq<Node>>, entry: Node) {
    (forall h :: h in m && h != entry ==> entry !in RingAt(m, h)) && (entry in m ==> m[entry] == [])
  }

  function Without(r: seq<Node>, k: nat): seq<Node>
    requires k < |r|
  {
    r[..k] + r[k + 1..]
  }

  function Added(m: map<Node, seq<Node>>, head: Node, entry: Node, front: bool): map<Node, seq<Node>>
    requires head in m && head != entry
  {
    (m - {entry})[head := if front then [entry] + m[head] else m[head] + [entry]]
  }

  function Removed(m: map<Node, seq<Node>>, head: Node, k: nat): map<Node, seq<Node>>
    requires head in m && k < |m[head]|
  {
    m[head := Without(m[head], k)]
  }

  // ----- the code

  /** list_empty: exactly when the head has no elements. */
  method ListEmpty(head: Node, ghost m: map<Node, seq<Node>>) returns (empty: bool)
    requires Lists(m) && head in m
    ensures empty <==> m[head] == []
  {
    assert LinkAt(RingAt(m, head), 0);
    return head.next == head;
  }

  // __list_add between the node at place k and the one after it
  method AddBetween(entry: Node, prev: Node, next: Node, ghost r: seq<Node>, ghost k: nat)
    requires Ring(r) && k < |r| && entry !in r && prev == r[k] && next == r[After(|r|, k)]
    modifies entry, prev`next, next`prev
    ensures Ring(r[..k + 1] + [entry] + r[k + 1..])
  {
    next.prev := entry;
    entry.next := next;
    entry.prev := prev;
    prev.next := entry;
    ghost var s := r[..k + 1] + [entry] + r[k + 1..];
    forall i | 0 <= i < |s| ensures LinkAt(s, i) {
      if i < k || i > k + 1 {
        assert old(LinkAt(r, if i < k then i else i - 1));
      }
    }
  }

  /** list_add: the entry becomes the first element; every other list stays. */
  method ListAdd(entry: Node, head: Node, ghost m: map<Node, seq<Node>>)
    requires Lists(m) && head in m && head != entry && Free(m, entry)
    modifies entry, head`next, head.next`prev
    ensures Lists(Added(m, head, entry, true))
  {
    hide Lists, Apart, Free, Added, Ring, Beside;
    HeadLinks(m, head);
    AddedLists(m, head, entry, true);
    ghost var written := {entry} + Members(RingAt(m, head));
    AddBetween(entry, head, head.next, RingAt(m, head), 0);
    OthersStay(m, Added(m, head, entry, true), head, written);
  }

  /** list_add_tail: the entry becomes the last element; every other list stays. */
  method ListAddTail(entry: Node, head: Node, ghost m: map<Node, seq<Node>>)
    requires Lists(m) && head in m && head != entry && Free(m, entry)
    modifies entry, head`prev, head.prev`next
    ensures Lists(Added(m, head, entry, false))
  {
    hide Lists, Apart, Free, Added, Ring, Beside;
    HeadLinks(m, head);
    AddedLists(m, head, entry, false);
    ghost var written := {entry} + Members(RingAt(m, head));
    AddBetween(entry, head.prev, head, RingAt(m, head), |RingAt(m, head)| - 1);
    OthersStay(m, Added(m, head, entry, false), head, written);
  }

  lemma HeadLinks(m: map<Node, seq<Node>>, head: Node)
    requires Lists(m) && head in m
    ensures var r := RingAt(m, head);
      Ring(r) && Apart(m) && r != [] && head == r[0] && head.next in r && head.prev in r
      && head.next == r[After(|r|, 0)] && head.prev == r[|r| - 1] && After(|r|, |r| - 1) == 0
  {
    var r := RingAt(m, head);
    assert LinkAt(r, 0) && LinkAt(r, |r| - 1);
  }

  function Members(r: seq<Node>): set<Node> {
    set x | x in r
  }

  // What an operation on the list of head leaves for OthersStay to use.
  ghost predicate Beside(m: map<Node, seq<Node>>, after: map<Node, seq<Node>>, head: Node, written: set<Node>) {
    Apart(after) && head in after
    && forall h :: h in after && h != head ==>
      (h in m && m[h] == after[h] && forall x :: x in RingAt(m, h) ==> x !in written)
  }

  lemma AddedLists(m: map<Node, seq<Node>>, head: Node, entry: Node, front: bool)
    requires Apart(m) && head in m && head != entry && Free(m, entry)
    ensures var (after, r) := (Added(m, head, entry, front), RingAt(m, head));
      entry !in r && |r| > 0 && Beside(m, after, head, {entry} + Members(r))
      && RingAt(after, head) == (if front then r[..0 + 1] + [entry] + r[0 + 1..]
        else r[..|r| - 1 + 1] + [entry] + r[|r| - 1 + 1..])
  {
    AddedApart(m, head, entry, front);
    OutOfReach(m, head, entry);
    hide Apart, Free;
    var r := RingAt(m, head);
    assert r[..0 + 1] == [head] && r[..|r| - 1 + 1] == r && r[|r| - 1 + 1..] == [];
  }

  lemma OutOfReach(m: map<Node, seq<Node>>, head: Node, entry: Node)
    requires Apart(m) && head in m && head != entry && Free(m, entry)
    ensures entry !in RingAt(m, head)
    ensures forall h, x :: h in m && h != head && h != entry && x in RingAt(m, h) ==>
      x !in {entry} + Members(RingAt(m, head))
  {
  }

  lemma AddedApart(m: map<Node, seq<Node>>, head: Node, entry: Node, front: bool)
    requires Apart(m) && head in m && head != entry && Free(m, entry)
    ensures Apart(Added(m, head, entry, front))
  {
    var after := Added(m, head, entry, front);
    assert forall x :: x in RingAt(after, head) <==> x == entry || x in RingAt(m, head);
    assert forall h :: h in after && h != head ==> RingAt(after, h) == RingAt(m, h);
  }

  // Lists whose nodes were not written are still there.
  twostate lemma OthersStay(
    m: map<Node, seq<Node>>, new after: map<Node, seq<Node>>, new head: Node, new written: set<Node>)
    requires old(Lists(m)) && Beside(m, after, head, written) && Ring(RingAt(after, head))
    requires forall x :: x in Nodes(m) && x !in written ==> unchanged(x)
    ensures Lists(after)
  {
    forall h | h in after && h != head ensures Ring(RingAt(after, h)) {
      RingStays(RingAt(m, h));
    }
  }

  twostate lemma RingStays(r: seq<Node>)
    requires old(Ring(r)) && (forall x :: x in r ==> unchanged(x))
    ensures Ring(r)
  {
    forall i | 0 <= i < |r| ensures LinkAt(r, i) {
      assert old(LinkAt(r, i));
      var j := After(|r|, i);
      assert r[i] in r && r[j] in r;
    }
  }

  // __list_del around the node at place k
  method DelBetween(prev: Node, next: Node, ghost r: seq<Node>, ghost k: nat)
    requires Ring(r) && k < |r| && prev == r[k].prev && next == r[k].next
    modifies prev`next, next`prev
    ensures |r| > 1 ==> Ring(Without(r, k)) && r[k].next == old(r[k].next) && r[k].prev == old(r[k].prev)
    ensures |r| == 1 ==> Ring(r)
    ensures next.prev == prev && prev.next == next
  {
    ghost var n := |r|;
    ghost var before := if k == 0 then n - 1 else k - 1;
    assert LinkAt(r, k) && LinkAt(r, before);
    next.prev := prev;
    prev.next := next;
    ghost var s := Without(r, k);
    WithoutAt(r, k);
    forall i | 0 <= i < |s| ensures LinkAt(s, i) {
      ghost var j := if i < k then i else i + 1;
      assert old(LinkAt(r, j));
      assert s[After(|s|, i)] == if j == before then r[After(n, k)] else r[After(n, j)];
    }
  }

  lemma WithoutAt(r: seq<Node>, k: nat)
    requires k < |r| && Distinct(r)
    ensures Distinct(Without(r, k))
    ensures forall i :: 0 <= i < |r| - 1 ==> Without(r, k)[i] == r[if i < k then i else i + 1]
  {
  }

  /**
   * list_del of the node at place k of the ring of a head. An element leaves its list, and every other list stays.
   * A head taken out is no list any more: its elements close up to a ring of their own, and as it keeps its links
   * it does not become empty either, unless it was.
   */
  method ListDel(entry: Node, ghost m: map<Node, seq<Node>>, ghost head: Node, ghost k: nat)
    requires Lists(m) && head in m && k <= |m[head]| && entry == RingAt(m, head)[k]
    modifies entry.prev`next, entry.next`prev
    ensures k > 0 ==> Lists(Removed(m, head, k - 1)) && entry.next == old(entry.next) && entry.prev == old(entry.prev)
    ensures k == 0 ==> Lists(m - {head}) && (entry.next == entry <==> m[head] == [])
    ensures k == 0 && m[head] != [] ==> Ring(m[head]) && entry.next == m[head][0]
  {
    hide Lists, Apart, Removed, Ring, Beside;
    ghost var r, written := RingAt(m, head), Members(RingAt(m, head));
    RingLinks(m, head, k);
    if k > 0 {
      RemovedLists(m, head, k - 1);
    }
    DelBetween(entry.prev, entry.next, r, k);
    if k > 0 {
      OthersStay(m, Removed(m, head, k - 1), head, written);
    } else {
      HeadGone(m, head);
    }
  }

  lemma RingLinks(m: map<Node, seq<Node>>, head: Node, k: nat)
    requires Lists(m) && head in m && k <= |m[head]|
    ensures var r := RingAt(m, head);
      && Ring(r) && Apart(m) && r[k].next == r[After(|r|, k)] && r[k].next in r && r[k].prev in r
      && (r[k].next == r[k] <==> |r| == 1)
      && (k == 0 && |r| > 1 ==> Without(r, 0) == m[head] && r[k].next == m[head][0])
  {
    var r := RingAt(m, head);
    var before := if k == 0 then |r| - 1 else k - 1;
    assert LinkAt(r, k) && LinkAt(r, before);
    assert r[After(|r|, k)] in r && r[before] in r;
  }

  twostate lemma HeadGone(m: map<Node, seq<Node>>, new head: Node)
    requires old(Lists(m)) && head in m
    requires forall x :: x in Nodes(m) && x !in Members(RingAt(m, head)) ==> unchanged(x)
    ensures Lists(m - {head})
  {
    var after := m - {head};
    forall h | h in after ensures RingAt(after, h) == RingAt(m, h) && Ring(RingAt(after, h)) {
      assert forall x :: x in RingAt(m, h) ==> x in Nodes(m) && x !in Members(RingAt(m, head));
      RingStays(RingAt(m, h));
    }
  }

  /** list_del_init: exactly the one element leaves its list and heads an empty one; every other list stays. */
  method ListDelInit(entry: Node, ghost m: map<Node, seq<Node>>, ghost head: Node, ghost k: nat)
    requires Lists(m) && head in m && k < |m[head]| && m[head][k] == entry
    modifies entry, entry.prev`next, entry.next`prev
    ensures Lists(Removed(m, head, k)[entry := []])
  {
    hide Lists, Apart, Removed, Ring, Beside;
    RemovedLists(m, head, k);
    ghost var r, written := RingAt(m, head), Members(RingAt(m, head));
    DelBetween(entry.prev, entry.next, r, k + 1);
    OthersStay(m, Removed(m, head, k), head, written);
    label closed:
    entry.next := entry;
    entry.prev := entry;
    Alone(entry);
    InitStays@closed(Removed(m, head, k), entry);
  }

  // INIT_LIST_HEAD on a node of no list
  twostate lemma InitStays(m: map<Node, seq<Node>>, new entry: Node)
    requires old(Lists(m)) && Ring([entry]) && entry !in Nodes(m)
    requires forall x :: x in Nodes(m) ==> unchanged(x)
    ensures Lists(m[entry := []])
  {
    var after := m[entry := []];
    assert RingAt(after, entry) == [entry];
    forall h | h in after && h != entry ensures RingAt(after, h) == RingAt(m, h) && Ring(RingAt(after, h)) {
      assert forall x :: x in RingAt(m, h) ==> x in Nodes(m);
      RingStays(RingAt(m, h));
    }
  }

  lemma Alone(entry: Node)
    requires entry.next == entry && entry.prev == entry
    ensures Ring([entry])
  {
    assert LinkAt([entry], 0);
  }

  lemma RemovedLists(m: map<Node, seq<Node>>, head: Node, k: nat)
    requires Lists(m) && head in m && k < |m[head]|
    ensures var (after, r, entry) := (Removed(m, head, k), RingAt(m, head), m[head][k]);
      Ring(r) && r[k + 1] == entry && entry.prev in r && entry.next in r && entry !in Nodes(after)
      && Apart(m) && head in after && RingAt(after, head) == Without(r, k + 1) && Beside(m, after, head, Members(r))
  {
    var after, r := Removed(m, head, k), RingAt(m, head);
    assert LinkAt(r, k) && LinkAt(r, k + 1);
    assert RingAt(after, head) == Without(r, k + 1);
    assert forall x :: x in Without(r, k + 1) ==> x in r && x != r[k + 1];
    assert forall h :: h in after && h != head ==> RingAt(after, h) == RingAt(m, h);
  }

  /** list_move_tail: taken out of where it is, appended to the given list, the same or another. */
  method ListMoveTail(list: Node, head: Node, ghost m: map<Node, seq<Node>>, ghost from: Node, ghost k: nat)
    requires Lists(m) && from in m && k < |m[from]| && m[from][k] == list && head in m
    modifies list, list.prev`next, list.next`prev, head`prev, head.prev`next
    ensures Lists(Moved(m, from, k, head))
  {
    hide Lists, Apart, Removed, Ring, Beside;
    RemovedLists(m, from, k);
    ghost var r, written := RingAt(m, from), Members(RingAt(m, from));
    DelBetween(list.prev, list.next, r, k + 1);
    OthersStay(m, Removed(m, from, k), from, written);
    MovedIsAdded(m, from, k, head);
    ListAddTail(list, head, Removed(m, from, k));
  }

  lemma MovedIsAdded(m: map<Node, seq<Node>>, from: Node, k: nat, head: Node)
    requires Apart(m) && from in m && k < |m[from]| && head in m && m[from][k] !in Nodes(Removed(m, from, k))
    ensures var (rest, list) := (Removed(m, from, k), m[from][k]);
      head != list && Free(rest, list) && head in rest && Added(rest, head, list, false) == Moved(m, from, k, head)
  {
    var rest, list := Removed(m, from, k), m[from][k];
    forall h | h in rest ensures list !in RingAt(rest, h) && list != h {
      assert h in RingAt(rest, h);
    }
    assert rest - {list} == rest;
  }

  function Moved(m: map<Node, seq<Node>>, from: Node, k: nat, head: Node): map<Node, seq<Node>>
    requires from in m && k < |m[from]| && head in m
  {
    var rest := Removed(m, from, k);
    rest[head := rest[head] + [m[from][k]]]
  }

  // ----- what the operations mean together

  /** The heap determines every list from its head. */
  lemma ListsUnique(m: map<Node, seq<Node>>, n: map<Node, seq<Node>>)
    requires Lists(m) && Lists(n) && m.Keys == n.Keys
    ensures m == n
  {
    forall h | h in m ensures m[h] == n[h] {
      RingUnique(RingAt(m, h), RingAt(n, h));
      assert m[h] == RingAt(m, h)[1..] && n[h] == RingAt(n, h)[1..];
    }
  }

  /** list_del_init undoes list_add and list_add_tail, but for the entry now heading an empty list. */
  lemma AddThenRemove(m: map<Node, seq<Node>>, head: Node, entry: Node, front: bool)
    requires head in m && head != entry && Free(m, entry)
    ensures var (after, k) := (Added(m, head, entry, front), if front then 0 else |m[head]|);
      after[head][k] == entry && Removed(after, head, k)[entry := []] == m[entry := []]
  {
    var after, k := Added(m, head, entry, front), if front then 0 else |m[head]|;
    assert Without(after[head], k) == m[head];
  }

  /** Moving within a list permutes it, puts the node last and keeps the others in order. */
  lemma MovePermutes(m: map<Node, seq<Node>>, head: Node, k: nat)
    requires head in m && k < |m[head]|
    ensures var s := Moved(m, head, k, head)[head];
      multiset(s) == multiset(m[head]) && s[|s| - 1] == m[head][k] && s[..|s| - 1] == m[head][..k] + m[head][k + 1..]
  {
    var r := m[head];
    assert r == r[..k] + [r[k]] + r[k + 1..];
  }

  /** Moving to another list conserves the elements of the two together. */
  lemma MoveConserves(m: map<Node, seq<Node>>, from: Node, k: nat, head: Node)
    requires from in m && k < |m[from]| && head in m && from != head
    ensures var n := Moved(m, from, k, head);
      multiset(n[from]) + multiset(n[head]) == multiset(m[from]) + multiset(m[head])
  {
    var r := m[from];
    assert r == r[..k] + [r[k]] + r[k + 1..];
  }
}
