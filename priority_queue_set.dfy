/**
 * The open set: a dictionary from State to node combined with a heap of the
 * same nodes ordered by f. The heap's array layout is not modelled; it is
 * the multiset of queued nodes, and popping yields some node of least f.
 */
module PriorityQueue {
  import opened Nodes

  /** Node m has the least f (towards `goal`) of all nodes in h. */
  predicate IsMinimum(m: PathNode, h: multiset<PathNode>, goal: State)
  {
    forall n :: n in h ==> F(m, goal) <= F(n, goal)
  }

  /** A non-empty heap has a node of least f. */
  lemma {:induction false} MinimumExists(h: multiset<PathNode>, goal: State)
    requires |h| > 0
    ensures exists m :: m in h && IsMinimum(m, h, goal)
    decreases |h|
  {
    var x :| x in h;
    var rest := h - multiset{x};
    if |rest| == 0 {
      assert h == multiset{x};
      assert IsMinimum(x, h, goal);
    } else {
      MinimumExists(rest, goal);
      var m :| m in rest && IsMinimum(m, rest, goal);
      assert forall n :: n in h ==> n == x || n in rest;
      if F(x, goal) <= F(m, goal) {
        assert IsMinimum(x, h, goal);
      } else {
        assert IsMinimum(m, h, goal);
      }
    }
  }

  /** No two items of the list are at the same state. */
  ghost predicate DistinctStates(items: seq<PathNode>)
  {
    forall i, j :: 0 <= i < j < |items| ==> items[i].state != items[j].state
  }

  /** The dictionary built from a list of items; a later item at the same state overwrites an earlier one. */
  function KeyedBy(items: seq<PathNode>): (m: map<State, PathNode>)
    ensures KeyedByState(m)
    ensures forall i :: 0 <= i < |items| ==> items[i].state in m
    ensures forall s :: s in m ==> m[s] in items
    ensures |items| > 0 ==> m[items[|items| - 1].state] == items[|items| - 1]
  {
    if items == [] then map[]
    else
      var last := items[|items| - 1];
      KeyedBy(items[..|items| - 1])[last.state := last]
  }

  /** Item i is the last one at its state among items. */
  predicate LastAtState(items: seq<PathNode>, i: int)
    requires 0 <= i < |items|
  {
    forall j :: i < j < |items| ==> items[j].state != items[i].state
  }

  /** As with a Python dict built from pairs, the last item at each state is the one kept. */
  lemma {:induction false} KeyedByLastWins(items: seq<PathNode>)
    ensures forall i :: 0 <= i < |items| && LastAtState(items, i) ==> KeyedBy(items)[items[i].state] == items[i]
  {
    if items != [] {
      var init, last := items[..|items| - 1], items[|items| - 1];
      KeyedByLastWins(init);
      forall i | 0 <= i < |items| && LastAtState(items, i)
        ensures KeyedBy(items)[items[i].state] == items[i]
      {
        if i < |items| - 1 {
          assert items[|items| - 1].state != items[i].state;
          assert init[i] == items[i];
          assert LastAtState(init, i);
        }
      }
    }
  }

  /** Adding an entry under a fresh key adds exactly that node to the values. */
  lemma ValuesInsert(m: map<State, PathNode>, n: PathNode)
    requires KeyedByState(m) && n.state !in m
    ensures n !in m.Values
    ensures multiset(m[n.state := n].Values) == multiset(m.Values) + multiset{n}
  {
    var m' := m[n.state := n];
    assert m'.Values == m.Values + {n} by {
      forall v | v in m'.Values ensures v in m.Values + {n} {
        var k :| k in m' && m'[k] == v;
        if k != n.state { assert k in m && m[k] == v; assert v in m.Values; }
      }
      forall v | v in m.Values ensures v in m'.Values {
        var k :| k in m && m[k] == v;
        assert k != n.state && m'[k] == v;
      }
      assert n.state in m' && m'[n.state] == n;
    }
  }

  /** Removing the entry at a key removes exactly its node from the values. */
  lemma ValuesRemove(m: map<State, PathNode>, s: State)
    requires KeyedByState(m) && s in m
    ensures multiset((m - {s}).Values) == multiset(m.Values) - multiset{m[s]}
  {
    var m' := m - {s};
    assert KeyedByState(m');
    assert m[s] !in m'.Values;
    assert m == m'[s := m[s]];
    ValuesInsert(m', m[s]);
  }

  /** Building the dictionary from items at distinct states keeps every item exactly once. */
  lemma {:induction false} KeyedByDistinct(items: seq<PathNode>)
    requires DistinctStates(items)
    ensures multiset(KeyedBy(items).Values) == multiset(items)
  {
    if items != [] {
      var init, last := items[..|items| - 1], items[|items| - 1];
      assert items == init + [last];
      KeyedByDistinct(init);
      forall s | s in KeyedBy(init) ensures s != last.state {
        var v := KeyedBy(init)[s];
        var k :| 0 <= k < |init| && init[k] == v;
        assert items[k] == v && k < |items| - 1;
      }
      ValuesInsert(KeyedBy(init), last);
    }
  }

  /** Each queued node is the entry for its state and is queued once: no stale duplicate can be popped. */
  lemma {:induction false} NoStaleEntries(entries: map<State, PathNode>, heap: multiset<PathNode>)
    requires KeyedByState(entries) && heap == multiset(entries.Values)
    ensures forall n :: n in heap ==> n.state in entries && entries[n.state] == n && heap[n] == 1
  {
    forall n | n in heap ensures n.state in entries && entries[n.state] == n && heap[n] == 1 {
      assert n in entries.Values;
      var k :| k in entries && entries[k] == n;
    }
  }

  class PriorityQueueSet {
    /** The goal towards which the h part of f is measured, fixing the order of the heap. */
    const Goal: State
    /** The dictionary from State to the open node at that State. */
    var Entries: map<State, PathNode>
    /** The heap of open nodes, as the multiset of its elements. */
    var Heap: multiset<PathNode>

    /** Heap and dictionary agree: the heap holds exactly the dictionary's values, one per State. */
    ghost predicate Valid()
      reads this
    {
      KeyedByState(Entries) && Heap == multiset(Entries.Values)
    }

    /** Creation from an initial list; the result is consistent when the list has no repeated State. */
    constructor (items: seq<PathNode>, goal: State)
      ensures Goal == goal && Entries == KeyedBy(items) && Heap == multiset(items)
      ensures DistinctStates(items) ==> Valid()
    {
      Goal := goal;
      Entries := KeyedBy(items);
      Heap := multiset(items);
      if DistinctStates(items) {
        KeyedByDistinct(items);
      }
    }

    /** has_item: the state is a key, or equivalently some queued node is at that state. */
    function HasItem(s: State): (b: bool)
      reads this
      requires Valid()
      ensures b <==> exists n :: n in Heap && n.state == s
    {
      NoStaleEntries(Entries, Heap);
      assert s in Entries ==> Entries[s] in Entries.Values;
      s in Entries
    }

    /** get_item: the queued node at a state the caller has checked is present. */
    function GetItem(s: State): (n: PathNode)
      reads this
      requires Valid() && s in Entries
      ensures n.state == s && n in Heap
    {
      assert Entries[s] in Entries.Values;
      Entries[s]
    }

    /** pop_smallest: remove and return a node of least f; its State leaves the dictionary. */
    method PopSmallest() returns (smallest: PathNode)
      requires Valid() && |Heap| > 0
      modifies this
      ensures Valid()
      ensures smallest in old(Heap) && IsMinimum(smallest, old(Heap), Goal)
      ensures smallest.state in old(Entries) && old(Entries)[smallest.state] == smallest
      ensures Heap == old(Heap) - multiset{smallest}
      ensures Entries == old(Entries) - {smallest.state}
    {
      MinimumExists(Heap, Goal);
      smallest :| smallest in Heap && IsMinimum(smallest, Heap, Goal);
      NoStaleEntries(Entries, Heap);
      ValuesRemove(Entries, smallest.state);
      Heap := Heap - multiset{smallest};
      Entries := Entries - {smallest.state};
    }

    /** add: insert the item only when its State is not yet a key. */
    method Add(item: PathNode)
      requires Valid()
      modifies this
      ensures Valid()
      ensures item.state in old(Entries) ==> Entries == old(Entries) && Heap == old(Heap)
      ensures item.state !in old(Entries) ==>
        Entries == old(Entries)[item.state := item] && Heap == old(Heap) + multiset{item}
    {
      if item.state !in Entries {
        ValuesInsert(Entries, item);
        Entries := Entries[item.state := item];
        Heap := Heap + multiset{item};
      }
    }

    /** replace: overwrite the entry for the item's State and rebuild the heap from the dictionary. */
    method Replace(item: PathNode)
      requires Valid()
      modifies this
      ensures Valid()
      ensures Entries == old(Entries)[item.state := item]
      ensures Heap == multiset(Entries.Values)
    {
      Entries := Entries[item.state := item];
      Heap := multiset(Entries.Values);
    }
  }
}
