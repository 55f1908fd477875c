/**
 * The relaxation done by expandPathNode for each successor, stated on the
 * values of the open set's dictionary and of the closed set: the
 * specification the engine's loop is proved against.
 */
module Relaxation {
  import opened Wrappers
  import opened Nodes
  import opened Grid

  /** The open set's dictionary and the closed set (Explored), as values. */
  datatype SearchSets = SearchSets(open: map<State, PathNode>, closed: map<State, PathNode>)

  /**
   * What the engine keeps true of its two sets: no State is both open and
   * closed, every entry is filed under its own State, and every node's g is
   * consistent along its parent links back to the start.
   */
  ghost predicate SetsInvariant(cm: CostTable, start: State, s: SearchSets)
    requires Rectangular(cm)
  {
    && s.open.Keys !! s.closed.Keys
    && KeyedByState(s.open) && KeyedByState(s.closed)
    && AllConsistent(cm, start, s.open) && AllConsistent(cm, start, s.closed)
  }

  predicate AllInBounds(cm: CostTable, options: seq<State>)
    requires |cm| > 0
  {
    forall t :: t in options ==> InBounds(cm, t)
  }

  /** The node that extends `parent` by one step onto `option`: its g is the parent's plus the cell's cost. */
  function Candidate(cm: CostTable, parent: PathNode, option: State): (c: PathNode)
    requires Rectangular(cm) && InBounds(cm, option)
    ensures c.parent == Some(parent) && c.state == option
    ensures c.cost >= parent.cost && (c.cost > parent.cost <==> Passable(cm, option))
  {
    PathNode(Some(parent), option, parent.cost + CellCost(cm, option))
  }

  /** Extending a consistent node onto a passable neighbour gives a consistent node. */
  lemma CandidateConsistent(cm: CostTable, start: State, parent: PathNode, option: State)
    requires Rectangular(cm) && Consistent(cm, start, parent)
    requires Adjacent(parent.state, option) && Passable(cm, option)
    ensures Consistent(cm, start, Candidate(cm, parent, option))
  {
  }

  /**
   * One iteration of the successor loop: an open entry is replaced, or a
   * closed entry reopened, only when the candidate's f is strictly smaller;
   * a State in neither set is added to the open set.
   */
  function RelaxOne(s: SearchSets, cand: PathNode, goal: State): (r: SearchSets)
    ensures r == s || (cand.state in r.open && r.open[cand.state] == cand)
    ensures s.open.Keys <= r.open.Keys && r.closed.Keys <= s.closed.Keys
  {
    var st := cand.state;
    if st in s.open then
      if F(cand, goal) < F(s.open[st], goal) then s.(open := s.open[st := cand]) else s
    else if st in s.closed then
      if F(cand, goal) < F(s.closed[st], goal) then SearchSets(s.open[st := cand], s.closed - {st}) else s
    else
      s.(open := s.open[st := cand])
  }

  /** The whole successor loop: RelaxOne for each option in turn. */
  function RelaxAll(cm: CostTable, s: SearchSets, parent: PathNode, options: seq<State>, goal: State): (r: SearchSets)
    requires Rectangular(cm) && AllInBounds(cm, options)
    ensures s.open.Keys <= r.open.Keys && r.closed.Keys <= s.closed.Keys
  {
    if options == [] then s
    else
      var last := options[|options| - 1];
      RelaxOne(RelaxAll(cm, s, parent, options[..|options| - 1], goal), Candidate(cm, parent, last), goal)
  }

  /** RelaxAll over one more option is RelaxOne applied to RelaxAll over the options before it. */
  lemma RelaxAllStep(cm: CostTable, s: SearchSets, parent: PathNode, options: seq<State>, i: nat, goal: State)
    requires Rectangular(cm) && AllInBounds(cm, options) && i < |options|
    ensures AllInBounds(cm, options[..i]) && AllInBounds(cm, options[..i + 1])
    ensures RelaxAll(cm, s, parent, options[..i + 1], goal) ==
      RelaxOne(RelaxAll(cm, s, parent, options[..i], goal), Candidate(cm, parent, options[i]), goal)
  {
    assert options[..i + 1][..i] == options[..i];
    assert forall t :: t in options[..i + 1] ==> t in options;
  }

  /** Closing a node whose State is not open keeps the invariant. */
  lemma CloseNodePreserves(cm: CostTable, start: State, s: SearchSets, n: PathNode)
    requires Rectangular(cm) && SetsInvariant(cm, start, s) && Consistent(cm, start, n)
    requires n.state !in s.open
    ensures SetsInvariant(cm, start, SearchSets(s.open, s.closed[n.state := n]))
  {
  }

  /**
   * A candidate is discarded exactly when its State is open with a cost no
   * greater than the candidate's, or closed (and not open) with such a cost.
   */
  lemma RelaxOneDiscards(s: SearchSets, cand: PathNode, goal: State)
    requires KeyedByState(s.open) && KeyedByState(s.closed)
    ensures RelaxOne(s, cand, goal) == s <==>
      || (cand.state in s.open && cand.cost >= s.open[cand.state].cost)
      || (cand.state !in s.open && cand.state in s.closed && cand.cost >= s.closed[cand.state].cost)
  {
    var st := cand.state;
    if st in s.open { SameStateOrder(cand, s.open[st], goal); }
    if st in s.closed { SameStateOrder(cand, s.closed[st], goal); }
    if st in s.open && cand.cost < s.open[st].cost {
      assert RelaxOne(s, cand, goal).open[st] == cand;
    } else if st !in s.open && st in s.closed && cand.cost < s.closed[st].cost {
      assert st !in RelaxOne(s, cand, goal).closed;
    } else if st !in s.open && st !in s.closed {
      assert st in RelaxOne(s, cand, goal).open;
    }
  }

  lemma RelaxOnePreserves(cm: CostTable, start: State, s: SearchSets, cand: PathNode, goal: State)
    requires Rectangular(cm) && SetsInvariant(cm, start, s) && Consistent(cm, start, cand)
    ensures SetsInvariant(cm, start, RelaxOne(s, cand, goal))
  {
    var st, r := cand.state, RelaxOne(s, cand, goal);
    assert r == s || r == SearchSets(s.open[st := cand], s.closed) || r == SearchSets(s.open[st := cand], s.closed - {st});
    assert r != s && st in s.closed ==> st !in s.open;
  }

  /** The successor loop keeps the sets disjoint, keyed by State and consistent along parent links. */
  lemma {:induction false} RelaxAllPreserves(cm: CostTable, start: State, s: SearchSets, parent: PathNode, options: seq<State>, goal: State)
    requires Rectangular(cm) && SetsInvariant(cm, start, s) && Consistent(cm, start, parent)
    requires StepsFrom(cm, parent.state, options)
    ensures AllInBounds(cm, options)
    ensures SetsInvariant(cm, start, RelaxAll(cm, s, parent, options, goal))
    decreases |options|
  {
    if options != [] {
      var init, last := options[..|options| - 1], options[|options| - 1];
      assert options[|options| - 1] == last;
      RelaxAllPreserves(cm, start, s, parent, init, goal);
      CandidateConsistent(cm, start, parent, last);
      RelaxOnePreserves(cm, start, RelaxAll(cm, s, parent, init, goal), Candidate(cm, parent, last), goal);
    }
  }

  /** What one iteration can change, in terms of costs. */
  lemma RelaxOneMonotone(s: SearchSets, cand: PathNode, goal: State)
    requires KeyedByState(s.open) && KeyedByState(s.closed)
    ensures var r := RelaxOne(s, cand, goal);
      && KeyedByState(r.open) && KeyedByState(r.closed)
      && (forall st :: st in s.open ==> st in r.open && r.open[st].cost <= s.open[st].cost)
      && (forall st :: st in s.closed ==>
            (st in r.closed && r.closed[st] == s.closed[st]) || (st in r.open && r.open[st].cost < s.closed[st].cost))
      && (forall st :: st in r.open ==> (st in s.open && r.open[st] == s.open[st]) || (st == cand.state && r.open[st] == cand))
      && (forall st :: st in r.closed ==> st in s.closed && r.closed[st] == s.closed[st])
      && (forall st :: st in s.closed && st != cand.state ==> st in r.closed)
  {
    var st := cand.state;
    if st in s.open { SameStateOrder(cand, s.open[st], goal); }
    if st in s.closed { SameStateOrder(cand, s.closed[st], goal); }
  }

  /**
   * Relaxation never makes things worse and changes only what it must:
   * an open State stays open and its cost never rises; a closed State either
   * keeps its node or is reopened with a strictly smaller cost; every open
   * entry that is new or different is the candidate built from `parent`
   * for one of the options; the closed set only loses States, and only
   * States among the options.
   */
  lemma {:induction false} RelaxAllMonotone(cm: CostTable, s: SearchSets, parent: PathNode, options: seq<State>, goal: State)
    requires Rectangular(cm) && AllInBounds(cm, options)
    requires KeyedByState(s.open) && KeyedByState(s.closed)
    ensures var r := RelaxAll(cm, s, parent, options, goal);
      && KeyedByState(r.open) && KeyedByState(r.closed)
      && (forall st :: st in s.open ==> st in r.open && r.open[st].cost <= s.open[st].cost)
      && (forall st :: st in s.closed ==>
            (st in r.closed && r.closed[st] == s.closed[st]) || (st in r.open && r.open[st].cost < s.closed[st].cost))
      && (forall st :: st in r.open ==>
            (st in s.open && r.open[st] == s.open[st]) || (st in options && r.open[st] == Candidate(cm, parent, st)))
      && (forall st :: st in r.closed ==> st in s.closed && r.closed[st] == s.closed[st])
      && (forall st :: st in s.closed && st !in options ==> st in r.closed)
    decreases |options|
  {
    if options != [] {
      var init, last := options[..|options| - 1], options[|options| - 1];
      assert forall t :: t in init ==> t in options;
      RelaxAllMonotone(cm, s, parent, init, goal);
      var mid := RelaxAll(cm, s, parent, init, goal);
      RelaxOneMonotone(mid, Candidate(cm, parent, last), goal);
    }
  }
}
