/**
 * Grid coordinates and search-tree nodes of the A* engine, with the
 * heuristic h, the ordering key f = g + h, and the parent-chain walk
 * used to read a finished path back.
 */
module Nodes {
  import opened Wrappers

  /** A grid cell (x, y). Equality is structural, so a State is used directly as a map key. */
  datatype State = State(x: int, y: int)

  /**
   * One discovered path: the State it reaches, the node it was extended from
   * (None for the start node) and its accumulated cost g.
   */
  datatype PathNode = PathNode(parent: Option<PathNode>, state: State, cost: nat)

  function Abs(n: int): nat
  {
    if n < 0 then -n else n
  }

  /** h: the Manhattan distance from a state to the goal. */
  function H(s: State, goal: State): (d: nat)
    ensures d == 0 <==> s == goal
  {
    Abs(s.x - goal.x) + Abs(s.y - goal.y)
  }

  /** Two cells are neighbours when they are one axis-aligned step apart. */
  predicate Adjacent(a: State, b: State)
  {
    H(a, b) == 1
  }

  /** f = g + h, the key by which nodes are ordered in the open set. */
  function F(n: PathNode, goal: State): (f: nat)
    ensures f >= n.cost
    ensures f == n.cost <==> n.state == goal
  {
    n.cost + H(n.state, goal)
  }

  /** For two nodes at the same state, comparing f is comparing g. */
  lemma SameStateOrder(a: PathNode, b: PathNode, goal: State)
    requires a.state == b.state
    ensures F(a, goal) < F(b, goal) <==> a.cost < b.cost
  {
  }

  /** The heuristic is consistent: one step changes h by at most one. */
  lemma HeuristicConsistent(a: State, b: State, goal: State)
    requires Adjacent(a, b)
    ensures H(a, goal) <= H(b, goal) + 1
  {
  }

  /** Every entry of a map of nodes is filed under its own state. */
  ghost predicate KeyedByState(m: map<State, PathNode>)
  {
    forall s :: s in m ==> m[s].state == s
  }

  /**
   * The walk from a node along its parent links: the node itself first,
   * the node without a parent (the start node) last.
   */
  function Backtrace(n: PathNode): (chain: seq<PathNode>)
    ensures |chain| >= 1 && chain[0] == n
    ensures chain[|chain| - 1].parent == None
    ensures forall i :: 0 <= i < |chain| - 1 ==> chain[i].parent == Some(chain[i + 1])
    decreases n
  {
    match n.parent
    case None => [n]
    case Some(p) => [n] + Backtrace(p)
  }

  /** The states of the walk, start first and the node's own state last. */
  function ReconstructPath(n: PathNode): (path: seq<State>)
    ensures |path| >= 1 && path[|path| - 1] == n.state
    decreases n
  {
    match n.parent
    case None => [n.state]
    case Some(p) => ReconstructPath(p) + [n.state]
  }

  /** The reconstructed path lists the states of the parent walk in reverse. */
  lemma {:induction false} ReconstructPathReversesWalk(n: PathNode)
    ensures |ReconstructPath(n)| == |Backtrace(n)|
    ensures forall i :: 0 <= i < |Backtrace(n)| ==>
      ReconstructPath(n)[i] == Backtrace(n)[|Backtrace(n)| - 1 - i].state
    decreases n
  {
    match n.parent
    case None =>
    case Some(p) =>
      ReconstructPathReversesWalk(p);
      var path, chain := ReconstructPath(n), Backtrace(n);
      assert path == ReconstructPath(p) + [n.state];
      assert chain == [n] + Backtrace(p);
  }
}
