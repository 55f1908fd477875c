/**
 * The immutable cost map the engine searches, indexed [x][y]: cost 0 marks
 * an impassable cell. Successor generation and the consistency of g along
 * parent links are stated here.
 */
module Grid {
  import opened Wrappers
  import opened Nodes

  type CostTable = seq<seq<nat>>

  /** A non-empty map whose columns all have the length of the first (dimY). */
  predicate Rectangular(cm: CostTable)
  {
    |cm| > 0 && forall i :: 0 <= i < |cm| ==> |cm[i]| == |cm[0]|
  }

  predicate InBounds(cm: CostTable, s: State)
    requires |cm| > 0
  {
    0 <= s.x < |cm| && 0 <= s.y < |cm[0]|
  }

  function CellCost(cm: CostTable, s: State): nat
    requires Rectangular(cm) && InBounds(cm, s)
  {
    cm[s.x][s.y]
  }

  /** A cell that may be entered: inside the map and with nonzero cost. */
  predicate Passable(cm: CostTable, s: State)
    requires Rectangular(cm)
  {
    InBounds(cm, s) && CellCost(cm, s) != 0
  }

  /** The rank of the step from `from` to `to` in the order +x, -x, +y, -y. */
  function Direction(from: State, to: State): nat
  {
    if to == State(from.x + 1, from.y) then 0
    else if to == State(from.x - 1, from.y) then 1
    else if to == State(from.x, from.y + 1) then 2
    else 3
  }

  /** The four neighbours of a cell are exactly the cells one step away. */
  lemma NeighbourCases(s: State, t: State)
    ensures Adjacent(s, t) <==>
      t == State(s.x + 1, s.y) || t == State(s.x - 1, s.y) || t == State(s.x, s.y + 1) || t == State(s.x, s.y - 1)
  {
  }

  /** One guarded append of getOptions: the neighbour t when it is passable. */
  function OptionIf(cm: CostTable, t: State): (r: seq<State>)
    requires Rectangular(cm)
    ensures |r| <= 1
    ensures forall u :: u in r <==> u == t && Passable(cm, t)
  {
    if Passable(cm, t) then [t] else []
  }

  /**
   * getOptions: the passable neighbours of a cell, at most four of them,
   * appended in the order +x, -x, +y, -y. A cell is an option exactly when
   * it is a passable neighbour.
   */
  function GetOptions(cm: CostTable, s: State): (options: seq<State>)
    requires Rectangular(cm) && InBounds(cm, s)
    ensures |options| <= 4
    ensures forall t :: t in options <==> Adjacent(s, t) && Passable(cm, t)
  {
    var xPlus, xMinus, yPlus, yMinus := State(s.x + 1, s.y), State(s.x - 1, s.y), State(s.x, s.y + 1), State(s.x, s.y - 1);
    assert forall t :: Adjacent(s, t) <==> t in {xPlus, xMinus, yPlus, yMinus} by {
      forall t ensures Adjacent(s, t) <==> t in {xPlus, xMinus, yPlus, yMinus} { NeighbourCases(s, t); }
    }
    OptionIf(cm, xPlus) + OptionIf(cm, xMinus) + OptionIf(cm, yPlus) + OptionIf(cm, yMinus)
  }

  /** The states of a list appear in strictly increasing rank +x, -x, +y, -y as seen from s. */
  predicate InDirectionOrder(s: State, options: seq<State>)
  {
    forall i :: 0 < i < |options| ==> Direction(s, options[i - 1]) < Direction(s, options[i])
  }

  /** Appending the guarded option of rank k to a list ordered below k keeps it ordered. */
  lemma OrderAppend(cm: CostTable, s: State, a: seq<State>, t: State, k: nat)
    requires Rectangular(cm) && InDirectionOrder(s, a) && Direction(s, t) == k
    requires forall x :: x in a ==> Direction(s, x) < k
    ensures InDirectionOrder(s, a + OptionIf(cm, t))
    ensures forall x :: x in a + OptionIf(cm, t) ==> Direction(s, x) <= k
  {
    if Passable(cm, t) {
      var at := a + [t];
      assert forall i :: 0 <= i < |a| ==> at[i] == a[i];
      assert |a| > 0 ==> at[|a| - 1] in a;
    }
  }

  /** The options come in the order +x, -x, +y, -y. */
  lemma GetOptionsOrdered(cm: CostTable, s: State)
    requires Rectangular(cm) && InBounds(cm, s)
    ensures InDirectionOrder(s, GetOptions(cm, s))
  {
    var xPlus, xMinus, yPlus, yMinus := State(s.x + 1, s.y), State(s.x - 1, s.y), State(s.x, s.y + 1), State(s.x, s.y - 1);
    assert Direction(s, xPlus) == 0 && Direction(s, xMinus) == 1 && Direction(s, yPlus) == 2 && Direction(s, yMinus) == 3;
    var a := OptionIf(cm, xPlus);
    OrderAppend(cm, s, a, xMinus, 1);
    var ab := a + OptionIf(cm, xMinus);
    OrderAppend(cm, s, ab, yPlus, 2);
    var abc := ab + OptionIf(cm, yPlus);
    OrderAppend(cm, s, abc, yMinus, 3);
  }

  /** Every state of a list of successors is a passable neighbour of `from`. */
  predicate StepsFrom(cm: CostTable, from: State, options: seq<State>)
    requires Rectangular(cm)
  {
    forall t :: t in options ==> Adjacent(from, t) && Passable(cm, t)
  }

  /**
   * g is consistent along parent links: the chain ends at the start node
   * (state `start`, cost 0), every link is one step onto a passable cell,
   * and each node's cost is its parent's plus the cost of the cell entered.
   */
  predicate Consistent(cm: CostTable, start: State, n: PathNode)
    requires Rectangular(cm)
    decreases n
  {
    match n.parent
    case None => n.state == start && n.cost == 0 && InBounds(cm, start)
    case Some(p) =>
      && Consistent(cm, start, p)
      && Adjacent(p.state, n.state)
      && Passable(cm, n.state)
      && n.cost == p.cost + CellCost(cm, n.state)
  }

  /**
   * With the Manhattan heuristic and nonzero cell costs, f never decreases
   * from a node's parent to the node.
   */
  lemma FMonotoneAlongLink(cm: CostTable, start: State, n: PathNode, goal: State)
    requires Rectangular(cm) && Consistent(cm, start, n) && n.parent.Some?
    ensures F(n.parent.value, goal) <= F(n, goal)
  {
    HeuristicConsistent(n.parent.value.state, n.state, goal);
  }

  /** Every node of a map satisfies Consistent. */
  ghost predicate AllConsistent(cm: CostTable, start: State, m: map<State, PathNode>)
    requires Rectangular(cm)
  {
    forall s :: s in m ==> Consistent(cm, start, m[s])
  }

  /** The cost of walking a path: the sum of the costs of every cell entered after the first. */
  function WalkCost(cm: CostTable, path: seq<State>): nat
    requires Rectangular(cm)
    requires forall i :: 0 <= i < |path| ==> InBounds(cm, path[i])
  {
    if |path| <= 1 then 0
    else WalkCost(cm, path[..|path| - 1]) + CellCost(cm, path[|path| - 1])
  }

  /** A walk from `start`: single steps, each onto a passable cell. */
  ghost predicate IsWalk(cm: CostTable, start: State, path: seq<State>)
    requires Rectangular(cm)
  {
    && |path| > 0 && path[0] == start
    && (forall i :: 0 <= i < |path| ==> InBounds(cm, path[i]))
    && (forall i :: 0 < i < |path| ==> Adjacent(path[i - 1], path[i]) && Passable(cm, path[i]))
  }

  lemma WalkExtend(cm: CostTable, start: State, path: seq<State>, next: State)
    requires Rectangular(cm) && IsWalk(cm, start, path)
    requires Adjacent(path[|path| - 1], next) && Passable(cm, next)
    ensures IsWalk(cm, start, path + [next])
  {
    var path' := path + [next];
    assert forall i :: 0 <= i < |path| ==> path'[i] == path[i];
  }

  /**
   * The path read back from a consistent node is a walk from the start
   * state that ends at the node's state.
   */
  lemma {:induction false} ReconstructedPathIsWalk(cm: CostTable, start: State, n: PathNode)
    requires Rectangular(cm) && Consistent(cm, start, n)
    ensures IsWalk(cm, start, ReconstructPath(n))
    ensures ReconstructPath(n)[|ReconstructPath(n)| - 1] == n.state
    decreases n
  {
    match n.parent
    case None =>
    case Some(p) =>
      ReconstructedPathIsWalk(cm, start, p);
      WalkExtend(cm, start, ReconstructPath(p), n.state);
  }

  /** Walking the path read back from a consistent node costs exactly the node's g. */
  lemma {:induction false} ReconstructedPathCost(cm: CostTable, start: State, n: PathNode)
    requires Rectangular(cm) && Consistent(cm, start, n)
    ensures IsWalk(cm, start, ReconstructPath(n))
    ensures WalkCost(cm, ReconstructPath(n)) == n.cost
    decreases n
  {
    ReconstructedPathIsWalk(cm, start, n);
    match n.parent
    case None =>
    case Some(p) =>
      ReconstructedPathCost(cm, start, p);
      var prefix, path := ReconstructPath(p), ReconstructPath(n);
      assert path == prefix + [n.state];
      assert path[..|path| - 1] == prefix;
  }
}
