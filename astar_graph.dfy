/**
 * The A* engine: the cost map, the open set (Frontier), the closed set
 * (Explored), the start node and the goal, and the single search step.
 */
module AStar {
  import opened Wrappers
  import opened Nodes
  import opened Grid
  import opened PriorityQueue
  import opened Relaxation

  /**
   * The outcome of one iterate step: the goal node was popped, the search
   * goes on, or the open set was already empty (Python's heappop then
   * raises IndexError; the search has no path to report).
   */
  datatype Step = Found(node: PathNode) | Searching | Exhausted

  class AStarGraph {
    const CostMap: CostTable
    const DimX: nat
    const DimY: nat
    const PathStart: PathNode
    const End: State
    const Frontier: PriorityQueueSet
    var Explored: map<State, PathNode>

    /**
     * The engine's invariant: a rectangular map with the start inside it,
     * the open set ordered by this engine's f, and open and closed sets
     * disjoint, keyed by State and consistent along parent links.
     */
    ghost predicate Valid()
      reads this, Frontier
    {
      && Rectangular(CostMap) && DimX == |CostMap| && DimY == |CostMap[0]|
      && PathStart.parent == None && PathStart.cost == 0 && InBounds(CostMap, PathStart.state)
      && Frontier.Valid() && Frontier.Goal == End
      && SetsInvariant(CostMap, PathStart.state, SearchSets(Frontier.Entries, Explored))
    }

    /** A new search: the open set holds only the start node, the closed set is empty. */
    constructor (costMap: CostTable, startState: State, endState: State)
      requires Rectangular(costMap) && InBounds(costMap, startState)
      ensures Valid() && fresh(Frontier)
      ensures CostMap == costMap && End == endState && PathStart == PathNode(None, startState, 0)
      ensures Frontier.Entries == map[startState := PathStart] && Frontier.Heap == multiset{PathStart}
      ensures Explored == map[]
    {
      var root := PathNode(None, startState, 0);
      CostMap := costMap;
      DimX := |costMap|;
      DimY := |costMap[0]|;
      PathStart := root;
      End := endState;
      Frontier := new PriorityQueueSet([root], endState);
      Explored := map[];
    }

    /** takeNextNode: pop a node of least f from the open set. */
    method TakeNextNode() returns (path: PathNode)
      requires Valid() && |Frontier.Heap| > 0
      modifies Frontier
      ensures Valid()
      ensures path in old(Frontier.Heap) && IsMinimum(path, old(Frontier.Heap), End)
      ensures path.state in old(Frontier.Entries) && old(Frontier.Entries)[path.state] == path
      ensures Frontier.Entries == old(Frontier.Entries) - {path.state}
      ensures Frontier.Heap == old(Frontier.Heap) - multiset{path}
      ensures Consistent(CostMap, PathStart.state, path)
    {
      path := Frontier.PopSmallest();
    }

    /**
     * expandPathNode: the goal node is returned untouched; any other node
     * is closed under its State and each successor is relaxed into the
     * open set as RelaxAll specifies.
     */
    method ExpandPathNode(path: PathNode) returns (r: Option<PathNode>)
      requires Valid() && Consistent(CostMap, PathStart.state, path)
      requires path.state !in Frontier.Entries
      modifies this, Frontier
      ensures Valid()
      ensures path.state == End ==>
        && r == Some(path)
        && Explored == old(Explored)
        && Frontier.Entries == old(Frontier.Entries) && Frontier.Heap == old(Frontier.Heap)
      ensures path.state != End ==>
        && r == None
        && path.state in Explored && Explored[path.state] == path
        && SearchSets(Frontier.Entries, Explored) ==
           RelaxAll(CostMap, SearchSets(old(Frontier.Entries), old(Explored)[path.state := path]),
                    path, GetOptions(CostMap, path.state), End)
    {
      if path.state == End {
        return Some(path);
      }
      CloseNodePreserves(CostMap, PathStart.state, SearchSets(Frontier.Entries, Explored), path);
      Explored := Explored[path.state := path];
      var options := GetOptions(CostMap, path.state);
      ghost var before := SearchSets(Frontier.Entries, Explored);
      RelaxAllPreserves(CostMap, PathStart.state, before, path, options, End);
      var i := 0;
      while i < |options|
        invariant 0 <= i <= |options|
        invariant Frontier.Valid()
        invariant SearchSets(Frontier.Entries, Explored) == RelaxAll(CostMap, before, path, options[..i], End)
      {
        RelaxAllStep(CostMap, before, path, options, i, End);
        RelaxOption(path, options[i]);
        i := i + 1;
      }
      assert options[..i] == options;
      RelaxAllMonotone(CostMap, before, path, options, End);
      assert path.state !in options;
      r := None;
    }

    /**
     * One pass of expandPathNode's successor loop: build the candidate node
     * for `option` and replace, reopen, add or discard it as RelaxOne says.
     */
    method RelaxOption(path: PathNode, option: State)
      requires Rectangular(CostMap) && Frontier.Valid() && Frontier.Goal == End
      requires InBounds(CostMap, option)
      modifies this`Explored, Frontier
      ensures Frontier.Valid()
      ensures SearchSets(Frontier.Entries, Explored) ==
        RelaxOne(SearchSets(old(Frontier.Entries), old(Explored)), Candidate(CostMap, path, option), End)
    {
      var optionPath := Candidate(CostMap, path, option);
      if Frontier.HasItem(option) {
        if F(optionPath, End) < F(Frontier.GetItem(option), End) {
          Frontier.Replace(optionPath);
        }
      } else if option in Explored {
        if F(optionPath, End) < F(Explored[option], End) {
          Explored := Explored - {option};
          Frontier.Add(optionPath);
        }
      } else {
        Frontier.Add(optionPath);
      }
    }

    /**
     * iterate: pop a node of least f and expand it. An empty open set is
     * reported as Exhausted and changes nothing.
     */
    method Iterate() returns (r: Step, ghost popped: PathNode)
      requires Valid()
      modifies this, Frontier
      ensures Valid()
      ensures r == Exhausted <==> |old(Frontier.Heap)| == 0
      ensures r == Exhausted ==>
        Frontier.Entries == old(Frontier.Entries) && Frontier.Heap == old(Frontier.Heap) && Explored == old(Explored)
      ensures r != Exhausted ==>
        && popped in old(Frontier.Heap) && IsMinimum(popped, old(Frontier.Heap), End)
        && popped.state in old(Frontier.Entries) && old(Frontier.Entries)[popped.state] == popped
        && Consistent(CostMap, PathStart.state, popped)
      ensures r.Found? ==>
        && r.node == popped && popped.state == End
        && Frontier.Entries == old(Frontier.Entries) - {End} && Explored == old(Explored)
      ensures r.Searching? ==>
        && popped.state != End
        && SearchSets(Frontier.Entries, Explored) ==
           RelaxAll(CostMap, SearchSets(old(Frontier.Entries) - {popped.state}, old(Explored)[popped.state := popped]),
                    popped, GetOptions(CostMap, popped.state), End)
    {
      if |Frontier.Heap| == 0 {
        return Exhausted, PathStart;
      }
      var path := TakeNextNode();
      popped := path;
      var res := ExpandPathNode(path);
      r := if res.Some? then Found(res.value) else Searching;
    }
  }

  /** A search whose start is its goal ends at the first step with the start node (cost 0). */
  method StartIsGoal(costMap: CostTable, s: State) returns (r: Step)
    requires Rectangular(costMap) && InBounds(costMap, s)
    ensures r == Found(PathNode(None, s, 0))
  {
    var graph := new AStarGraph(costMap, s, s);
    ghost var popped;
    r, popped := graph.Iterate();
  }
}
