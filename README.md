# A* grid search engine, modelled in Dafny

This project models the A* search engine of `PathFinding/AStarGraph.py`: a
search for a least-cost path between two cells of a 2D grid of integer
costs, where a cost of 0 marks an impassable cell and moves go to the four
axis-aligned neighbours.

The model has these parts:

- `Nodes` (`nodes.dfy`): the `State` coordinate pair and the `PathNode` record
  (parent link, State, accumulated cost g). It also holds the Manhattan
  heuristic h, the ordering key f = g + h, and the parent-chain walk used to
  read a finished path back.
- `Grid` (`grid.dfy`): the immutable cost map, indexed `[x][y]`. It holds
  successor generation (`getOptions`) and the predicate `Consistent`: g is
  consistent along parent links, and the chain leads back to the start node.
- `PriorityQueue` (`priority_queue_set.dfy`): the open set, the class
  `PriorityQueueSet`. Its dictionary from State to node is a `map`. Its heap
  is the multiset of queued nodes. `Valid()` says the heap holds exactly the
  dictionary's values, one per State.
- `Relaxation` (`relaxation.dfy`): the successor loop of `expandPathNode`,
  written as pure functions over the open dictionary and the closed set
  (`RelaxOne`, `RelaxAll`). Lemmas state what the loop preserves and what it
  may change.
- `AStar` (`astar_graph.dfy`): the engine, the class `AStarGraph`. It owns the
  cost map, the open set `Frontier`, the closed set `Explored`, the start node
  and the goal `End`. It has `takeNextNode`, `expandPathNode` and `iterate`.
  Its invariant says that open and closed States are disjoint, that every
  entry is filed under its own State, and that every node is consistent
  along its parent links.

Where the model departs from the code, it does so as follows:

- The code does not validate the start against the grid. The model makes
  an in-bounds start on a rectangular map a precondition of the constructor,
  instead of rejecting a bad start at construction.
- The code does not check for an empty open set before popping. `heappop`
  then raises `IndexError`. The model reports this case as the step outcome
  `Exhausted` and changes nothing.

## Model

| member | source | states |
|---|---|---|
| `Nodes.H` | PathFinding/AStarGraph.py:109-113 | h is a non-negative Manhattan distance and is 0 exactly when the state is the goal |
| `Nodes.F` | PathFinding/AStarGraph.py:103-107 | f is at least g, and equals g exactly when the node is at the goal |
| `Nodes.SameStateOrder` | PathFinding/AStarGraph.py:130 | for two nodes at the same State, comparing f (the `__cmp__` order) is comparing cost |
| `Nodes.HeuristicConsistent` | PathFinding/AStarGraph.py:109-113 | one step between neighbours changes h by at most one |
| `Nodes.Backtrace` | PathFinding/AStarGraph.py:202-205 | the parent walk starts at the node, follows each parent link in turn, and ends at the node without a parent |
| `Nodes.ReconstructPath` | PathFinding/AStarGraph.py:202-205 | the path read back is never empty and ends at the node's own State |
| `Nodes.ReconstructPathReversesWalk` | PathFinding/AStarGraph.py:202-205 | the path's states are the parent walk's states in reverse order, start first |
| `Grid.GetOptions` | PathFinding/AStarGraph.py:143-153 | at most 4 successors, and a cell is a successor exactly when it is an in-bounds neighbour at Manhattan distance 1 with nonzero cost |
| `Grid.GetOptionsOrdered` | PathFinding/AStarGraph.py:143-153 | the successors come in the order +x, -x, +y, -y |
| `Grid.FMonotoneAlongLink` | PathFinding/AStarGraph.py:103-113 | along a consistent parent link f never decreases |
| `Grid.ReconstructedPathIsWalk` | PathFinding/AStarGraph.py:202-205 | the path read back from a consistent node runs from the start to the node's State in single steps onto passable cells |
| `Grid.ReconstructedPathCost` | PathFinding/AStarGraph.py:202-205 | along that path the costs of the cells entered sum to the node's g |
| `PriorityQueue.MinimumExists` | PathFinding/AStarGraph.py:50-54 | a non-empty heap always has a node of least f to pop |
| `PriorityQueue.KeyedBy` | PathFinding/AStarGraph.py:38 | the initial dictionary files each item under its State, holds only given items, and the final item of the list is the entry at its State |
| `PriorityQueue.KeyedByLastWins` | PathFinding/AStarGraph.py:38 | for every State, the entry is the last item of the list at that State, as `dict()` keeps the last pair for a key |
| `PriorityQueue.KeyedByDistinct` | PathFinding/AStarGraph.py:38-40 | from items at distinct States, dictionary and heap hold the same nodes |
| `PriorityQueue.NoStaleEntries` | PathFinding/AStarGraph.py:62-66 | when heap and dictionary agree, every queued node is the current entry for its State and is queued once, so no stale node can be popped |
| `PriorityQueue.PriorityQueueSet.constructor` | PathFinding/AStarGraph.py:30-40 | dictionary and heap are built from the initial list, and they agree when its States are distinct |
| `PriorityQueue.PriorityQueueSet.HasItem` | PathFinding/AStarGraph.py:42-44 | a State is a key exactly when some queued node is at that State |
| `PriorityQueue.PriorityQueueSet.GetItem` | PathFinding/AStarGraph.py:46-48 | the entry returned is at the State asked for and is in the heap |
| `PriorityQueue.PriorityQueueSet.PopSmallest` | PathFinding/AStarGraph.py:50-54 | needs a non-empty heap; returns a queued node whose f is at most that of every queued node; removes it from the heap and its State from the dictionary |
| `PriorityQueue.PriorityQueueSet.Add` | PathFinding/AStarGraph.py:56-60 | insert-if-absent: an existing State leaves dictionary and heap unchanged, otherwise both gain exactly the item |
| `PriorityQueue.PriorityQueueSet.Replace` | PathFinding/AStarGraph.py:62-66 | the item becomes the entry for its State, other entries are unchanged, and the heap is rebuilt as exactly the dictionary's values |
| `Relaxation.Candidate` | PathFinding/AStarGraph.py:127 | the successor node links back to the parent, sits at the option's State, and costs at least the parent's g, strictly more exactly when the cell is passable |
| `Relaxation.RelaxOne` | PathFinding/AStarGraph.py:129-138 | one pass of the loop either leaves both sets unchanged or makes the candidate the open entry at its State; open States are never dropped and closed States never gained. Which case applies is given by `RelaxOneDiscards`, and the cost bounds by `RelaxOneMonotone` |
| `Relaxation.RelaxAll` | PathFinding/AStarGraph.py:126-140 | the whole successor loop, one `RelaxOne` per option in order: open States are never dropped and closed States never gained. `RelaxAllMonotone` gives its cost bounds and `RelaxAllPreserves` the invariant it keeps |
| `Relaxation.RelaxOneDiscards` | PathFinding/AStarGraph.py:129-138 | a candidate is discarded exactly when its State is open, or closed and not open, with a cost no greater than the candidate's |
| `Relaxation.CandidateConsistent` | PathFinding/AStarGraph.py:127 | a candidate built from a consistent parent and a passable neighbour is consistent |
| `Relaxation.RelaxOnePreserves` | PathFinding/AStarGraph.py:129-140 | one relaxation keeps open and closed disjoint, keyed by State and consistent |
| `Relaxation.RelaxAllPreserves` | PathFinding/AStarGraph.py:126-140 | the whole successor loop keeps open and closed disjoint, keyed by State and consistent |
| `Relaxation.RelaxOneMonotone` | PathFinding/AStarGraph.py:129-140 | one relaxation never raises an open cost, reopens a closed State only with a strictly lower cost, and changes only the candidate's State |
| `Relaxation.RelaxAllMonotone` | PathFinding/AStarGraph.py:126-140 | over the loop, open costs never rise; a closed State keeps its node or is reopened strictly cheaper; each new or changed open entry is the candidate whose cost is the parent's plus the cell's; closed States are lost only among the successors |
| `AStar.AStarGraph.constructor` | PathFinding/AStarGraph.py:93-101 | the open set holds only the start node (cost 0), the closed set is empty, and the invariant holds |
| `AStar.AStarGraph.TakeNextNode` | PathFinding/AStarGraph.py:115-116 | pops a node of least f from the open set; the node is consistent, and the invariant holds |
| `AStar.AStarGraph.ExpandPathNode` | PathFinding/AStarGraph.py:118-140 | at the goal it returns the node and leaves both sets unchanged; otherwise the node is the closed entry at its State afterwards, and the sets become `RelaxAll` over `GetOptions` starting from the sets with the node closed, with the invariant kept |
| `AStar.AStarGraph.RelaxOption` | PathFinding/AStarGraph.py:127-138 | one pass of the successor loop changes the open dictionary and the closed set exactly as `RelaxOne` does |
| `AStar.AStarGraph.Iterate` | PathFinding/AStarGraph.py:155-156 | an empty open set gives `Exhausted` and no change; otherwise it pops a consistent node of least f, returns it when it is the goal, and otherwise relaxes its successors; open and closed stay disjoint |
| `AStar.StartIsGoal` | PathFinding/AStarGraph.py:118-121 | a search whose start is its goal ends at the first step with the start node at cost 0 |

The code decides replacement and reopening by comparing f, not g, and so do
`Relaxation.RelaxOne` and `AStar.AStarGraph.RelaxOption`. For two nodes at the
same State the two comparisons agree (`Nodes.SameStateOrder`).

## Left out

- PriorityQueue.PriorityQueueSet.PopSmallest: returns some node of least f, not the node `heapq` would choose among equal f values. The heap's array layout and the internals of `heapify`, `heappush` and `heappop` are not modelled; the heap is the multiset of its nodes.
- PriorityQueue.PriorityQueueSet.GetItem: a missing State is a precondition rather than a `KeyError`, because the engine always checks `has_item` or `in` first.
- AStar.AStarGraph.constructor: requires a rectangular, non-empty cost map and an in-bounds start. The code never rejects the start. Unless the start is the goal, the first `iterate` calls `getOptions` on a cell outside the map. Depending on the start and the map's shape, a negative index wraps (start (-1, 0) with dimY ≥ 2 reads `CostMap[-1][1]`, line 149), an index past the end raises `IndexError` (start (dimX+1, 0) evaluates `CostMap[dimX]`, line 147), or only in-range cells are read and the search carries on from outside the map (start (dimX, 0) with dimY = 1 reads `CostMap[dimX-1][0]`, line 147). The goal is not constrained, as in the code.
- AStar.AStarGraph.ExpandPathNode: requires a node that is consistent along its parent links and whose State is not open. The code does not check this; it holds for every node `iterate` passes in, since that node was just popped from the open set.
- AStar.AStarGraph.Iterate: the `IndexError` raised by popping an empty heap is modelled as the outcome `Exhausted`, not as an exception.
- AStar.AStarGraph.RelaxOption: the body of the successor loop is a method of its own, called once per successor by `ExpandPathNode`.
- `State.__hash__` and the constant `MaxX` (lines 79-87): hashing affects only speed, since equality is structural; `State` is a datatype used as a map key.
- `PathNode.__cmp__` and the `FFunc` callable stored on each node (lines 73-77): f is computed by `Nodes.F` towards the goal. The open set carries that goal (`Goal`) to fix its order.
- g (lines 106-107) is the node's `cost` field and has no member of its own.
- `draw` and the printing half of `drawPath` (lines 158-252): console output only. The parent walk of `drawPath` is kept as a sequence of nodes, not as the dictionary keyed by State that feeds the printing.
- The module-level script (lines 254-287): random cost generation, printing and the driver loop that calls `iterate` until it returns a node.
- Costs that are not natural numbers (the commented-out alternatives at lines 262-270).
- Optimality of the returned path and termination of the search: the code promises neither, and neither is proved.
