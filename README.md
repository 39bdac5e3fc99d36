# RRT / RRT* path planner, modelled in Dafny

This project models the sampling-based path planner of the multi-robot
inspection planner: `rrt.py`, with its class `Tree` and its class `RRT`. The planner
grows a tree of collision-free points from the start towards the goal.
- Plain RRT hangs each new point under its nearest node.
- RRT* picks the cheapest parent in a neighbourhood and rewires the neighbours
  through the new point.

When a point sees the goal, the goal joins the tree and the tree becomes valid.
The path is then read back along the parent links. On request it is straightened
by shortcut removal, and its length is summed.

The model is split into six modules:

- `Geometry` (geometry.dfy): coordinates, vector arithmetic and the distance.
  It also holds branch-length steering (`setDistance`). Dafny's reals have no
  square root, so the Euclidean norm is passed in as a function. `IsNorm` states
  the norm axioms it satisfies.
- `Validity` (validity.dfy) holds:
  - the world the planner sees: the bounds test, the distance to the nearest
    obstacle (the KD-tree's answer) and the safety distance;
  - `pointValid`, as `PointValid`;
  - the sampling rule of `validateLinePath`, as `LineValid`.
- `RrtTree` (tree.dfy): the class `Tree`, holding the dictionary
  `nodes`, its keys in insertion order (`keys`, the order in which Python
  iterates the dictionary) and the `valid` flag. It has `add_node`, `get_parent`,
  `get_cost`, `rewire` and `find_path`. It also holds the parent-walk predicates
  and the two reasons why a walk stops: parents inserted first (plain RRT) and
  costs falling along parent links (RRT*).
- `Straighten` (straighten.dfy): `halveAndTest`, the two forward and backward
  straightening rounds of `generatePath`, and the path length.
- `PlannerRules` (rules.dfy): the planner's decision rules stated on values:
  - the nearest-node scan, the RRT* neighbourhood, the parent choice and rewiring;
  - the goal connection, both as written and corrected;
  - the Gaussian spread-factor schedule;
  - the tree shape every step preserves.
- `Planner` (planner.dfy): the class `RRT` as `Rrt`. Its methods are the
  source's loops, each proved against the matching function of
  `PlannerRules`. One iteration of `buildTree` (`Step`) takes the sampler's draws
  as input. `GeneratePath` is the tail of `generatePath`.

The class invariant `Rrt.Inv` holds from the constructor on. Every iteration keeps it
as long as its draws are nearer to the start than the float32 maximum. It says:
- the root is the start, with no parent and cost 0;
- every other node has a parent inside the tree;
- costs are not negative;
- parents come first in insertion order (RRT) or keep the cost discipline (RRT*);
- a valid tree holds the goal.

Consequently every walk along parents stops. So once the tree is valid,
`find_path` returns a chain from the start to the goal and never raises a
KeyError.

## Model

| member | source | states |
|---|---|---|
| RrtTree.Tree.constructor | mrim_task/mrim_planner/scripts/path_planners/sampling_based/rrt.py:9-12 | a new tree holds only the root, with no parent and cost 0, and is not valid |
| RrtTree.Tree.AddNode | mrim_task/mrim_planner/scripts/path_planners/sampling_based/rrt.py:14-15 | the entry of the coordinate becomes (parent, cost) and no other entry changes; a new key goes last in iteration order, an overwritten key keeps its place; get_parent/get_cost then return the new values |
| RrtTree.Tree.GetParent | mrim_task/mrim_planner/scripts/path_planners/sampling_based/rrt.py:17-18 | returns the stored parent exactly when the key is present, and otherwise a KeyError naming the key |
| RrtTree.Tree.Rewire | mrim_task/mrim_planner/scripts/path_planners/sampling_based/rrt.py:20-21 | same new state as add_node: only the re-parented entry changes |
| RrtTree.Tree.GetCost | mrim_task/mrim_planner/scripts/path_planners/sampling_based/rrt.py:23-24 | returns the stored cost exactly when the key is present, and otherwise a KeyError naming the key |
| RrtTree.Tree.FindPath | mrim_task/mrim_planner/scripts/path_planners/sampling_based/rrt.py:26-45 | on success the result starts at an entry without a parent (carrying the start heading) and ends at the requested node; every later waypoint has no heading and has its predecessor as parent. A missing key on the walk gives a KeyError for a key absent from the tree that the parent walk from the end reached |
| RrtTree.KeyOrderedWalkStops | mrim_task/mrim_planner/scripts/path_planners/sampling_based/rrt.py:32-38 | when every parent was inserted before its child, the loop of find_path stops from every key |
| RrtTree.CostOrderedWalkStops | mrim_task/mrim_planner/scripts/path_planners/sampling_based/rrt.py:32-38 | when each parent is distinct from its child and stored costs cover parent cost plus edge, the loop of find_path stops from every node |
| RrtTree.WalkStaysInTree | mrim_task/mrim_planner/scripts/path_planners/sampling_based/rrt.py:34 | when every parent link names an entry, a walk from a node never reaches a missing key, so get_parent cannot raise |
| Planner.SumDistances | mrim_task/mrim_planner/scripts/path_planners/sampling_based/rrt.py:91-93 | the summed distance is the length of the path: the distances between consecutive waypoints |
| Planner.Rrt.GeneratePath | mrim_task/mrim_planner/scripts/path_planners/sampling_based/rrt.py:79-97 | no path exactly when the tree is not valid; otherwise the path runs from the start (with the start heading) to the goal, is the tree chain, or its two-round straightening when asked, never longer than the chain, and the distance is its length |
| Straighten.StraightenRound | mrim_task/mrim_planner/scripts/path_planners/sampling_based/rrt.py:88-89 | a forward pass then a backward pass keep both ends of the path and never add waypoints |
| Straighten.Straightened | mrim_task/mrim_planner/scripts/path_planners/sampling_based/rrt.py:86-89 | two rounds keep both ends of the path and never add waypoints |
| Straighten.StraightenRoundShortens | mrim_task/mrim_planner/scripts/path_planners/sampling_based/rrt.py:88-89 | a straightening round never makes the path longer |
| Straighten.StraightenedShortens | mrim_task/mrim_planner/scripts/path_planners/sampling_based/rrt.py:86-89 | straightening never makes the path longer |
| Straighten.PathLengthReversed | mrim_task/mrim_planner/scripts/path_planners/sampling_based/rrt.py:89 | the reversed path has the same length |
| Validity.PointValid | mrim_task/mrim_planner/scripts/path_planners/sampling_based/rrt.py:101-108 | a point is valid exactly when it is inside the bounds (tested only when asked) and its distance to the nearest obstacle exceeds the safety distance plus 0.1 |
| Validity.LineValidMeans | mrim_task/mrim_planner/scripts/path_planners/sampling_based/rrt.py:196-210 | the line check passes exactly when every sample from + t(to - from) with t = k * disc below the segment's length passes the point check (bounds only if asked), and the end point passes it with bounds |
| Validity.SamplesValidFromMeans | mrim_task/mrim_planner/scripts/path_planners/sampling_based/rrt.py:204-208 | the sampling loop from its k-th sample on accepts exactly when every remaining sample is valid |
| Planner.Rrt.ValidateLinePath | mrim_task/mrim_planner/scripts/path_planners/sampling_based/rrt.py:196-210 | the loop returns exactly the line check's verdict |
| PlannerRules.ClosestScanFinds | mrim_task/mrim_planner/scripts/path_planners/sampling_based/rrt.py:169-181 | the scan returns the start when no node is nearer than the float32 maximum; otherwise a node at minimal distance, the first such one in iteration order |
| Planner.Rrt.GetClosestPoint | mrim_task/mrim_planner/scripts/path_planners/sampling_based/rrt.py:169-181 | the loop returns the scan's node |
| Geometry.SetDistance | mrim_task/mrim_planner/scripts/path_planners/sampling_based/rrt.py:185-192 | a target nearer than the branch length is returned unchanged |
| Geometry.SetDistanceSteers | mrim_task/mrim_planner/scripts/path_planners/sampling_based/rrt.py:185-192 | otherwise the result lies exactly the branch length from the origin, in the direction of the target, and as much nearer the target |
| PlannerRules.SteeredIsFresh | mrim_task/mrim_planner/scripts/path_planners/sampling_based/rrt.py:272-287 | a sample kept by the separation test and steered from its nearest node lands on a point that is not yet in the tree |
| PlannerRules.Neighborhood | mrim_task/mrim_planner/scripts/path_planners/sampling_based/rrt.py:215-221 | the neighbourhood is drawn from the tree's nodes and is no longer than the tree |
| PlannerRules.NeighborhoodMembers | mrim_task/mrim_planner/scripts/path_planners/sampling_based/rrt.py:215-221 | a node is in the neighbourhood exactly when it is strictly within the radius and its line passes the check |
| Planner.Rrt.GetPointsInNeighborhood | mrim_task/mrim_planner/scripts/path_planners/sampling_based/rrt.py:215-221 | the loop returns the neighbourhood, in iteration order |
| PlannerRules.ParentScanOptimal | mrim_task/mrim_planner/scripts/path_planners/sampling_based/rrt.py:235-254 | the scan's parent and cost match: the cost is no higher than through the nearest node or through any neighbour, and on a tie the earlier candidate is kept (the nearest node first, then the neighbours in order) |
| Planner.Rrt.ScanNeighbors | mrim_task/mrim_planner/scripts/path_planners/sampling_based/rrt.py:241-252 | the loop over the neighbours returns the scan: a neighbour takes over only when reaching the point through it is strictly cheaper |
| Planner.Rrt.GetParentWithOptimalCost | mrim_task/mrim_planner/scripts/path_planners/sampling_based/rrt.py:235-254 | the choice is the scan over the neighbourhood started from the nearest node and the cost through it, and so is optimal in that sense |
| Planner.Rrt.ChooseParent | mrim_task/mrim_planner/scripts/path_planners/sampling_based/rrt.py:295-299 | plain RRT takes the nearest node, with the length of the new segment to it as the cost; RRT* takes the optimal parent of the scan; the parent is in the tree and the cost is not negative |
| PlannerRules.Rewired | mrim_task/mrim_planner/scripts/path_planners/sampling_based/rrt.py:225-231 | rewiring keeps the set of nodes |
| PlannerRules.RewiredChanges | mrim_task/mrim_planner/scripts/path_planners/sampling_based/rrt.py:225-231 | only neighbours change, only to hang under the point at the cost through it, and only when that is strictly cheaper; no cost goes up |
| PlannerRules.RewiredOneMore | mrim_task/mrim_planner/scripts/path_planners/sampling_based/rrt.py:228-231 | one iteration of the rewire loop compares against the cost as rewired so far and re-parents only on a strict improvement |
| PlannerRules.RewiredSparesCheaper | mrim_task/mrim_planner/scripts/path_planners/sampling_based/rrt.py:227-231 | a node no dearer than the point, among them the point itself, keeps its entry |
| Planner.Rrt.Rewire | mrim_task/mrim_planner/scripts/path_planners/sampling_based/rrt.py:225-231 | the loop leaves exactly the rewired tree, with keys and validity unchanged |
| Straighten.HalveAndTest | mrim_task/mrim_planner/scripts/path_planners/sampling_based/rrt.py:356-378 | a path of at most two waypoints is returned unchanged; otherwise the result keeps the first and the last waypoint and has no more waypoints than the path |
| Straighten.HalveAndTestShortcuts | mrim_task/mrim_planner/scripts/path_planners/sampling_based/rrt.py:356-378 | the result is a prefix of the path followed by the last waypoint: the jump is between neighbours or passes the check (bounds not checked along it), and every earlier waypoint's jump failed |
| Straighten.HalveAndTestShortens | mrim_task/mrim_planner/scripts/path_planners/sampling_based/rrt.py:356-378 | shortcut removal never makes the path longer |
| PlannerRules.GoalConnectedAsWritten | mrim_task/mrim_planner/scripts/path_planners/sampling_based/rrt.py:336-338 | the goal gets the point as its parent, overwriting any entry it had; all other entries stay |
| Planner.Rrt.ConnectGoalAsWritten | mrim_task/mrim_planner/scripts/path_planners/sampling_based/rrt.py:336-338 | the tree becomes the as-written goal connection and is valid; the goal is appended to the keys when it is new |
| PlannerRules.StartAtGoalCycles | mrim_task/mrim_planner/scripts/path_planners/sampling_based/rrt.py:336-338 | with the start equal to the goal, the as-written connection makes root and first point each other's parent, so the walk from the goal never stops |
| PlannerRules.GoalConnected | mrim_task/mrim_planner/scripts/path_planners/sampling_based/rrt.py:336-338 | corrected connection: a goal already in the tree is left as it is; otherwise it is the as-written connection |
| Planner.Rrt.ConnectGoal | mrim_task/mrim_planner/scripts/path_planners/sampling_based/rrt.py:336-338 | the tree becomes the corrected goal connection and is valid; the goal is appended to the keys when it is new |
| PlannerRules.GoalKeepsShape | mrim_task/mrim_planner/scripts/path_planners/sampling_based/rrt.py:336-338 | the corrected goal connection keeps the tree's shape |
| Planner.Rrt.TryGoal | mrim_task/mrim_planner/scripts/path_planners/sampling_based/rrt.py:336-338 | when the line from the point to the goal passes the check, the tree becomes the corrected goal connection (the goal under the point at the point's cost plus the distance) and is valid; otherwise nothing changes; the invariant is kept |
| PlannerRules.Inflated | mrim_task/mrim_planner/scripts/path_planners/sampling_based/rrt.py:346-348 | one inflation gives the smaller of the factor plus the step and 5.0 |
| PlannerRules.InflationSchedule | mrim_task/mrim_planner/scripts/path_planners/sampling_based/rrt.py:277-283 | n inflations from the configured step give n + 1 steps capped at 5.0 |
| Planner.Rrt.DrawSample | mrim_task/mrim_planner/scripts/path_planners/sampling_based/rrt.py:272-283 | the draw kept is the first farther than 0.1 from its nearest node, returned with that node; the spread is reset to the step after a kept draw, and inflated once per rejected draw when none is kept |
| PlannerRules.TreeShapeWalkStops | mrim_task/mrim_planner/scripts/path_planners/sampling_based/rrt.py:26-45 | in a tree of the maintained shape every walk from a node stops |
| PlannerRules.InsertKeepsShape | mrim_task/mrim_planner/scripts/path_planners/sampling_based/rrt.py:301 | inserting a fresh point under a parent in the tree keeps the shape |
| PlannerRules.RewiredKeepsShape | mrim_task/mrim_planner/scripts/path_planners/sampling_based/rrt.py:305-307 | rewiring keeps the RRT* shape |
| PlannerRules.BranchKeepsShape | mrim_task/mrim_planner/scripts/path_planners/sampling_based/rrt.py:295-307 | insertion followed by the RRT* rewiring keeps the shape |
| PlannerRules.CostBoundsTreePath | mrim_task/mrim_planner/scripts/path_planners/sampling_based/rrt.py:229-231 | under RRT*'s cost discipline a node's stored cost is at least the root's cost plus the length of its tree path |
| Planner.Rrt.constructor | mrim_task/mrim_planner/scripts/path_planners/sampling_based/rrt.py:60-74 | the planner state holds the given world and parameters, a tree with only the start, the spread at its step and the sampling centre at the start; the invariant holds |
| Planner.Rrt.AddBranch | mrim_task/mrim_planner/scripts/path_planners/sampling_based/rrt.py:301-307 | the point is added under its parent (then, for RRT*, the tree is the rewired one), becomes the sampling centre, and the spread and validity stay |
| Planner.Rrt.Branch | mrim_task/mrim_planner/scripts/path_planners/sampling_based/rrt.py:295-307 | the tree becomes the point under its chosen parent at its chosen cost and, for RRT*, rewired through the point over its neighbourhood in the grown tree; the point is appended to the keys; the invariant is kept for a fresh point |
| Planner.Rrt.Grow | mrim_task/mrim_planner/scripts/path_planners/sampling_based/rrt.py:295-338 | the tree becomes the branch followed by the goal test from the point; the keys only grow, and the tree is valid exactly when it was or the point sees the goal |
| Planner.Rrt.Extend | mrim_task/mrim_planner/scripts/path_planners/sampling_based/rrt.py:287-348 | the branch steered from the nearest node is grown when its line passes the check; otherwise the tree is unchanged and only the spread is inflated (under Gaussian sampling); the invariant is kept for samples nearer the start than the float32 maximum |
| Planner.Rrt.Step | mrim_task/mrim_planner/scripts/path_planners/sampling_based/rrt.py:268-348 | an iteration happens exactly when some draw is separated, and then the tree is the one grown from the first separated draw and its nearest node; otherwise the tree is unchanged; the invariant is kept, validity is never lost, keys only grow, the sampling centre becomes the new point when the branch passes and the spread is reset to the step (or inflated once from it when the branch fails); when every draw is rejected, the centre stays and the spread is inflated once per draw |

## Left out

- The random samplers `getRandomPoint` and `getRandomPointGaussian` (rrt.py:111-166) are left out, along with their mean and deviation, the 0.1 floor on the deviation and the 1000-try cut-off. `Step` takes the sampler's draws as a sequence instead. A sampler that never returns a separated point is an input for which `Step` returns false.
- The outer loop of `buildTree` and its timeout (rrt.py:268, 350-352) are left out: they read the clock. `Step` models one iteration of that loop, and the invariant it keeps is what every iteration keeps.
- The configuration dictionary, the KD-tree and the bounds object of `generatePath` (rrt.py:64-74) become constructor parameters. The obstacle field is seen only through the nearest-obstacle distance, and the bounds only through their containment test.
- The `print` calls and the commented-out plotting code are left out.
- `distEuclidean` and `Point` come from other modules and are not part of this model. The distance is the norm of the difference, and the norm is known only through the norm axioms, since there is no square root.
- Floating point is modelled as exact reals. `len_ptr` in `validateLinePath` accumulates rounding error in the source, so near the end of a segment the number of samples can differ by one from the exact count `k * disc < length`. Float32 rounding of the initial best distance is also not modelled.
- Planner.Rrt.ValidateLinePath: requires a positive step, as do `Validity.LineValid` and `Validity.SamplesValidFrom`. The source passes 0.1 everywhere. With a non-positive step on a segment of positive length it never reaches the end-point check: it returns False at the first invalid sample and otherwise runs forever.
- Geometry.SetDistance: requires a positive branch length. With a length of 0 or less the source never takes the early return, since a norm is never below it. It then scales by length over norm: for coinciding points that is 0/0, and numpy returns NaN coordinates with a warning. For a negative length and distinct points it steers away from the target.
- Straighten.HalveAndTest: requires a non-empty path, because the source indexes `path[0]`.
- RrtTree.Tree.FindPath: requires that the parent walk from the end node stops; the source's loop never ends on a parent cycle. The finding below shows how such a cycle arises. In the corrected planner, `PlannerRules.TreeShapeWalkStops` discharges this requirement.
- RrtTree.Tree.Consistent: only states that the key list and the dictionary hold the same coordinates. It does not state that the key list has no repeats, which Python's dictionary guarantees. No property proved here needs it.
- Planner.Rrt.Branch: keeps the invariant only for a point not already in the tree. `PlannerRules.SteeredIsFresh` shows that every steered point is fresh, as long as the sample is nearer to the start than the float32 maximum.
- Planner.Rrt.Grow: keeps the invariant only for a point not already in the tree, for the same reason as `Planner.Rrt.Branch`.
- Planner.Rrt.Extend: keeps the invariant only when the sample is nearer to the start than the float32 maximum. A sample farther away could leave the nearest-node scan at its fallback, since the scan falls back when every node is at least that far.
- Planner.Rrt.Step: keeps the invariant only when every draw is nearer to the start than the float32 maximum, as `Planner.Rrt.Extend` does.
- The Gaussian sampler's statistical behaviour (the distribution of draws) is left out. Only its inputs are modelled: the spread factor and the sampling centre (`newStart`).
- PlannerRules.CostBoundsTreePath: the source does not propagate a cost decrease from rewiring to the descendants. So stored costs are only upper bounds on tree-path lengths, not equal to them, and the lemma is stated that way.

## Findings

| source | as written | input that shows it | evidently intended | confidence | as-written member | corrected member |
|---|---|---|---|---|---|---|
| mrim_task/mrim_planner/scripts/path_planners/sampling_based/rrt.py:336-338 | the goal is added with `add_node` even when it is already a key, overwriting its entry | start equal to the goal: the first accepted point p hangs under the root, and when p sees the goal, the root's entry becomes (parent p); root and p are then each other's parent and `find_path` loops forever | a goal already in the tree is left as it is, so the path is the goal's existing chain (the start alone) | not executed | PlannerRules.StartAtGoalCycles | PlannerRules.GoalKeepsShape |

The model uses the corrected connection: `PlannerRules.GoalConnected`, performed by `Planner.Rrt.ConnectGoal`. The as-written form is `PlannerRules.GoalConnectedAsWritten` and `Planner.Rrt.ConnectGoalAsWritten`.
