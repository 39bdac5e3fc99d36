/** The RRT / RRT* planner (rrt.py, class `RRT`): its state for one planning
    query, the line check, the nearest-node and neighbourhood scans, the RRT*
    parent choice and rewiring, one iteration of tree building with the
    sampled points given, and the post-processing of `generatePath`. */
module Planner {
  import opened Geometry
  import opened Validity
  import opened RrtTree
  import opened Straighten
  import opened PlannerRules

  /** What `generatePath` returns: nothing when the tree never reached the
      goal, otherwise the path and its length. */
  datatype Plan = NoPath | Plan(path: seq<Waypoint>, distance: real)

  /** The tree's dictionary, its keys in iteration order and its `valid` flag, as a value. */
  datatype TreeState = TreeState(nodes: map<Coord, Node>, keys: seq<Coord>, valid: bool)

  /** The length sum of `generatePath`: the distances between consecutive waypoints. */
  method SumDistances(norm: Coord -> real, path: seq<Waypoint>) returns (distance: real)
    ensures distance == PathLength(norm, path)
  {
    distance := 0.0;
    var i := 1;
    while i < |path|
      invariant 1 <= i
      invariant distance == PathLength(norm, if i <= |path| then path[..i] else path)
    {
      assert path[..i + 1] == path[..i] + [path[i]];
      PathLengthAppend(norm, path[..i], path[i]);
      distance := distance + Dist(norm, path[i - 1].pos, path[i].pos);
      i := i + 1;
    }
    if i <= |path| {
      assert path[..i] == path;
    }
  }

  class Rrt {
    const world: World
    const start: Coord
    const end: Coord
    /** Length of a new branch. */
    const branchSize: real
    /** The RRT* neighbourhood radius; None runs plain RRT. */
    const neighborhood: Option<real>
    const gaussianSampling: bool
    /** The configured step by which the Gaussian sampler's spread grows. */
    const inflationStep: real
    const tree: Tree
    /** The Gaussian sampler's current spread factor. */
    var inflation: real
    /** The centre of Gaussian sampling: the start, then the last accepted point. */
    var newStart: Coord

    ghost predicate Inv()
      reads this, tree
    {
      && IsNorm(world.norm) && 0.0 < branchSize
      && tree.Consistent()
      && TreeShape(world.norm, tree.nodes, tree.keys, start, neighborhood.Some?)
      && (tree.valid ==> end in tree.nodes)
    }

    ghost function State(): TreeState
      reads tree
    {
      TreeState(tree.nodes, tree.keys, tree.valid)
    }

    /** The parent and cost a new point gets: the nearest node and the segment's
        length for plain RRT; for RRT* the scan over the neighbourhood, started
        from the nearest node and the cost through it. */
    ghost function ChosenParent(s: TreeState, point: Coord, closest: Coord): (Coord, real)
      requires closest in s.nodes && forall c :: c in s.keys ==> c in s.nodes
    {
      if neighborhood.None? then (closest, Dist(world.norm, point, closest))
      else
        var nbs := Neighborhood(world, s.keys, point, neighborhood.value);
        ParentScan(world.norm, s.nodes, nbs, point, (closest, ViaCost(world.norm, s.nodes, closest, point)))
    }

    /** The tree after a branch to `point` is added: the point under its chosen
        parent, then, for RRT*, its neighbours (in the grown tree) rewired through it. */
    ghost function Branched(s: TreeState, point: Coord, closest: Coord): TreeState
      requires closest in s.nodes && forall c :: c in s.keys ==> c in s.nodes
    {
      var (parent, cost) := ChosenParent(s, point, closest);
      var grown := s.nodes[point := Node(Some(parent), cost)];
      var keys := if point in s.nodes then s.keys else s.keys + [point];
      TreeState(if neighborhood.None? then grown
                else Rewired(world.norm, grown, Neighborhood(world, keys, point, neighborhood.value), point),
                keys, s.valid)
    }

    /** The tree after the goal test from `point`: when the line to the goal
        passes the check, the goal is connected and the tree is valid. */
    ghost function GoalTried(s: TreeState, point: Coord): TreeState
      requires point in s.nodes
    {
      if LineValid(world, point, end, Discretization, true) then
        TreeState(GoalConnected(world.norm, s.nodes, point, end),
                  if end in s.nodes then s.keys else s.keys + [end], true)
      else s
    }

    /** The tree after an accepted branch and the goal test. */
    ghost function Grown(s: TreeState, point: Coord, closest: Coord): TreeState
      requires closest in s.nodes && forall c :: c in s.keys ==> c in s.nodes
    {
      GoalTried(Branched(s, point, closest), point)
    }

    /** The tree after one iteration for a kept sample: the branch steered from
        the nearest node is grown when its line passes the check; otherwise
        the tree stays as it is. */
    ghost function Extended(s: TreeState, sample: Coord): TreeState
      requires 0.0 < branchSize && start in s.nodes && forall c :: c in s.keys ==> c in s.nodes
    {
      var closest := ClosestPoint(world.norm, s.keys, sample, start);
      ClosestScanFinds(world.norm, s.keys, sample, start);
      var point := SetDistance(world.norm, closest, sample, branchSize);
      if LineValid(world, point, closest, Discretization, true) then Grown(s, point, closest) else s
    }

    /** The state at the start of tree building: a tree holding the start
        alone, and the spread factor at its configured step. */
    constructor (world: World, start: Coord, end: Coord, branchSize: real, neighborhood: Option<real>,
                 gaussianSampling: bool, inflationStep: real)
      requires IsNorm(world.norm) && 0.0 < branchSize
      ensures Inv()
      ensures && this.world == world && this.start == start && this.end == end
              && this.branchSize == branchSize && this.neighborhood == neighborhood
              && this.gaussianSampling == gaussianSampling && this.inflationStep == inflationStep
      ensures tree.nodes == map[start := Node(None, 0.0)] && tree.keys == [start] && !tree.valid
      ensures inflation == inflationStep && newStart == start
      ensures fresh(tree)
    {
      this.world := world;
      this.start := start;
      this.end := end;
      this.branchSize := branchSize;
      this.neighborhood := neighborhood;
      this.gaussianSampling := gaussianSampling;
      this.inflationStep := inflationStep;
      tree := new Tree(start);
      inflation := inflationStep;
      newStart := start;
    }

    /** The line check: samples `from + t * (to - from)` for t = 0, disc,
        2 * disc, ... while t is below the segment's length, then the end
        point with bounds. */
    method ValidateLinePath(from: Coord, to: Coord, disc: real, checkBounds: bool) returns (ok: bool)
      requires 0.0 < disc
      ensures ok == LineValid(world, from, to, disc, checkBounds)
    {
      var vFromTo := Sub(to, from);
      var lenFromTo := world.norm(vFromTo);
      var lenPtr := 0.0;
      ghost var k: nat := 0;
      while lenPtr < lenFromTo
        invariant lenPtr == k as real * disc
        invariant forall j: nat :: j < k ==> PointValid(world, SampleAt(from, to, disc, j), checkBounds)
        decreases SampleCount(lenFromTo, disc) - k
      {
        SampleIndexBounded(k, lenFromTo, disc);
        var pPtr := Add(from, Scale(lenPtr, vFromTo));
        assert pPtr == SampleAt(from, to, disc, k);
        if !PointValid(world, pPtr, checkBounds) {
          LineValidMeans(world, from, to, disc, checkBounds);
          return false;
        }
        ParameterStep(k, disc);
        lenPtr := lenPtr + disc;
        k := k + 1;
      }
      forall j: nat | j as real * disc < lenFromTo
        ensures PointValid(world, SampleAt(from, to, disc, j), checkBounds)
      {
        if k <= j {
          ParameterMonotone(k, j, disc);
        }
      }
      LineValidMeans(world, from, to, disc, checkBounds);
      ok := PointValid(world, to, true);
    }

    /** The nearest node to `point`, scanning the tree in insertion order. */
    method GetClosestPoint(point: Coord) returns (closest: Coord)
      ensures closest == ClosestPoint(world.norm, tree.keys, point, start)
    {
      var minDistance := FltMax;
      closest := start;
      for i := 0 to |tree.keys|
        invariant (closest, minDistance) == ClosestScan(world.norm, tree.keys[..i], point, start)
      {
        assert tree.keys[..i + 1][..i] == tree.keys[..i];
        var p := tree.keys[i];
        var distance := Dist(world.norm, point, p);
        if distance < minDistance {
          minDistance := distance;
          closest := p;
        }
      }
      assert tree.keys[..|tree.keys|] == tree.keys;
    }

    /** The nodes strictly within `radius` of `point` whose line from `point` passes the check. */
    method GetPointsInNeighborhood(point: Coord, radius: real) returns (points: seq<Coord>)
      ensures points == Neighborhood(world, tree.keys, point, radius)
    {
      points := [];
      for i := 0 to |tree.keys|
        invariant points == Neighborhood(world, tree.keys[..i], point, radius)
      {
        assert tree.keys[..i + 1][..i] == tree.keys[..i];
        var p := tree.keys[i];
        if Dist(world.norm, point, p) < radius {
          var lineOk := ValidateLinePath(point, p, Discretization, true);
          if lineOk {
            points := points + [p];
          }
        }
      }
      assert tree.keys[..|tree.keys|] == tree.keys;
    }

    /** The loop of the RRT* parent choice: from a first candidate and its
        cost, each neighbour in turn takes over when reaching `point` through
        it is strictly cheaper. */
    method ScanNeighbors(nbs: seq<Coord>, point: Coord, first: (Coord, real)) returns (parent: Coord, cost: real)
      requires forall j :: 0 <= j < |nbs| ==> nbs[j] in tree.nodes
      ensures (parent, cost) == ParentScan(world.norm, tree.nodes, nbs, point, first)
    {
      parent, cost := first.0, first.1;
      for i := 0 to |nbs|
        invariant (parent, cost) == ParentScan(world.norm, tree.nodes, nbs[..i], point, first)
      {
        var neighbor := nbs[i];
        var newCost := tree.GetCost(neighbor).value + Dist(world.norm, neighbor, point);
        assert nbs[..i + 1][..i] == nbs[..i];
        if newCost < cost {
          parent := neighbor;
          cost := newCost;
        }
      }
      assert nbs[..|nbs|] == nbs;
    }

    /** RRT*: the cheapest way to reach `point`, through the nearest node or a neighbour. */
    method GetParentWithOptimalCost(point: Coord, closest: Coord, radius: real) returns (parent: Coord, cost: real)
      requires tree.Consistent() && closest in tree.nodes
      ensures OptimalParent(world.norm, tree.nodes, Neighborhood(world, tree.keys, point, radius),
                            closest, point, parent, cost)
      ensures (parent, cost) == ParentScan(world.norm, tree.nodes, Neighborhood(world, tree.keys, point, radius), point,
                                           (closest, ViaCost(world.norm, tree.nodes, closest, point)))
    {
      var first := (closest, tree.GetCost(closest).value + Dist(world.norm, closest, point));
      var nbs := GetPointsInNeighborhood(point, radius);
      parent, cost := ScanNeighbors(nbs, point, first);
      ParentScanOptimal(world.norm, tree.nodes, nbs, closest, point, parent, cost);
    }

    /** RRT*: re-parents to `point` every neighbour that is strictly cheaper to reach through it. */
    method Rewire(point: Coord, radius: real)
      requires tree.Consistent() && point in tree.nodes
      modifies tree
      ensures tree.Consistent() && tree.keys == old(tree.keys) && tree.valid == old(tree.valid)
      ensures tree.nodes == Rewired(world.norm, old(tree.nodes), Neighborhood(world, tree.keys, point, radius), point)
    {
      var pointCost := tree.GetCost(point).value;
      var nbs := GetPointsInNeighborhood(point, radius);
      ghost var nodes := tree.nodes;
      assert forall p :: p in nbs ==> p in nodes;
      assert Rewired(world.norm, nodes, nbs[..0], point) == nodes;
      for i := 0 to |nbs|
        invariant tree.Consistent() && tree.keys == old(tree.keys) && tree.valid == old(tree.valid)
        invariant pointCost == nodes[point].cost && tree.nodes.Keys == nodes.Keys && forall p :: p in nbs ==> p in nodes
        invariant tree.nodes == Rewired(world.norm, nodes, nbs[..i], point)
      {
        var neighbor := nbs[i];
        assert nbs[..i + 1] == nbs[..i] + [neighbor];
        var rewiredCost := pointCost + Dist(world.norm, neighbor, point);
        assert neighbor in nodes;
        ghost var current := tree.nodes;
        ghost var stored := current[neighbor].cost;
        RewiredOneMore(world.norm, nodes, nbs[..i], neighbor, point, current, rewiredCost);
        if rewiredCost < tree.GetCost(neighbor).value {
          tree.Rewire(neighbor, Some(point), rewiredCost);
          assert tree.nodes == current[neighbor := Node(Some(point), rewiredCost)];
        }
        assert tree.nodes == if rewiredCost < stored then current[neighbor := Node(Some(point), rewiredCost)] else current;
        assert tree.nodes == Rewired(world.norm, nodes, nbs[..i] + [neighbor], point);
      }
      assert nbs[..|nbs|] == nbs;
    }

    /** The goal connection: when `point` sees the goal, the goal joins the
        tree under `point` (unless it is already there) and the tree is valid. */
    method ConnectGoal(point: Coord)
      requires tree.Consistent() && point in tree.nodes
      modifies tree
      ensures tree.Consistent() && tree.valid
      ensures tree.nodes == GoalConnected(world.norm, old(tree.nodes), point, end)
      ensures tree.keys == if end in old(tree.nodes) then old(tree.keys) else old(tree.keys) + [end]
    {
      if end !in tree.nodes {
        tree.AddNode(end, Some(point), tree.GetCost(point).value + Dist(world.norm, end, point));
      }
      tree.valid := true;
    }

    /** The goal connection exactly as the source writes it, which overwrites
        the goal's entry when the goal is already in the tree. */
    method ConnectGoalAsWritten(point: Coord)
      requires tree.Consistent() && point in tree.nodes
      modifies tree
      ensures tree.Consistent() && tree.valid
      ensures tree.nodes == GoalConnectedAsWritten(world.norm, old(tree.nodes), point, end)
      ensures tree.keys == if end in old(tree.nodes) then old(tree.keys) else old(tree.keys) + [end]
    {
      tree.AddNode(end, Some(point), tree.GetCost(point).value + Dist(world.norm, end, point));
      tree.valid := true;
    }

    /** The inner sampling loop: draws the candidates in order until one is
        farther than the minimum separation from its nearest node, inflating
        the Gaussian spread after each rejected one and resetting it after
        the accepted one. None when every candidate is rejected. */
    method DrawSample(candidates: seq<Coord>) returns (found: Option<(Coord, Coord)>)
      modifies this
      ensures newStart == old(newStart)
      ensures found.Some? ==>
                exists k ::
                  && 0 <= k < |candidates|
                  && found.value == (candidates[k], ClosestPoint(world.norm, tree.keys, candidates[k], start))
                  && Separated(world.norm, tree.keys, start, candidates[k])
                  && forall j :: 0 <= j < k ==> !Separated(world.norm, tree.keys, start, candidates[j])
      ensures found.Some? ==> inflation == if gaussianSampling then inflationStep else old(inflation)
      ensures found.None? ==>
                && (forall j :: 0 <= j < |candidates| ==> !Separated(world.norm, tree.keys, start, candidates[j]))
                && inflation == if gaussianSampling then InflatedTimes(old(inflation), inflationStep, |candidates|)
                                else old(inflation)
    {
      for i := 0 to |candidates|
        invariant newStart == old(newStart)
        invariant forall j :: 0 <= j < i ==> !Separated(world.norm, tree.keys, start, candidates[j])
        invariant inflation == if gaussianSampling then InflatedTimes(old(inflation), inflationStep, i)
                               else old(inflation)
      {
        var point := candidates[i];
        var closest := GetClosestPoint(point);
        if Dist(world.norm, point, closest) > MinSampleSeparation {
          if gaussianSampling {
            inflation := inflationStep;
          }
          return Some((point, closest));
        }
        if gaussianSampling {
          inflation := Inflated(inflation, inflationStep);
        }
      }
      return None;
    }

    /** The parent and cost of an accepted `point`: plain RRT takes the
        nearest node with the length of the new segment to it as the cost; RRT* takes
        the cheapest way through the nearest node or a neighbour. */
    method ChooseParent(point: Coord, closest: Coord) returns (parent: Coord, cost: real)
      requires Inv() && closest in tree.nodes
      ensures neighborhood.None? ==> parent == closest && cost == Dist(world.norm, point, closest)
      ensures neighborhood.Some? ==>
                OptimalParent(world.norm, tree.nodes, Neighborhood(world, tree.keys, point, neighborhood.value),
                              closest, point, parent, cost)
      ensures parent in tree.nodes && 0.0 <= cost
      ensures neighborhood.Some? ==> ViaCost(world.norm, tree.nodes, parent, point) <= cost
      ensures (parent, cost) == ChosenParent(State(), point, closest)
    {
      if neighborhood.None? {
        parent, cost := closest, Dist(world.norm, point, closest);
        DistZero(world.norm, point, closest);
      } else {
        parent, cost := GetParentWithOptimalCost(point, closest, neighborhood.value);
        DistZero(world.norm, parent, point);
      }
    }

    /** Adds `point` under `parent` with `cost`, makes it the centre of
        Gaussian sampling and, for RRT*, rewires its neighbours through it. */
    method AddBranch(point: Coord, parent: Coord, cost: real)
      requires tree.Consistent()
      modifies this, tree
      ensures tree.Consistent() && tree.valid == old(tree.valid)
      ensures newStart == point && inflation == old(inflation)
      ensures tree.keys == if point in old(tree.nodes) then old(tree.keys) else old(tree.keys) + [point]
      ensures point in tree.nodes && tree.nodes[point].parent.Some?
      ensures var grown := old(tree.nodes)[point := Node(Some(parent), cost)];
              tree.nodes == if neighborhood.None? then grown
                            else Rewired(world.norm, grown, Neighborhood(world, tree.keys, point, neighborhood.value), point)
    {
      tree.AddNode(point, Some(parent), cost);
      newStart := point;
      if neighborhood.Some? {
        Rewire(point, neighborhood.value);
      }
    }

    /** The goal test after a branch is added: when the line from the new
        point to the goal passes the check, the goal is connected and the
        tree becomes valid. The new point's own entry stays as it is. */
    method TryGoal(point: Coord)
      requires tree.Consistent() && point in tree.nodes
      modifies tree
      ensures tree.Consistent() && point in tree.nodes && tree.nodes[point] == old(tree.nodes[point])
      ensures old(tree.keys) <= tree.keys
      ensures tree.valid == (old(tree.valid) || LineValid(world, point, end, Discretization, true))
      ensures old(Inv()) ==> Inv()
      ensures State() == GoalTried(old(State()), point)
    {
      var goalOk := ValidateLinePath(point, end, Discretization, true);
      if goalOk {
        ghost var keys1 := tree.keys;
        if Inv() {
          GoalKeepsShape(world.norm, tree.nodes, tree.keys, start, neighborhood.Some?, point, end);
        }
        ConnectGoal(point);
        assert keys1 <= tree.keys;
      }
    }

    /** A branch that passed the line check: choose its parent and add it
        (with the RRT* rewiring). A point not yet in the tree keeps the
        tree's shape. */
    method Branch(point: Coord, closest: Coord)
      requires Inv() && closest in tree.nodes
      modifies this, tree
      ensures point !in old(tree.nodes) ==> Inv()
      ensures tree.Consistent() && tree.valid == old(tree.valid)
      ensures newStart == point && inflation == old(inflation)
      ensures point in tree.nodes && tree.nodes[point].parent.Some?
      ensures tree.keys == if point in old(tree.nodes) then old(tree.keys) else old(tree.keys) + [point]
      ensures State() == Branched(old(State()), point, closest)
    {
      ghost var nodes0, keys0 := tree.nodes, tree.keys;
      var parent, cost := ChooseParent(point, closest);
      AddBranch(point, parent, cost);
      if point !in nodes0 {
        ghost var radius := if neighborhood.Some? then neighborhood.value else 0.0;
        BranchKeepsShape(world.norm, nodes0, keys0, start, neighborhood.Some?, point, parent, cost,
                         Neighborhood(world, keys0 + [point], point, radius));
      }
    }

    /** The branch and then the goal test from its new point. */
    method Grow(point: Coord, closest: Coord)
      requires Inv() && closest in tree.nodes
      modifies this, tree
      ensures point !in old(tree.nodes) ==> Inv()
      ensures newStart == point && inflation == old(inflation)
      ensures point in tree.nodes && tree.nodes[point].parent.Some?
      ensures old(tree.keys) <= tree.keys
      ensures tree.valid == (old(tree.valid) || LineValid(world, point, end, Discretization, true))
      ensures State() == Grown(old(State()), point, closest)
    {
      ghost var keys0 := tree.keys;
      Branch(point, closest);
      ghost var keys1 := tree.keys;
      assert keys0 <= keys1;
      TryGoal(point);
      assert keys1 <= tree.keys;
    }

    /** The rest of one tree-building iteration, for a kept sample and its
        nearest node: steer, check the new branch, add it and try the goal,
        or inflate the Gaussian spread when the branch fails the check. */
    method Extend(sample: Coord, closest: Coord)
      requires Inv()
      requires closest == ClosestPoint(world.norm, tree.keys, sample, start)
      requires Separated(world.norm, tree.keys, start, sample)
      modifies this, tree
      ensures Dist(world.norm, sample, start) < FltMax ==> Inv()
      ensures var point := SetDistance(world.norm, closest, sample, branchSize);
              if !LineValid(world, point, closest, Discretization, true) then
                && tree.nodes == old(tree.nodes) && tree.keys == old(tree.keys) && tree.valid == old(tree.valid)
                && newStart == old(newStart)
                && inflation == if gaussianSampling then Inflated(old(inflation), inflationStep) else old(inflation)
              else
                && newStart == point && inflation == old(inflation)
                && point in tree.nodes && tree.nodes[point].parent.Some?
                && old(tree.keys) <= tree.keys
                && tree.valid == (old(tree.valid) || LineValid(world, point, end, Discretization, true))
      ensures State() == Extended(old(State()), sample)
    {
      assert closest in tree.nodes by {
        ClosestScanFinds(world.norm, tree.keys, sample, start);
      }
      var point := SetDistance(world.norm, closest, sample, branchSize);
      if Dist(world.norm, sample, start) < FltMax {
        SteeredIsFresh(world.norm, tree.keys, start, sample, branchSize);
      }
      var lineOk := ValidateLinePath(point, closest, Discretization, true);
      if lineOk {
        Grow(point, closest);
      } else if gaussianSampling {
        inflation := Inflated(inflation, inflationStep);
      }
    }

    /** One iteration of tree building with the sampler's draws given in
        order. False when every draw was rejected (the source would keep
        drawing). The spread factor an iteration leaves behind is the step
        itself or one inflation of it: the reset after each accepted draw
        undoes anything earlier. */
    method Step(candidates: seq<Coord>) returns (drawn: bool)
      requires Inv()
      modifies this, tree
      ensures drawn <==> exists j :: 0 <= j < |candidates| && Separated(world.norm, old(tree.keys), start, candidates[j])
      ensures !drawn ==> tree.nodes == old(tree.nodes) && tree.keys == old(tree.keys) && tree.valid == old(tree.valid)
      ensures (forall j :: 0 <= j < |candidates| ==> Dist(world.norm, candidates[j], start) < FltMax) ==> Inv()
      ensures drawn && gaussianSampling ==>
                inflation == inflationStep || inflation == Inflated(inflationStep, inflationStep)
      ensures old(tree.valid) ==> tree.valid
      ensures old(tree.keys) <= tree.keys
      ensures drawn ==>
                exists k ::
                  && 0 <= k < |candidates|
                  && Separated(world.norm, old(tree.keys), start, candidates[k])
                  && (forall j :: 0 <= j < k ==> !Separated(world.norm, old(tree.keys), start, candidates[j]))
                  && State() == Extended(old(State()), candidates[k])
                  && var closest := ClosestPoint(world.norm, old(tree.keys), candidates[k], start);
                     var point := SetDistance(world.norm, closest, candidates[k], branchSize);
                     var ok := LineValid(world, point, closest, Discretization, true);
                     && newStart == (if ok then point else old(newStart))
                     && inflation == if !gaussianSampling then old(inflation)
                                     else if ok then inflationStep else Inflated(inflationStep, inflationStep)
      ensures !drawn ==>
                && newStart == old(newStart)
                && inflation == if gaussianSampling then InflatedTimes(old(inflation), inflationStep, |candidates|)
                                else old(inflation)
    {
      var found := DrawSample(candidates);
      if found.None? {
        return false;
      }
      var sample, closest := found.value.0, found.value.1;
      Extend(sample, closest);
      drawn := true;
    }

    /** The end of `generatePath`: nothing when the tree is not valid;
        otherwise the tree path from the start to the goal, straightened
        when asked, and its length. */
    method GeneratePath(startHeading: real, straighten: bool) returns (plan: Plan)
      requires Inv()
      ensures plan.NoPath? <==> !tree.valid
      ensures plan.Plan? ==>
                && 1 <= |plan.path|
                && plan.path[0].pos == start && plan.path[0].heading == Some(startHeading)
                && plan.path[|plan.path| - 1].pos == end
                && plan.distance == PathLength(world.norm, plan.path)
                && exists chain ::
                     && TreePath(tree.nodes, chain, end, startHeading)
                     && plan.path == (if straighten then Straightened(world, chain) else chain)
                     && plan.distance <= PathLength(world.norm, chain)
    {
      if !tree.valid {
        return NoPath;
      }
      TreeShapeWalkStops(world.norm, tree.nodes, tree.keys, start, neighborhood.Some?, end);
      var found := tree.FindPath(end, startHeading);
      if found.KeyError? {
        ghost var s :| |s| >= 1 && s[0] == end && s[|s| - 1] == found.key && ParentWalk(tree.nodes, s);
        WalkStaysInTree(tree.nodes, s);
        assert false;
      }
      var chain := found.value;
      var path := chain;
      if straighten {
        for i := 0 to 2
          invariant path == if i == 0 then chain else if i == 1 then StraightenRound(world, chain)
                            else Straightened(world, chain)
        {
          path := HalveAndTest(world, path);
          ReversedLength(path);
          path := HalveAndTest(world, Reversed(path));
          ReversedLength(path);
          path := Reversed(path);
        }
        StraightenedShortens(world, chain);
      }
      var distance := SumDistances(world.norm, path);
      plan := Plan(path, distance);
    }
  }
}
