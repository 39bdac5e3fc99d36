/** The decision rules of the planner, stated on values (rrt.py, class `RRT`):
    the nearest-node scan, the RRT* neighbourhood, the choice of parent, the
    rewiring of neighbours, the goal connection, the Gaussian sampler's spread
    factor and the shape the tree keeps while it grows. */
module PlannerRules {
  import opened Geometry
  import opened Validity
  import opened RrtTree
  import opened Straighten

  /** Largest float32 value, the initial best distance of the nearest-node scan. */
  const FltMax: real := 340282346638528859811704183484516925440.0

  /** A sample this close to its nearest tree node (or closer) is drawn again. */
  const MinSampleSeparation: real := 0.1

  /** Upper limit of the Gaussian sampler's spread factor. */
  const InflationCap: real := 5.0

  // ---------------------------------------------------------------- nearest node

  /** The nearest-node scan over `keys` in order: the best coordinate and
      distance so far, starting from `fallback` at FltMax and replaced only on
      a strictly smaller distance. */
  function ClosestScan(norm: Coord -> real, keys: seq<Coord>, point: Coord, fallback: Coord): (Coord, real)
    decreases |keys|
  {
    if keys == [] then (fallback, FltMax)
    else
      var best := ClosestScan(norm, keys[..|keys| - 1], point, fallback);
      var d := Dist(norm, point, keys[|keys| - 1]);
      if d < best.1 then (keys[|keys| - 1], d) else best
  }

  /** What the scan finds: the fallback when no key is nearer than FltMax;
      otherwise a key at minimal distance, and the first one in key order. */
  lemma {:induction false} ClosestScanFinds(norm: Coord -> real, keys: seq<Coord>, point: Coord, fallback: Coord)
    ensures var (c, m) := ClosestScan(norm, keys, point, fallback);
            || (&& c == fallback && m == FltMax
                && forall j :: 0 <= j < |keys| ==> FltMax <= Dist(norm, point, keys[j]))
            || (exists k ::
                  && 0 <= k < |keys| && c == keys[k] && m == Dist(norm, point, c) && m < FltMax
                  && (forall j :: 0 <= j < |keys| ==> m <= Dist(norm, point, keys[j]))
                  && (forall j :: 0 <= j < k ==> m < Dist(norm, point, keys[j])))
    decreases |keys|
  {
    if keys != [] {
      var n := |keys|;
      var pre := keys[..n - 1];
      ClosestScanFinds(norm, pre, point, fallback);
      var (c, m) := ClosestScan(norm, pre, point, fallback);
      assert forall j :: 0 <= j < n - 1 ==> pre[j] == keys[j];
      if Dist(norm, point, keys[n - 1]) < m {
        assert ClosestScan(norm, keys, point, fallback) == (keys[n - 1], Dist(norm, point, keys[n - 1]));
      } else if c == fallback && m == FltMax && forall j :: 0 <= j < n - 1 ==> FltMax <= Dist(norm, point, pre[j]) {
      } else {
        var k :| && 0 <= k < n - 1 && c == pre[k] && m == Dist(norm, point, c) && m < FltMax
                 && (forall j :: 0 <= j < n - 1 ==> m <= Dist(norm, point, pre[j]))
                 && (forall j :: 0 <= j < k ==> m < Dist(norm, point, pre[j]));
        assert c == keys[k];
      }
    }
  }

  /** The node `getClosestPoint` returns. */
  function ClosestPoint(norm: Coord -> real, keys: seq<Coord>, point: Coord, fallback: Coord): Coord {
    ClosestScan(norm, keys, point, fallback).0
  }

  /** A drawn sample is kept when it is farther than the minimum separation from its nearest node. */
  predicate Separated(norm: Coord -> real, keys: seq<Coord>, root: Coord, p: Coord) {
    MinSampleSeparation < Dist(norm, p, ClosestPoint(norm, keys, p, root))
  }

  /** The point steered from a kept sample is not in the tree yet, as long as
      the root (a key) is nearer to the sample than FltMax. */
  lemma SteeredIsFresh(norm: Coord -> real, keys: seq<Coord>, root: Coord, sample: Coord, length: real)
    requires IsNorm(norm) && 0.0 < length && root in keys
    requires Separated(norm, keys, root, sample) && Dist(norm, sample, root) < FltMax
    ensures SetDistance(norm, ClosestPoint(norm, keys, sample, root), sample, length) !in keys
  {
    var closest := ClosestPoint(norm, keys, sample, root);
    ClosestScanFinds(norm, keys, sample, root);
    var i :| 0 <= i < |keys| && keys[i] == root;
    var k :| && 0 <= k < |keys| && closest == keys[k]
             && (forall j :: 0 <= j < |keys| ==> Dist(norm, sample, closest) <= Dist(norm, sample, keys[j]));
    SetDistanceSteers(norm, closest, sample, length);
    DistSymmetric(norm, closest, sample);
    var point := SetDistance(norm, closest, sample, length);
    if point in keys {
      var j :| 0 <= j < |keys| && keys[j] == point;
      assert Dist(norm, sample, closest) <= Dist(norm, sample, point);
      DistSymmetric(norm, sample, point);
      if Dist(norm, closest, sample) < length {
        DistZero(norm, sample, sample);
      }
      assert false;
    }
  }

  // ---------------------------------------------------------------- RRT* neighbourhood

  /** A node is a neighbour of `point` when it is strictly within `radius` and
      the line from `point` to it passes the check with bounds. */
  predicate InNeighborhood(w: World, point: Coord, radius: real, p: Coord) {
    Dist(w.norm, point, p) < radius && LineValid(w, point, p, Discretization, true)
  }

  /** The neighbours of `point` among `keys`, in key order. */
  function Neighborhood(w: World, keys: seq<Coord>, point: Coord, radius: real): (r: seq<Coord>)
    ensures |r| <= |keys|
    ensures forall j :: 0 <= j < |r| ==> r[j] in keys
    decreases |keys|
  {
    if keys == [] then []
    else
      var last := keys[|keys| - 1];
      Neighborhood(w, keys[..|keys| - 1], point, radius)
        + (if InNeighborhood(w, point, radius, last) then [last] else [])
  }

  /** The neighbourhood holds exactly the keys that are neighbours of `point`. */
  lemma {:induction false} NeighborhoodMembers(w: World, keys: seq<Coord>, point: Coord, radius: real)
    ensures forall p :: p in Neighborhood(w, keys, point, radius) <==> p in keys && InNeighborhood(w, point, radius, p)
    decreases |keys|
  {
    if keys != [] {
      var pre := keys[..|keys| - 1];
      NeighborhoodMembers(w, pre, point, radius);
      assert keys == pre + [keys[|keys| - 1]];
    }
  }

  /** The cost of reaching `point` through the node `p`. */
  function ViaCost(norm: Coord -> real, nodes: map<Coord, Node>, p: Coord, point: Coord): real
    requires p in nodes
  {
    nodes[p].cost + Dist(norm, p, point)
  }

  /** What `getParentWithOptimalCost` chooses: a parent and the cost through it,
      no worse than the nearest node and than every neighbour, and on ties the
      earlier candidate (the nearest node first, then the neighbours in order). */
  ghost predicate OptimalParent(norm: Coord -> real, nodes: map<Coord, Node>, nbs: seq<Coord>,
                                closest: Coord, point: Coord, parent: Coord, cost: real)
    requires closest in nodes && forall j :: 0 <= j < |nbs| ==> nbs[j] in nodes
  {
    && parent in nodes && cost == ViaCost(norm, nodes, parent, point)
    && cost <= ViaCost(norm, nodes, closest, point)
    && (forall j :: 0 <= j < |nbs| ==> cost <= ViaCost(norm, nodes, nbs[j], point))
    && (|| (parent == closest && cost == ViaCost(norm, nodes, closest, point))
        || (exists k ::
              && 0 <= k < |nbs| && nbs[k] == parent && cost < ViaCost(norm, nodes, closest, point)
              && forall j :: 0 <= j < k ==> cost < ViaCost(norm, nodes, nbs[j], point)))
  }

  /** The scan of `getParentWithOptimalCost` over the neighbours in order,
      from a first candidate and its cost: a neighbour takes over only when
      reaching `point` through it is strictly cheaper. */
  function ParentScan(norm: Coord -> real, nodes: map<Coord, Node>, nbs: seq<Coord>, point: Coord,
                      first: (Coord, real)): (Coord, real)
    requires forall j :: 0 <= j < |nbs| ==> nbs[j] in nodes
    decreases |nbs|
  {
    if nbs == [] then first
    else
      var best := ParentScan(norm, nodes, nbs[..|nbs| - 1], point, first);
      var c := ViaCost(norm, nodes, nbs[|nbs| - 1], point);
      if c < best.1 then (nbs[|nbs| - 1], c) else best
  }

  /** Started from the nearest node, the scan makes the optimal choice. */
  lemma {:induction false} ParentScanOptimal(norm: Coord -> real, nodes: map<Coord, Node>, nbs: seq<Coord>,
                                             closest: Coord, point: Coord, parent: Coord, cost: real)
    requires closest in nodes && forall j :: 0 <= j < |nbs| ==> nbs[j] in nodes
    requires (parent, cost) == ParentScan(norm, nodes, nbs, point, (closest, ViaCost(norm, nodes, closest, point)))
    ensures OptimalParent(norm, nodes, nbs, closest, point, parent, cost)
    decreases |nbs|
  {
    if nbs != [] {
      var n := |nbs|;
      var pre := nbs[..n - 1];
      var first := (closest, ViaCost(norm, nodes, closest, point));
      var (p, c) := ParentScan(norm, nodes, pre, point, first);
      ParentScanOptimal(norm, nodes, pre, closest, point, p, c);
      assert forall j :: 0 <= j < n - 1 ==> pre[j] == nbs[j];
      var last := nbs[n - 1];
      if ViaCost(norm, nodes, last, point) < c {
        assert (parent, cost) == (last, ViaCost(norm, nodes, last, point));
      } else if p == closest && c == ViaCost(norm, nodes, closest, point) {
      } else {
        var k :| && 0 <= k < n - 1 && pre[k] == p && c < ViaCost(norm, nodes, closest, point)
                 && forall j :: 0 <= j < k ==> c < ViaCost(norm, nodes, pre[j], point);
        assert nbs[k] == p;
      }
    }
  }

  /** The tree after `rewire(point, r)` with neighbours `nbs`: a neighbour is
      re-parented to `point` when going through `point` is strictly cheaper
      than its stored cost; the costs of its descendants are not updated. */
  function Rewired(norm: Coord -> real, nodes: map<Coord, Node>, nbs: seq<Coord>, point: Coord): (r: map<Coord, Node>)
    requires point in nodes
    ensures r.Keys == nodes.Keys
  {
    map c | c in nodes ::
      if c in nbs && nodes[point].cost + Dist(norm, c, point) < nodes[c].cost
      then Node(Some(point), nodes[point].cost + Dist(norm, c, point))
      else nodes[c]
  }

  /** What rewiring changes: only neighbours, only to hang them under `point`
      at the cost through it, and only when that is strictly cheaper; no cost
      ever goes up. */
  lemma RewiredChanges(norm: Coord -> real, nodes: map<Coord, Node>, nbs: seq<Coord>, point: Coord)
    requires point in nodes
    ensures var r := Rewired(norm, nodes, nbs, point);
            && (forall c :: c in nodes && c !in nbs ==> r[c] == nodes[c])
            && (forall c :: c in nodes ==> r[c].cost <= nodes[c].cost)
            && (forall c :: c in nodes && r[c] != nodes[c] ==>
                  && c in nbs
                  && r[c] == Node(Some(point), nodes[point].cost + Dist(norm, c, point))
                  && r[c].cost < nodes[c].cost)
  {
  }

  /** Rewiring one more neighbour, as the loop of `rewire` does, against the
      stored cost as rewired so far. */
  lemma RewiredOneMore(norm: Coord -> real, nodes: map<Coord, Node>, nbs: seq<Coord>, nb: Coord, point: Coord,
                       current: map<Coord, Node>, cost: real)
    requires point in nodes && nb in nodes
    requires current == Rewired(norm, nodes, nbs, point) && cost == nodes[point].cost + Dist(norm, nb, point)
    ensures Rewired(norm, nodes, nbs + [nb], point)
              == if cost < current[nb].cost then current[nb := Node(Some(point), cost)] else current
  {
    var next := if cost < current[nb].cost then current[nb := Node(Some(point), cost)] else current;
    var r := Rewired(norm, nodes, nbs + [nb], point);
    forall c | c in nodes
      ensures r[c] == next[c]
    {
      assert c in nbs + [nb] <==> c in nbs || c == nb;
    }
    assert r.Keys == next.Keys;
  }

  /** Rewiring never touches a node that is not dearer than `point`: not
      `point` itself, and not its ancestors when costs grow along the tree. */
  lemma RewiredSparesCheaper(norm: Coord -> real, nodes: map<Coord, Node>, nbs: seq<Coord>, point: Coord, c: Coord)
    requires IsNorm(norm) && point in nodes && c in nodes && nodes[c].cost <= nodes[point].cost
    ensures Rewired(norm, nodes, nbs, point)[c] == nodes[c]
  {
    DistZero(norm, c, point);
  }

  // ---------------------------------------------------------------- goal connection

  /** The goal connection as the source writes it: the goal gets `point` as
      its parent and the cost through it, overwriting any entry it had. */
  function GoalConnectedAsWritten(norm: Coord -> real, nodes: map<Coord, Node>, point: Coord, end: Coord): (r: map<Coord, Node>)
    requires point in nodes
    ensures end in r && r[end].parent == Some(point)
    ensures forall c :: c in nodes && c != end ==> c in r && r[c] == nodes[c]
  {
    nodes[end := Node(Some(point), nodes[point].cost + Dist(norm, end, point))]
  }

  /** The goal connection with an already present goal left as it is. */
  function GoalConnected(norm: Coord -> real, nodes: map<Coord, Node>, point: Coord, end: Coord): (r: map<Coord, Node>)
    requires point in nodes
    ensures end in r && r.Keys == nodes.Keys + {end}
    ensures end in nodes ==> r == nodes
    ensures end !in nodes ==> r == GoalConnectedAsWritten(norm, nodes, point, end)
  {
    if end in nodes then nodes else GoalConnectedAsWritten(norm, nodes, point, end)
  }

  /** Two entries that are each other's parent: no walk from either ever stops. */
  lemma {:induction false} TwoCycleNeverStops(nodes: map<Coord, Node>, a: Coord, b: Coord, n: nat)
    requires a in nodes && b in nodes && nodes[a].parent == Some(b) && nodes[b].parent == Some(a)
    ensures !WalkStops(nodes, a, n) && !WalkStops(nodes, b, n)
    decreases n
  {
    if 0 < n {
      TwoCycleNeverStops(nodes, a, b, n - 1);
    }
  }

  /** When the start is the goal, the first accepted point `p` is joined to the
      root, and the goal connection as written then makes the root's parent
      `p`: following parents from the goal never reaches an entry without a
      parent, so the path search never ends. */
  lemma StartAtGoalCycles(norm: Coord -> real, s: Coord, p: Coord, d: real, n: nat)
    requires s != p
    ensures var grown := map[s := Node(None, 0.0), p := Node(Some(s), d)];
            !WalkStops(GoalConnectedAsWritten(norm, grown, p, s), s, n)
  {
    var grown := map[s := Node(None, 0.0), p := Node(Some(s), d)];
    TwoCycleNeverStops(GoalConnectedAsWritten(norm, grown, p, s), s, p, n);
  }

  // ---------------------------------------------------------------- the Gaussian spread factor

  function Min(a: real, b: real): real {
    if a <= b then a else b
  }

  /** One inflation of the spread factor: add the step, cap at InflationCap. */
  function Inflated(x: real, step: real): (r: real)
    ensures r == Min(x + step, InflationCap)
  {
    if x + step > InflationCap then InflationCap else x + step
  }

  /** The spread factor after `n` inflations from `x`. */
  function InflatedTimes(x: real, step: real, n: nat): real
    decreases n
  {
    if n == 0 then x else Inflated(InflatedTimes(x, step, n - 1), step)
  }

  /** `n` steps laid end to end. */
  function Steps(n: nat, step: real): real
    decreases n
  {
    if n == 0 then 0.0 else Steps(n - 1, step) + step
  }

  /** From the configured step, `n` inflations give `n + 1` steps, capped at
      InflationCap (a step above the cap is itself kept until inflated once). */
  lemma {:induction false} InflationSchedule(step: real, n: nat)
    requires 0.0 <= step && (1 <= n || step <= InflationCap)
    ensures InflatedTimes(step, step, n) == Min(Steps(n + 1, step), InflationCap)
    decreases n
  {
    assert Steps(1, step) == step;
    if 1 < n {
      InflationSchedule(step, n - 1);
      var before := Steps(n, step);
      if before <= InflationCap {
        assert Inflated(before, step) == Min(before + step, InflationCap);
      } else {
        assert Inflated(InflationCap, step) == InflationCap;
      }
    }
  }

  // ---------------------------------------------------------------- the shape of the tree

  /** The shape the tree keeps: the root is `root` without a parent and at cost
      0, every other entry has a parent inside the tree, costs are not
      negative, and parents either come first in insertion order (plain RRT)
      or keep the RRT* cost discipline. */
  ghost predicate TreeShape(norm: Coord -> real, nodes: map<Coord, Node>, keys: seq<Coord>, root: Coord, rrtstar: bool) {
    && root in nodes && nodes[root] == Node(None, 0.0)
    && (forall c :: c in nodes && c != root ==> nodes[c].parent.Some?)
    && (forall c :: c in nodes ==> 0.0 <= nodes[c].cost)
    && ParentsPresent(nodes)
    && (if rrtstar then CostOrdered(norm, nodes) else KeyOrdered(nodes, keys))
  }

  /** In a tree of that shape every walk along parents stops. */
  lemma TreeShapeWalkStops(norm: Coord -> real, nodes: map<Coord, Node>, keys: seq<Coord>, root: Coord, rrtstar: bool, c: Coord)
    requires IsNorm(norm) && TreeShape(norm, nodes, keys, root, rrtstar)
    requires (forall d :: d in nodes <==> d in keys) && c in nodes
    ensures exists n: nat :: WalkStops(nodes, c, n)
  {
    if rrtstar {
      CostOrderedWalkStops(norm, nodes, c);
    } else {
      var i :| 0 <= i < |keys| && keys[i] == c;
      KeyOrderedWalkStops(nodes, keys, i);
    }
  }

  /** Inserting a new entry under a parent inside the tree keeps the shape,
      given a cost that is not negative and, for RRT*, covers the edge. */
  lemma InsertKeepsShape(norm: Coord -> real, nodes: map<Coord, Node>, keys: seq<Coord>, root: Coord, rrtstar: bool,
                         point: Coord, parent: Coord, cost: real)
    requires IsNorm(norm) && TreeShape(norm, nodes, keys, root, rrtstar)
    requires (forall d :: d in nodes <==> d in keys)
    requires point !in nodes && parent in nodes && 0.0 <= cost
    requires rrtstar ==> ViaCost(norm, nodes, parent, point) <= cost
    ensures TreeShape(norm, nodes[point := Node(Some(parent), cost)], keys + [point], root, rrtstar)
  {
    var grown := nodes[point := Node(Some(parent), cost)];
    if !rrtstar {
      var keys' := keys + [point];
      forall i | 0 <= i < |keys'| && keys'[i] in grown && grown[keys'[i]].parent.Some?
        ensures grown[keys'[i]].parent.value in keys'[..i]
      {
        if i < |keys| {
          assert keys'[i] == keys[i] && keys'[..i] == keys[..i];
        } else {
          assert parent in keys;
        }
      }
    }
  }

  /** Rewiring keeps the RRT* shape: the root and `point` itself stay, and a
      re-parented neighbour is exactly as dear as the way through `point`. */
  lemma RewiredKeepsShape(norm: Coord -> real, nodes: map<Coord, Node>, keys: seq<Coord>, root: Coord,
                          nbs: seq<Coord>, point: Coord)
    requires IsNorm(norm) && TreeShape(norm, nodes, keys, root, true) && point in nodes
    ensures TreeShape(norm, Rewired(norm, nodes, nbs, point), keys, root, true)
  {
    var r := Rewired(norm, nodes, nbs, point);
    RewiredSparesCheaper(norm, nodes, nbs, point, root);
    RewiredSparesCheaper(norm, nodes, nbs, point, point);
    forall c | c in r && r[c].parent.Some?
      ensures && r[c].parent.value in r
              && r[c].parent.value != c
              && r[r[c].parent.value].cost + Dist(norm, r[c].parent.value, c) <= r[c].cost
    {
      if r[c] != nodes[c] {
        if c == point {
          assert false;
        }
        DistSymmetric(norm, c, point);
      }
    }
    forall c | c in r
      ensures 0.0 <= r[c].cost
    {
      if r[c] != nodes[c] {
        DistZero(norm, c, point);
      }
    }
  }

  /** Adding a branch keeps the shape: the new entry goes in under a parent
      inside the tree and, for RRT*, its neighbours are then rewired through it. */
  lemma BranchKeepsShape(norm: Coord -> real, nodes: map<Coord, Node>, keys: seq<Coord>, root: Coord, rrtstar: bool,
                         point: Coord, parent: Coord, cost: real, nbs: seq<Coord>)
    requires IsNorm(norm) && TreeShape(norm, nodes, keys, root, rrtstar)
    requires (forall d :: d in nodes <==> d in keys)
    requires point !in nodes && parent in nodes && 0.0 <= cost
    requires rrtstar ==> ViaCost(norm, nodes, parent, point) <= cost
    ensures var grown := nodes[point := Node(Some(parent), cost)];
            TreeShape(norm, if rrtstar then Rewired(norm, grown, nbs, point) else grown, keys + [point], root, rrtstar)
  {
    var grown := nodes[point := Node(Some(parent), cost)];
    InsertKeepsShape(norm, nodes, keys, root, rrtstar, point, parent, cost);
    if rrtstar {
      RewiredKeepsShape(norm, grown, keys + [point], root, nbs, point);
    }
  }

  /** Connecting the goal (corrected form) keeps the shape. */
  lemma GoalKeepsShape(norm: Coord -> real, nodes: map<Coord, Node>, keys: seq<Coord>, root: Coord, rrtstar: bool,
                       point: Coord, end: Coord)
    requires IsNorm(norm) && TreeShape(norm, nodes, keys, root, rrtstar)
    requires (forall d :: d in nodes <==> d in keys) && point in nodes
    ensures TreeShape(norm, GoalConnected(norm, nodes, point, end), if end in nodes then keys else keys + [end], root, rrtstar)
  {
    if end !in nodes {
      DistZero(norm, end, point);
      DistSymmetric(norm, end, point);
      InsertKeepsShape(norm, nodes, keys, root, rrtstar, end, point, nodes[point].cost + Dist(norm, end, point));
    }
  }

  /** Under the RRT* cost discipline, a node's stored cost is at least the
      root's plus the length of its tree path. Rewiring does not push cost
      decreases down to descendants, so the stored cost can be larger. */
  lemma {:induction false} CostBoundsTreePath(norm: Coord -> real, nodes: map<Coord, Node>, path: seq<Waypoint>,
                                              end: Coord, hdg: real, k: nat)
    requires CostOrdered(norm, nodes) && TreePath(nodes, path, end, hdg) && 1 <= k <= |path|
    ensures nodes[path[0].pos].cost + PathLength(norm, path[..k]) <= nodes[path[k - 1].pos].cost
    decreases k
  {
    if 1 < k {
      CostBoundsTreePath(norm, nodes, path, end, hdg, k - 1);
      assert path[..k] == path[..k - 1] + [path[k - 1]];
      PathLengthAppend(norm, path[..k - 1], path[k - 1]);
    }
  }
}
