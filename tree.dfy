/** The planner's tree (rrt.py, class `Tree`): a dictionary from coordinates to
    `{parent, cost}` entries, plus the `valid` flag that the planner raises
    once the goal is connected. */
module RrtTree {
  import opened Geometry

  datatype Option<T> = None | Some(value: T)

  /** A tree entry: the parent coordinate (None for the root) and the stored cost. */
  datatype Node = Node(parent: Option<Coord>, cost: real)

  /** A path element: a coordinate and a heading; only the start carries a heading. */
  datatype Waypoint = Waypoint(pos: Coord, heading: Option<real>)

  /** A dictionary lookup: the value found, or the KeyError raised for a missing key. */
  datatype Result<T> = Ok(value: T) | KeyError(key: Coord)

  /** `s` is a walk along parent links: each element's parent is the next one. */
  ghost predicate ParentWalk(nodes: map<Coord, Node>, s: seq<Coord>) {
    forall i :: 0 <= i < |s| - 1 ==> s[i] in nodes && nodes[s[i]].parent == Some(s[i + 1])
  }

  /** Following parent links from `c` stops within `n` steps, at a missing key
      or at an entry whose parent is None. */
  ghost predicate WalkStops(nodes: map<Coord, Node>, c: Coord, n: nat)
    decreases n
  {
    || c !in nodes
    || nodes[c].parent.None?
    || (0 < n && WalkStops(nodes, nodes[c].parent.value, n - 1))
  }

  /** `path` is what `find_path(end, startHeading)` returns: it starts at an entry
      without a parent, carrying the start heading, ends at `end`, and every
      later waypoint has no heading and has its predecessor as its parent. */
  ghost predicate TreePath(nodes: map<Coord, Node>, path: seq<Waypoint>, end: Coord, startHeading: real) {
    && 1 <= |path|
    && path[|path| - 1].pos == end
    && path[0].pos in nodes && nodes[path[0].pos].parent.None?
    && path[0].heading == Some(startHeading)
    && (forall i :: 0 < i < |path| ==> path[i].heading.None?)
    && (forall i :: 0 < i < |path| ==>
          path[i].pos in nodes && nodes[path[i].pos].parent == Some(path[i - 1].pos))
  }

  /** Every parent link names an entry of the tree. */
  ghost predicate ParentsPresent(nodes: map<Coord, Node>) {
    forall c :: c in nodes && nodes[c].parent.Some? ==> nodes[c].parent.value in nodes
  }

  /** A walk along parent links that starts inside the tree stays inside it. */
  lemma WalkStaysInTree(nodes: map<Coord, Node>, s: seq<Coord>)
    requires ParentsPresent(nodes) && 1 <= |s| && s[0] in nodes && ParentWalk(nodes, s)
    ensures s[|s| - 1] in nodes
  {
    if 1 < |s| {
      assert s[|s| - 2] in nodes;
    }
  }

  /** Plain RRT never re-parents: every entry's parent was inserted before it. */
  ghost predicate KeyOrdered(nodes: map<Coord, Node>, keys: seq<Coord>) {
    forall i :: 0 <= i < |keys| && keys[i] in nodes && nodes[keys[i]].parent.Some? ==>
      nodes[keys[i]].parent.value in keys[..i]
  }

  /** When parents come before their children, every walk stops. */
  lemma {:induction false} KeyOrderedWalkStops(nodes: map<Coord, Node>, keys: seq<Coord>, i: nat)
    requires KeyOrdered(nodes, keys) && i < |keys|
    ensures exists n: nat :: WalkStops(nodes, keys[i], n)
    decreases i
  {
    var c := keys[i];
    if c in nodes && nodes[c].parent.Some? {
      var p := nodes[c].parent.value;
      assert p in keys[..i];
      var j :| 0 <= j < i && keys[j] == p;
      KeyOrderedWalkStops(nodes, keys, j);
      var n: nat :| WalkStops(nodes, p, n);
      assert WalkStops(nodes, c, n + 1);
    } else {
      assert WalkStops(nodes, c, 0);
    }
  }

  /** RRT*'s cost discipline: a parent differs from its child, and the child's
      stored cost is at least the parent's plus the edge between them. */
  ghost predicate CostOrdered(norm: Coord -> real, nodes: map<Coord, Node>) {
    forall c :: c in nodes && nodes[c].parent.Some? ==>
      && nodes[c].parent.value in nodes
      && nodes[c].parent.value != c
      && nodes[nodes[c].parent.value].cost + Dist(norm, nodes[c].parent.value, c) <= nodes[c].cost
  }

  /** The entries strictly cheaper than `c`. */
  ghost function Cheaper(nodes: map<Coord, Node>, c: Coord): set<Coord>
    requires c in nodes
  {
    set d | d in nodes && nodes[d].cost < nodes[c].cost
  }

  /** Under the cost discipline costs strictly fall along parent links, so every walk stops. */
  lemma {:induction false} CostOrderedWalkStops(norm: Coord -> real, nodes: map<Coord, Node>, c: Coord)
    requires IsNorm(norm) && CostOrdered(norm, nodes) && c in nodes
    ensures exists n: nat :: WalkStops(nodes, c, n)
    decreases |Cheaper(nodes, c)|
  {
    if nodes[c].parent.Some? {
      var p := nodes[c].parent.value;
      DistZero(norm, p, c);
      var below, rest := Cheaper(nodes, p), Cheaper(nodes, c) - Cheaper(nodes, p);
      assert Cheaper(nodes, c) == below + rest && below * rest == {};
      assert p in rest;
      CostOrderedWalkStops(norm, nodes, p);
      var n: nat :| WalkStops(nodes, p, n);
      assert WalkStops(nodes, c, n + 1);
    } else {
      assert WalkStops(nodes, c, 0);
    }
  }

  function Positions(path: seq<Waypoint>): seq<Coord> {
    seq(|path|, i requires 0 <= i < |path| => path[i].pos)
  }

  /** The sequence in reverse order (Python's `list.reverse()` and `[::-1]`). */
  function Reversed<T>(s: seq<T>): seq<T> {
    if s == [] then [] else Reversed(s[1..]) + [s[0]]
  }

  lemma {:induction false} ReversedAt<T>(s: seq<T>, i: nat)
    requires i < |s|
    ensures |Reversed(s)| == |s| && Reversed(s)[i] == s[|s| - 1 - i]
  {
    if i < |s| - 1 {
      ReversedAt(s[1..], i);
    } else if |s| > 1 {
      ReversedAt(s[1..], 0);
    }
  }

  lemma {:induction false} ReversedLength<T>(s: seq<T>)
    ensures |Reversed(s)| == |s|
  {
    if s != [] {
      ReversedLength(s[1..]);
    }
  }

  class Tree {
    /** The dictionary's entries. */
    var nodes: map<Coord, Node>
    /** The dictionary's keys in insertion order, which is the order in which
        the planner's loops visit the tree; overwriting a key keeps its place. */
    var keys: seq<Coord>
    /** Raised once the goal has been connected. */
    var valid: bool

    ghost predicate Consistent()
      reads this
    {
      forall c :: c in nodes <==> c in keys
    }

    /** A new tree holds the root alone, with no parent and cost 0, and is not valid. */
    constructor (root: Coord)
      ensures Consistent()
      ensures nodes == map[root := Node(None, 0.0)] && keys == [root] && !valid
    {
      nodes := map[root := Node(None, 0.0)];
      keys := [root];
      valid := false;
    }

    function GetParent(c: Coord): (r: Result<Option<Coord>>)
      reads this
      ensures r.Ok? <==> c in nodes
      ensures r.Ok? ==> r.value == nodes[c].parent
      ensures r.KeyError? ==> r.key == c
    {
      if c in nodes then Ok(nodes[c].parent) else KeyError(c)
    }

    function GetCost(c: Coord): (r: Result<real>)
      reads this
      ensures r.Ok? <==> c in nodes
      ensures r.Ok? ==> r.value == nodes[c].cost
      ensures r.KeyError? ==> r.key == c
    {
      if c in nodes then Ok(nodes[c].cost) else KeyError(c)
    }

    /** Inserts or overwrites the entry of `c`; no other entry changes. */
    method AddNode(c: Coord, parent: Option<Coord>, cost: real)
      requires Consistent()
      modifies this
      ensures Consistent()
      ensures nodes == old(nodes)[c := Node(parent, cost)]
      ensures keys == if c in old(nodes) then old(keys) else old(keys) + [c]
      ensures valid == old(valid)
      ensures GetParent(c) == Ok(parent) && GetCost(c) == Ok(cost)
    {
      if c !in nodes {
        keys := keys + [c];
      }
      nodes := nodes[c := Node(parent, cost)];
    }

    /** Same as AddNode: re-parents an entry with a new cost. */
    method Rewire(c: Coord, parent: Option<Coord>, cost: real)
      requires Consistent()
      modifies this
      ensures Consistent()
      ensures nodes == old(nodes)[c := Node(parent, cost)]
      ensures keys == if c in old(nodes) then old(keys) else old(keys) + [c]
      ensures valid == old(valid)
      ensures GetParent(c) == Ok(parent) && GetCost(c) == Ok(cost)
    {
      AddNode(c, parent, cost);
    }

    /** Walks parent links from `end` to the entry without a parent and returns
        the walk from that root to `end`. Every waypoint has no heading except
        the root's, which gets `startHeading`. A key missing on the way raises
        a KeyError. The walk must stop (it does not when the links form a cycle). */
    method FindPath(end: Coord, startHeading: real) returns (r: Result<seq<Waypoint>>)
      requires exists n :: WalkStops(nodes, end, n)
      ensures r.Ok? ==> TreePath(nodes, r.value, end, startHeading)
      ensures r.KeyError? ==>
                && r.key !in nodes
                && exists s :: |s| >= 1 && s[0] == end && s[|s| - 1] == r.key && ParentWalk(nodes, s)
    {
      ghost var fuel: nat :| WalkStops(nodes, end, fuel);
      var walk: seq<Waypoint> := [];
      var current := end;
      var stop := false;
      while !stop
        invariant !stop ==> WalkStops(nodes, current, fuel)
        invariant !stop ==> ParentWalk(nodes, Positions(walk) + [current])
        invariant !stop ==> (Positions(walk) + [current])[0] == end
        invariant stop ==> 1 <= |walk| && ParentWalk(nodes, Positions(walk)) && walk[0].pos == end
        invariant stop ==> walk[|walk| - 1].pos in nodes && nodes[walk[|walk| - 1].pos].parent.None?
        invariant stop ==> walk[|walk| - 1].heading == Some(startHeading)
        invariant forall i :: 0 <= i < |walk| - (if stop then 1 else 0) ==> walk[i].heading.None?
        decreases if stop then 0 else fuel + 1
      {
        var coords := Waypoint(current, None);
        var parent := GetParent(current);
        if parent.KeyError? {
          assert ParentWalk(nodes, Positions(walk) + [current]);
          return KeyError(current);
        }
        if parent.value.None? {
          coords := Waypoint(current, Some(startHeading));
          stop := true;
        }
        assert Positions(walk + [coords]) == Positions(walk) + [current];
        walk := walk + [coords];
        if !stop {
          current := parent.value.value;
          fuel := fuel - 1;
        }
      }
      var path := Reversed(walk);
      ReversedLength(walk);
      forall i | 0 <= i < |path|
        ensures path[i] == walk[|walk| - 1 - i]
      {
        ReversedAt(walk, i);
      }
      forall i | 0 < i < |path|
        ensures path[i].pos in nodes && nodes[path[i].pos].parent == Some(path[i - 1].pos)
      {
        var j := |walk| - 1 - i;
        assert Positions(walk)[j] == path[i].pos && Positions(walk)[j + 1] == path[i - 1].pos;
      }
      r := Ok(path);
    }
  }
}
