/** Path post-processing (rrt.py, `halveAndTest` and the straightening and
    length sum of `generatePath`): shortcut removal against the line check, the
    two forward-then-backward rounds, and the length of a path. */
module Straighten {
  import opened Geometry
  import opened Validity
  import opened RrtTree

  /** The line check used for straightening: default step, bounds not checked
      along the segment (the end point is still checked with bounds). */
  predicate Shortcut(w: World, a: Waypoint, b: Waypoint) {
    LineValid(w, a.pos, b.pos, Discretization, false)
  }

  /** One pass of shortcut removal: a path of at most two waypoints is kept;
      otherwise, when the line from the first to the last waypoint fails the
      check, the first waypoint is kept and the pass goes on with the rest,
      and when it passes, only the first and the last waypoints remain.
      An empty path is an error in the source (it indexes `path[0]`). */
  function HalveAndTest(w: World, path: seq<Waypoint>): (r: seq<Waypoint>)
    requires 1 <= |path|
    ensures |path| <= 2 ==> r == path
    ensures 1 <= |r| <= |path|
    ensures r[0] == path[0] && r[|r| - 1] == path[|path| - 1]
    decreases |path|
  {
    if |path| <= 2 then path
    else if !Shortcut(w, path[0], path[|path| - 1]) then [path[0]] + HalveAndTest(w, path[1..])
    else [path[0], path[|path| - 1]]
  }

  /** The pass keeps the prefix of the path up to waypoint `k - 1` and jumps
      from there straight to the last waypoint. The jump is either between
      neighbours of the path or passes the line check, and every earlier
      waypoint failed the check: the shortcut taken is the first one found. */
  ghost predicate ShortcutFrom(w: World, path: seq<Waypoint>, k: int)
    requires 2 <= |path|
  {
    && 1 <= k < |path|
    && HalveAndTest(w, path) == path[..k] + [path[|path| - 1]]
    && (k == |path| - 1 || Shortcut(w, path[k - 1], path[|path| - 1]))
    && (forall j :: 0 <= j < k - 1 ==> !Shortcut(w, path[j], path[|path| - 1]))
  }

  /** Every pass over two or more waypoints takes such a shortcut. */
  lemma {:induction false} HalveAndTestShortcuts(w: World, path: seq<Waypoint>)
    requires 2 <= |path|
    ensures exists k :: ShortcutFrom(w, path, k)
    decreases |path|
  {
    var last := path[|path| - 1];
    if |path| <= 2 {
      assert path == path[..1] + [last];
      assert ShortcutFrom(w, path, 1);
    } else if !Shortcut(w, path[0], last) {
      var rest := path[1..];
      HalveAndTestShortcuts(w, rest);
      var k' :| ShortcutFrom(w, rest, k');
      var k := k' + 1;
      assert [path[0]] + rest[..k'] == path[..k];
      assert rest[|rest| - 1] == last;
      forall j | 0 <= j < k - 1
        ensures !Shortcut(w, path[j], last)
      {
        if 0 < j {
          assert path[j] == rest[j - 1];
        }
      }
      assert ShortcutFrom(w, path, k);
    } else {
      assert HalveAndTest(w, path) == path[..1] + [last];
      assert ShortcutFrom(w, path, 1);
    }
  }

  /** Sum of the distances between consecutive waypoints. */
  function PathLength(norm: Coord -> real, path: seq<Waypoint>): real
    decreases |path|
  {
    if |path| <= 1 then 0.0
    else Dist(norm, path[0].pos, path[1].pos) + PathLength(norm, path[1..])
  }

  /** Appending a waypoint adds the distance from the current last one. */
  lemma {:induction false} PathLengthAppend(norm: Coord -> real, path: seq<Waypoint>, x: Waypoint)
    requires 1 <= |path|
    ensures PathLength(norm, path + [x]) == PathLength(norm, path) + Dist(norm, path[|path| - 1].pos, x.pos)
    decreases |path|
  {
    if |path| > 1 {
      assert (path + [x])[1..] == path[1..] + [x];
      PathLengthAppend(norm, path[1..], x);
    }
  }

  /** The straight line between the ends is never longer than the path. */
  lemma {:induction false} ChordAtMostPath(norm: Coord -> real, path: seq<Waypoint>)
    requires IsNorm(norm) && 1 <= |path|
    ensures Dist(norm, path[0].pos, path[|path| - 1].pos) <= PathLength(norm, path)
    decreases |path|
  {
    if |path| == 1 {
      DistZero(norm, path[0].pos, path[0].pos);
    } else {
      ChordAtMostPath(norm, path[1..]);
      DistTriangle(norm, path[0].pos, path[1].pos, path[|path| - 1].pos);
    }
  }

  /** Shortcut removal never makes the path longer. */
  lemma {:induction false} HalveAndTestShortens(w: World, path: seq<Waypoint>)
    requires IsNorm(w.norm) && 1 <= |path|
    ensures PathLength(w.norm, HalveAndTest(w, path)) <= PathLength(w.norm, path)
    decreases |path|
  {
    if |path| <= 2 {
    } else if !Shortcut(w, path[0], path[|path| - 1]) {
      var rest := HalveAndTest(w, path[1..]);
      HalveAndTestShortens(w, path[1..]);
      assert ([path[0]] + rest)[1..] == rest;
    } else {
      ChordAtMostPath(w.norm, path);
      var r := [path[0], path[|path| - 1]];
      assert PathLength(w.norm, r[1..]) == 0.0;
    }
  }

  /** Walking the path backwards covers the same length. */
  lemma {:induction false} PathLengthReversed(norm: Coord -> real, path: seq<Waypoint>)
    requires IsNorm(norm)
    ensures PathLength(norm, Reversed(path)) == PathLength(norm, path)
    decreases |path|
  {
    if |path| > 1 {
      var rest := Reversed(path[1..]);
      PathLengthReversed(norm, path[1..]);
      ReversedAt(path[1..], |path| - 2);
      PathLengthAppend(norm, rest, path[0]);
      DistSymmetric(norm, path[0].pos, path[1].pos);
    }
  }

  /** One straightening round: a pass forwards, then a pass over the reversed
      path whose result is reversed back. The ends of the path stay in place. */
  function StraightenRound(w: World, path: seq<Waypoint>): (r: seq<Waypoint>)
    requires 1 <= |path|
    ensures 1 <= |r| <= |path|
    ensures r[0] == path[0] && r[|r| - 1] == path[|path| - 1]
  {
    var forward := HalveAndTest(w, path);
    ReversedAt(forward, 0);
    ReversedAt(forward, |forward| - 1);
    var backward := HalveAndTest(w, Reversed(forward));
    ReversedAt(backward, 0);
    ReversedAt(backward, |backward| - 1);
    Reversed(backward)
  }

  /** A straightening round never makes the path longer. */
  lemma StraightenRoundShortens(w: World, path: seq<Waypoint>)
    requires IsNorm(w.norm) && 1 <= |path|
    ensures PathLength(w.norm, StraightenRound(w, path)) <= PathLength(w.norm, path)
  {
    var forward := HalveAndTest(w, path);
    HalveAndTestShortens(w, path);
    ReversedLength(forward);
    PathLengthReversed(w.norm, forward);
    var backward := HalveAndTest(w, Reversed(forward));
    HalveAndTestShortens(w, Reversed(forward));
    PathLengthReversed(w.norm, backward);
  }

  /** The straightening of `generatePath`: two rounds. */
  function Straightened(w: World, path: seq<Waypoint>): (r: seq<Waypoint>)
    requires 1 <= |path|
    ensures 1 <= |r| <= |path|
    ensures r[0] == path[0] && r[|r| - 1] == path[|path| - 1]
  {
    StraightenRound(w, StraightenRound(w, path))
  }

  /** Straightening never makes the path longer. */
  lemma StraightenedShortens(w: World, path: seq<Waypoint>)
    requires IsNorm(w.norm) && 1 <= |path|
    ensures PathLength(w.norm, Straightened(w, path)) <= PathLength(w.norm, path)
  {
    StraightenRoundShortens(w, path);
    StraightenRoundShortens(w, StraightenRound(w, path));
  }
}
