/**
 * SVG path data from a freehand stroke outline
 * (src/utils/drawing/strokeUtils.js): a move to the first point, a line
 * through the rest, and a close. Number formatting (`toFixed(2)`) is the
 * parameter `fmt`.
 */
module StrokeUtils {
  datatype Point = Point(x: real, y: real)

  /** A point as its two formatted coordinates joined by a comma. */
  function Pair(p: Point, fmt: real -> string): string {
    fmt(p.x) + "," + fmt(p.y)
  }

  /** A space and the pair of each point, in order: the coordinate list of an `L` command. */
  function Coords(qs: seq<Point>, fmt: real -> string): string {
    if qs == [] then "" else Coords(qs[..|qs| - 1], fmt) + " " + Pair(qs[|qs| - 1], fmt)
  }

  /** The head of every non-empty path: `M <p0> L`. */
  function Head(points: seq<Point>, fmt: real -> string): string
    requires points != []
  {
    "M " + Pair(points[0], fmt) + " L"
  }

  // ---------------------------------------------------------------- as written

  /** One step of the `reduce` callback at index `i`, as written: it appends the point after `i`. */
  function Step(points: seq<Point>, acc: string, i: nat, fmt: real -> string): string
    requires i < |points|
  {
    if i == 0 then Head(points, fmt)
    else acc + " " + Pair(points[(i + 1) % |points|], fmt)
  }

  /** The accumulator after the callback has run on indices `0 .. k-1`. */
  function Fold(points: seq<Point>, k: nat, fmt: real -> string): string
    requires k <= |points|
  {
    if k == 0 then "" else Step(points, Fold(points, k - 1, fmt), k - 1, fmt)
  }

  /** `getSvgPathFromStroke(points)`, as written. */
  function GetSvgPathFromStroke(points: seq<Point>, fmt: real -> string): string {
    if points == [] then "" else Fold(points, |points|, fmt) + " Z"
  }

  /** The points the as-written fold emits after `L`: index `j` is `p((j+2) mod n)`. */
  function AfterLine(points: seq<Point>): (r: seq<Point>)
    requires points != []
    ensures |r| == |points| - 1
  {
    seq(|points| - 1, j requires 0 <= j < |points| - 1 => points[(j + 2) % |points|])
  }

  lemma {:induction false} FoldShape(points: seq<Point>, k: nat, fmt: real -> string)
    requires 1 <= k <= |points|
    ensures Fold(points, k, fmt) == Head(points, fmt) + Coords(AfterLine(points)[..k - 1], fmt)
  {
    if k > 1 {
      FoldShape(points, k - 1, fmt);
      var a := AfterLine(points);
      assert a[..k - 1][..k - 2] == a[..k - 2];
      assert a[..k - 1][k - 2] == points[k % |points|];
    }
  }

  /** After `L` come p2 … p(n-1) and then p0: the list is the points rotated by two, less p1. */
  lemma {:induction false} AfterLineRotation(points: seq<Point>)
    requires |points| >= 2
    ensures AfterLine(points) == points[2..] + [points[0]]
  {
    var a := AfterLine(points);
    var b := points[2..] + [points[0]];
    forall j | 0 <= j < |a| ensures a[j] == b[j] {
      if j + 2 < |points| {
        assert (j + 2) % |points| == j + 2;
      } else {
        assert j + 2 == |points|;
        assert (j + 2) % |points| == 0;
      }
    }
  }

  /**
   * As written, a non-empty path is `M <p0> L`, then one pair for each of
   * p2 … p(n-1) and p0, then ` Z`: n pairs in all, and p1 is never emitted.
   */
  lemma {:induction false} GetSvgPathFromStrokeSpec(points: seq<Point>, fmt: real -> string)
    ensures points == [] ==> GetSvgPathFromStroke(points, fmt) == ""
    ensures points != [] ==>
      GetSvgPathFromStroke(points, fmt) == Head(points, fmt) + Coords(AfterLine(points), fmt) + " Z"
    ensures |points| == 1 ==> GetSvgPathFromStroke(points, fmt) == "M " + Pair(points[0], fmt) + " L Z"
  {
    if points != [] {
      FoldShape(points, |points|, fmt);
      assert AfterLine(points)[..|points| - 1] == AfterLine(points);
    }
  }

  /** `[[10,20],[30,40]]` gives `M p0 L p0 Z` as written, where the documented result is `M p0 L p1 Z`. */
  lemma {:induction false} TwoPointsAsWritten(fmt: real -> string)
    ensures var p0, p1 := Point(10.0, 20.0), Point(30.0, 40.0);
      GetSvgPathFromStroke([p0, p1], fmt) == "M " + Pair(p0, fmt) + " L " + Pair(p0, fmt) + " Z"
  {
    var pts := [Point(10.0, 20.0), Point(30.0, 40.0)];
    GetSvgPathFromStrokeSpec(pts, fmt);
    AfterLineRotation(pts);
    assert AfterLine(pts) == [pts[0]];
    assert Coords([pts[0]], fmt) == "" + " " + Pair(pts[0], fmt);
  }

  // ---------------------------------------------------------------- corrected

  /** One step emitting the current point `i`, as the documented example shows. */
  function IntendedStep(points: seq<Point>, acc: string, i: nat, fmt: real -> string): string
    requires i < |points|
  {
    if i == 0 then Head(points, fmt) else acc + " " + Pair(points[i], fmt)
  }

  function IntendedFold(points: seq<Point>, k: nat, fmt: real -> string): string
    requires k <= |points|
  {
    if k == 0 then "" else IntendedStep(points, IntendedFold(points, k - 1, fmt), k - 1, fmt)
  }

  /** What `getSvgPathFromStroke(points)` is documented to return: every point once, in order. */
  function IntendedSvgPath(points: seq<Point>, fmt: real -> string): string {
    if points == [] then "" else IntendedFold(points, |points|, fmt) + " Z"
  }

  lemma {:induction false} IntendedFoldShape(points: seq<Point>, k: nat, fmt: real -> string)
    requires 1 <= k <= |points|
    ensures IntendedFold(points, k, fmt) == Head(points, fmt) + Coords(points[1..k], fmt)
  {
    if k > 1 {
      IntendedFoldShape(points, k - 1, fmt);
      assert points[1..k][..k - 2] == points[1..k - 1];
    }
  }

  /**
   * A non-empty path is `M <p0> L`, one pair for each of p1 … p(n-1) in
   * order, and ` Z`; the empty stroke gives the empty string.
   */
  lemma {:induction false} IntendedSvgPathSpec(points: seq<Point>, fmt: real -> string)
    ensures points == [] ==> IntendedSvgPath(points, fmt) == ""
    ensures points != [] ==>
      IntendedSvgPath(points, fmt) == Head(points, fmt) + Coords(points[1..], fmt) + " Z"
  {
    if points != [] {
      IntendedFoldShape(points, |points|, fmt);
      assert points[1..|points|] == points[1..];
    }
  }

  /** The two-point stroke gives `M p0 L p1 Z`, which differs from the as-written path whenever p0 and p1 print differently. */
  lemma {:induction false} TwoPointsIntended(fmt: real -> string)
    ensures var p0, p1 := Point(10.0, 20.0), Point(30.0, 40.0);
      && IntendedSvgPath([p0, p1], fmt) == "M " + Pair(p0, fmt) + " L " + Pair(p1, fmt) + " Z"
      && (Pair(p0, fmt) != Pair(p1, fmt) ==> IntendedSvgPath([p0, p1], fmt) != GetSvgPathFromStroke([p0, p1], fmt))
  {
    var p0, p1 := Point(10.0, 20.0), Point(30.0, 40.0);
    var pts := [p0, p1];
    IntendedSvgPathSpec(pts, fmt);
    assert pts[1..] == [p1];
    assert Coords([p1], fmt) == "" + " " + Pair(p1, fmt);
    TwoPointsAsWritten(fmt);
    var pre := "M " + Pair(p0, fmt) + " L ";
    var good := pre + Pair(p1, fmt) + " Z";
    var bad := pre + Pair(p0, fmt) + " Z";
    if Pair(p0, fmt) != Pair(p1, fmt) && |Pair(p0, fmt)| == |Pair(p1, fmt)| {
      assert good[|pre|..|pre| + |Pair(p1, fmt)|] == Pair(p1, fmt);
      assert bad[|pre|..|pre| + |Pair(p0, fmt)|] == Pair(p0, fmt);
    }
  }
}
