/** Day 10: points of light drifting at constant velocities. Each second
    every point moves by its velocity; the message is readable at the
    first second at which the points fit in fewer than 20 rows, and the
    picture is a grid with '#' where a point is. */
module Day10 {
  import opened Common
  import opened Text

  datatype Coordinate = Coordinate(x: int, y: int)
  datatype Direction = Direction(dx: int, dy: int)
  datatype Point = Point(position: Coordinate, velocity: Direction)

  // ---------------------------------------------------------------------
  // parsing

  /** Where the position's two numbers start: after "position=<". */
  const PositionOffset: nat := 10
  const PositionWidth: nat := 14
  /** Where the velocity's two numbers start: after
      "position=<     7,      0> velocity=<". */
  const VelocityOffset: nat := 36
  const VelocityWidth: nat := 6

  /** Two numbers separated by ", ", each with blanks around it; only
      the first two pieces are read. */
  function ParsePair(s: string): Option<(int, int)>
  {
    var parts := SplitOn(s, ", ");
    if |parts| < 2 then None
    else match (ParseInt(Trim(parts[0])), ParseInt(Trim(parts[1])))
      case (Some(a), Some(b)) => Some((a, b))
      case _ => None
  }

  /** One line, read at fixed columns; a short line or a bad number is
      fatal. */
  function ParsePoint(line: string): (r: Option<Point>)
    ensures r.Some? ==> |line| >= VelocityOffset + VelocityWidth
  {
    if |line| < VelocityOffset + VelocityWidth then None
    else match (ParsePair(line[PositionOffset..PositionOffset + PositionWidth]),
                ParsePair(line[VelocityOffset..VelocityOffset + VelocityWidth]))
      case (Some(p), Some(v)) => Some(Point(Coordinate(p.0, p.1), Direction(v.0, v.1)))
      case _ => None
  }

  /** `generator`: one point per line. */
  function Generator(input: string): (r: Option<seq<Point>>)
    ensures r.Some? ==> |r.value| == |Lines(input)| &&
                        forall k :: 0 <= k < |Lines(input)| ==> ParsePoint(Lines(input)[k]) == Some(r.value[k])
    ensures r.None? <==> exists k :: 0 <= k < |Lines(input)| && ParsePoint(Lines(input)[k]).None?
  {
    ParseAll(Lines(input), ParsePoint)
  }

  /** Blanks in front of `s` up to width `w`, as `{:>w}` formats. */
  function PadLeft(s: string, w: nat): (r: string)
    requires |s| <= w
    ensures |r| == w && r[w - |s|..] == s
  {
    seq(w - |s|, _ => ' ') + s
  }

  /** A point written out in the puzzle's fixed-width layout. */
  function ShowPoint(p: Point): string
    requires |ShowInt(p.position.x)| <= 6 && |ShowInt(p.position.y)| <= 6
    requires |ShowInt(p.velocity.dx)| <= 2 && |ShowInt(p.velocity.dy)| <= 2
  {
    "position=<" + PadLeft(ShowInt(p.position.x), 6) + ", " + PadLeft(ShowInt(p.position.y), 6) +
    "> velocity=<" + PadLeft(ShowInt(p.velocity.dx), 2) + ", " + PadLeft(ShowInt(p.velocity.dy), 2) + ">"
  }

  /** Leading blanks in front of a text that starts with no blank trim away. */
  lemma TrimStartBlanks(n: nat, t: string)
    requires t == [] || !IsWhitespace(t[0])
    ensures TrimStart(seq(n, _ => ' ') + t) == t
  {
    var u := seq(n, _ => ' ') + t;
    assert u[n..] == t;
  }

  /** A number written out neither starts nor ends with a blank. */
  lemma ShowIntEnds(i: int)
    ensures |ShowInt(i)| > 0 && !IsWhitespace(ShowInt(i)[0])
    ensures !IsWhitespace(ShowInt(i)[|ShowInt(i)| - 1])
  {
    if i < 0 {
      var n := ShowNat(-i);
      assert ShowInt(i)[|ShowInt(i)| - 1] == n[|n| - 1];
    }
  }

  /** A padded number trims back to the number. */
  lemma TrimPadded(i: int, w: nat)
    requires |ShowInt(i)| <= w
    ensures Trim(PadLeft(ShowInt(i), w)) == ShowInt(i)
  {
    var s := ShowInt(i);
    ShowIntEnds(i);
    TrimStartBlanks(w - |s|, s);
    assert TrimStart(PadLeft(s, w)) == s;
    assert TrimEnd(s) == s;
  }

  lemma PadNoComma(i: int, w: nat)
    requires |ShowInt(i)| <= w
    ensures ',' !in PadLeft(ShowInt(i), w)
  {
    ShowIntNoComma(i);
  }

  lemma ParsePadded(a: int, b: int, w: nat)
    requires |ShowInt(a)| <= w && |ShowInt(b)| <= w
    ensures ParsePair(PadLeft(ShowInt(a), w) + ", " + PadLeft(ShowInt(b), w)) == Some((a, b))
  {
    PadNoComma(a, w);
    PadNoComma(b, w);
    SplitOnCommaSpace(PadLeft(ShowInt(a), w), PadLeft(ShowInt(b), w));
    TrimPadded(a, w);
    TrimPadded(b, w);
    IntRoundTrip(a);
    IntRoundTrip(b);
  }

  /** The fixed columns are where the layout puts the numbers: a point
      written out reads back. */
  lemma ParseShowPoint(p: Point)
    requires |ShowInt(p.position.x)| <= 6 && |ShowInt(p.position.y)| <= 6
    requires |ShowInt(p.velocity.dx)| <= 2 && |ShowInt(p.velocity.dy)| <= 2
    ensures ParsePoint(ShowPoint(p)) == Some(p)
  {
    var pos := PadLeft(ShowInt(p.position.x), 6) + ", " + PadLeft(ShowInt(p.position.y), 6);
    var vel := PadLeft(ShowInt(p.velocity.dx), 2) + ", " + PadLeft(ShowInt(p.velocity.dy), 2);
    Regroup("position=<", PadLeft(ShowInt(p.position.x), 6), ", ", PadLeft(ShowInt(p.position.y), 6),
            "> velocity=<", PadLeft(ShowInt(p.velocity.dx), 2), ", ", PadLeft(ShowInt(p.velocity.dy), 2), ">");
    ParsePadded(p.position.x, p.position.y, 6);
    ParsePadded(p.velocity.dx, p.velocity.dy, 2);
    ReadColumns(pos, vel);
  }

  /** Regrouping the nine pieces of a written point into its two fields. */
  lemma Regroup(t1: string, a: string, t2: string, b: string, t3: string, c: string, t4: string, d: string, t5: string)
    ensures t1 + a + t2 + b + t3 + c + t4 + d + t5 == t1 + (a + t2 + b) + t3 + (c + t4 + d) + t5
  {
  }

  /** The two fields sit in the columns the reader takes them from. */
  lemma ReadColumns(pos: string, vel: string)
    requires |pos| == PositionWidth && |vel| == VelocityWidth
    ensures var line := "position=<" + pos + "> velocity=<" + vel + ">";
      |line| >= VelocityOffset + VelocityWidth &&
      line[PositionOffset..PositionOffset + PositionWidth] == pos &&
      line[VelocityOffset..VelocityOffset + VelocityWidth] == vel
  {
    var line := "position=<" + pos + "> velocity=<" + vel + ">";
    assert line[PositionOffset..PositionOffset + PositionWidth] == pos;
    assert line[VelocityOffset..VelocityOffset + VelocityWidth] == vel;
  }

  // ---------------------------------------------------------------------
  // motion

  /** `Point::step` / `Coordinate::move_coordinate`. */
  function Step(p: Point): (q: Point)
    ensures q.velocity == p.velocity
    ensures q.position.x - p.position.x == p.velocity.dx && q.position.y - p.position.y == p.velocity.dy
  {
    p.(position := Coordinate(p.position.x + p.velocity.dx, p.position.y + p.velocity.dy))
  }

  /** Every point stepped once. */
  function StepAll(ps: seq<Point>): (r: seq<Point>)
    ensures |r| == |ps| && forall i :: 0 <= i < |ps| ==> r[i] == Step(ps[i])
  {
    seq(|ps|, i requires 0 <= i < |ps| => Step(ps[i]))
  }

  /** The points after `t` seconds. */
  function After(ps: seq<Point>, t: nat): (r: seq<Point>)
    ensures |r| == |ps|
  {
    if t == 0 then ps else StepAll(After(ps, t - 1))
  }

  /** After `t` seconds a point has moved `t` times its velocity. */
  lemma {:induction false} AfterPosition(ps: seq<Point>, t: nat, i: nat)
    requires i < |ps|
    ensures After(ps, t)[i].velocity == ps[i].velocity
    ensures After(ps, t)[i].position ==
            Coordinate(ps[i].position.x + t * ps[i].velocity.dx, ps[i].position.y + t * ps[i].velocity.dy)
  {
    if t > 0 {
      AfterPosition(ps, t - 1, i);
      assert (t - 1) * ps[i].velocity.dx + ps[i].velocity.dx == t * ps[i].velocity.dx;
      assert (t - 1) * ps[i].velocity.dy + ps[i].velocity.dy == t * ps[i].velocity.dy;
    }
  }

  /** `input.iter_mut().for_each(|p| p.step())`: every point of the vector
      stepped in place. */
  method StepInPlace(a: array<Point>)
    modifies a
    ensures a[..] == StepAll(old(a[..]))
  {
    for i := 0 to a.Length
      invariant forall j :: 0 <= j < i ==> a[j] == Step(old(a[j]))
      invariant forall j :: i <= j < a.Length ==> a[j] == old(a[j])
    {
      a[i] := Step(a[i]);
    }
  }

  // ---------------------------------------------------------------------
  // the picture

  function Xs(ps: seq<Point>): (r: seq<int>)
    ensures |r| == |ps| && forall i :: 0 <= i < |ps| ==> r[i] == ps[i].position.x
  {
    seq(|ps|, i requires 0 <= i < |ps| => ps[i].position.x)
  }

  function Ys(ps: seq<Point>): (r: seq<int>)
    ensures |r| == |ps| && forall i :: 0 <= i < |ps| ==> r[i] == ps[i].position.y
  {
    seq(|ps|, i requires 0 <= i < |ps| => ps[i].position.y)
  }

  /** The rows the bounding box spans. */
  function Height(ps: seq<Point>): (h: int)
    requires |ps| > 0
    ensures h >= 1
  {
    Max(Ys(ps)) - Min(Ys(ps)) + 1
  }

  function Width(ps: seq<Point>): (w: int)
    requires |ps| > 0
    ensures w >= 1
  {
    Max(Xs(ps)) - Min(Xs(ps)) + 1
  }

  /** A point of `ps` is at `(x, y)`. */
  predicate Lit(ps: seq<Point>, x: int, y: int)
  {
    ps != [] && (Lit(ps[..|ps| - 1], x, y) || ps[|ps| - 1].position == Coordinate(x, y))
  }

  lemma {:induction false} LitMeaning(ps: seq<Point>, x: int, y: int)
    ensures Lit(ps, x, y) <==> exists i :: 0 <= i < |ps| && ps[i].position == Coordinate(x, y)
  {
    if ps != [] {
      var init := ps[..|ps| - 1];
      LitMeaning(init, x, y);
      if exists i :: 0 <= i < |ps| && ps[i].position == Coordinate(x, y) {
        var i :| 0 <= i < |ps| && ps[i].position == Coordinate(x, y);
        if i < |ps| - 1 {
          assert init[i] == ps[i];
        }
      }
    }
  }

  /** The points span fewer than 20 rows. */
  predicate Fits(ps: seq<Point>)
  {
    |ps| > 0 && Height(ps) < 20
  }

  /** What `print_current_step` draws, row by row: nothing when the points
      span 20 rows or more, otherwise the bounding box with '#' where a
      point is and ' ' elsewhere. (With no points at all there is no
      bounding box; the model draws nothing.) */
  function Picture(ps: seq<Point>): (r: Option<seq<string>>)
    ensures r.Some? <==> Fits(ps)
    ensures r.Some? ==> r.value == Grid(ps, Min(Xs(ps)), Min(Ys(ps)), Height(ps), Width(ps))
  {
    if ps == [] || Height(ps) >= 20 then None
    else Some(Grid(ps, Min(Xs(ps)), Min(Ys(ps)), Height(ps), Width(ps)))
  }

  /** `height` rows of `width` cells, the top-left one at `(minX, minY)`. */
  function Grid(ps: seq<Point>, minX: int, minY: int, height: nat, width: nat): (g: seq<string>)
    ensures |g| == height && forall row :: 0 <= row < height ==> |g[row]| == width
    ensures forall row, col :: 0 <= row < height && 0 <= col < width ==> g[row][col] == Cell(ps, minX + col, minY + row)
  {
    seq(height, row requires 0 <= row < height =>
      seq(width, col requires 0 <= col < width => Cell(ps, minX + col, minY + row)))
  }

  /** The character drawn for position `(x, y)`. */
  function Cell(ps: seq<Point>, x: int, y: int): char
  {
    if Lit(ps, x, y) then '#' else ' '
  }

  /** Every point is drawn: it lies in the bounding box, and its cell,
      counted from the top-left corner, holds '#'; and a '#' means a
      point is there. */
  lemma PointsDrawn(ps: seq<Point>, i: nat)
    requires i < |ps| && Picture(ps).Some?
    ensures var p := ps[i].position;
            var row, col := p.y - Min(Ys(ps)), p.x - Min(Xs(ps));
            0 <= row < Height(ps) && 0 <= col < Width(ps) && Picture(ps).value[row][col] == '#'
  {
    BoxHoldsPoint(ps, i);
    GridMarksPoint(ps, i, Min(Xs(ps)), Min(Ys(ps)), Height(ps), Width(ps));
  }

  lemma HashMeansPoint(ps: seq<Point>, row: nat, col: nat)
    requires Picture(ps).Some? && row < Height(ps) && col < Width(ps)
    ensures Picture(ps).value[row][col] == '#' <==>
            exists i :: 0 <= i < |ps| && ps[i].position == Coordinate(Min(Xs(ps)) + col, Min(Ys(ps)) + row)
  {
    GridHashMeansPoint(ps, Min(Xs(ps)), Min(Ys(ps)), Height(ps), Width(ps), row, col);
  }

  lemma GridMarksPoint(ps: seq<Point>, i: nat, minX: int, minY: int, height: nat, width: nat)
    requires i < |ps| && InBox(ps[i].position, minX, minY, height, width)
    ensures Grid(ps, minX, minY, height, width)[ps[i].position.y - minY][ps[i].position.x - minX] == '#'
  {
    var p := ps[i].position;
    LitMeaning(ps, p.x, p.y);
    assert Lit(ps, minX + (p.x - minX), minY + (p.y - minY));
  }

  lemma GridHashMeansPoint(ps: seq<Point>, minX: int, minY: int, height: nat, width: nat, row: nat, col: nat)
    requires row < height && col < width
    ensures Grid(ps, minX, minY, height, width)[row][col] == '#' <==>
            exists i :: 0 <= i < |ps| && ps[i].position == Coordinate(minX + col, minY + row)
  {
    LitMeaning(ps, minX + col, minY + row);
  }

  /** The picture as one string, rows joined by newlines. */
  function Shown(ps: seq<Point>): Option<string>
  {
    match Picture(ps)
    case None => None
    case Some(rows) => Some(JoinWith(rows, "\n"))
  }

  /** Position `c` lies in the box of `height` rows and `width` columns
      whose top-left corner is `(minX, minY)`. */
  predicate InBox(c: Coordinate, minX: int, minY: int, height: nat, width: nat)
  {
    0 <= c.y - minY < height && 0 <= c.x - minX < width
  }

  /** The bounding box holds every point. */
  lemma BoxHoldsPoint(ps: seq<Point>, k: nat)
    requires k < |ps|
    ensures InBox(ps[k].position, Min(Xs(ps)), Min(Ys(ps)), Height(ps), Width(ps))
  {
    assert Xs(ps)[k] == ps[k].position.x && Ys(ps)[k] == ps[k].position.y;
  }

  lemma BoxHoldsPoints(ps: seq<Point>)
    requires |ps| > 0
    ensures forall k :: 0 <= k < |ps| ==> InBox(ps[k].position, Min(Xs(ps)), Min(Ys(ps)), Height(ps), Width(ps))
  {
    forall k | 0 <= k < |ps|
      ensures InBox(ps[k].position, Min(Xs(ps)), Min(Ys(ps)), Height(ps), Width(ps))
    {
      assert Xs(ps)[k] == ps[k].position.x && Ys(ps)[k] == ps[k].position.y;
    }
  }

  /** One more point turns its own cell into '#' and leaves the others. */
  lemma GridSnoc(ps: seq<Point>, k: nat, minX: int, minY: int, height: nat, width: nat)
    requires k < |ps| && InBox(ps[k].position, minX, minY, height, width)
    ensures var g := Grid(ps[..k], minX, minY, height, width);
            var p := ps[k].position;
            Grid(ps[..k + 1], minX, minY, height, width) == g[p.y - minY := g[p.y - minY][p.x - minX := '#']]
  {
    var g := Grid(ps[..k], minX, minY, height, width);
    var p := ps[k].position;
    var g' := g[p.y - minY := g[p.y - minY][p.x - minX := '#']];
    var h := Grid(ps[..k + 1], minX, minY, height, width);
    assert ps[..k + 1][..k] == ps[..k];
    forall row | 0 <= row < height
      ensures h[row] == g'[row]
    {
      forall col | 0 <= col < width
        ensures h[row][col] == g'[row][col]
      {
        assert Cell(ps[..k + 1], minX + col, minY + row) ==
               (if p == Coordinate(minX + col, minY + row) then '#' else Cell(ps[..k], minX + col, minY + row));
      }
    }
  }

  /** The loop writing a '#' for each point into a field of blanks. */
  method DrawPoints(ps: seq<Point>, minX: int, minY: int, height: nat, width: nat) returns (field: seq<string>)
    requires forall k :: 0 <= k < |ps| ==> InBox(ps[k].position, minX, minY, height, width)
    ensures field == Grid(ps, minX, minY, height, width)
  {
    var blank := seq(width, _ => ' ');
    field := seq(height, _ => blank);
    assert ps[..0] == [];
    forall row | 0 <= row < height
      ensures field[row] == Grid([], minX, minY, height, width)[row]
    {
    }
    for k := 0 to |ps|
      invariant field == Grid(ps[..k], minX, minY, height, width)
    {
      var p := ps[k].position;
      GridSnoc(ps, k, minX, minY, height, width);
      field := field[p.y - minY := field[p.y - minY][p.x - minX := '#']];
    }
    assert ps[..|ps|] == ps;
  }

  /** `print_current_step`: the bounds, then the field, then its rows
      joined. */
  method PrintCurrentStep(ps: seq<Point>) returns (r: Option<string>)
    ensures r == Shown(ps)
  {
    if ps == [] {
      return None;
    }
    var minX, minY := Min(Xs(ps)), Min(Ys(ps));
    var height, width := Height(ps), Width(ps);
    if height >= 20 {
      return None;
    }
    BoxHoldsPoints(ps);
    var field := DrawPoints(ps, minX, minY, height, width);
    assert Picture(ps) == Some(field);
    return Some(JoinWith(field, "\n"));
  }

  /** The points fit at no second before `n`. */
  ghost predicate NoFitBefore(points: seq<Point>, n: nat)
  {
    forall t :: 0 <= t < n ==> !Fits(After(points, t))
  }

  lemma NoFitExtend(points: seq<Point>, n: nat)
    requires NoFitBefore(points, n) && Shown(After(points, n)).None?
    ensures NoFitBefore(points, n + 1)
  {
  }

  /** `solve_part1`, bounded by `fuel` seconds: the points are copied to
      a vector and stepped in place until the picture fits; the answer is
      the picture and the number of seconds it took. */
  method SolvePart1(points: seq<Point>, fuel: nat) returns (r: Option<(string, nat)>)
    ensures r.Some? ==> r.value.1 < fuel && Shown(After(points, r.value.1)) == Some(r.value.0) &&
                        NoFitBefore(points, r.value.1)
    ensures r.None? ==> NoFitBefore(points, fuel)
  {
    var a := new Point[|points|](i requires 0 <= i < |points| => points[i]);
    assert a[..] == After(points, 0);
    for seconds := 0 to fuel
      invariant a[..] == After(points, seconds)
      invariant NoFitBefore(points, seconds)
    {
      var picture := PrintCurrentStep(a[..]);
      if picture.Some? {
        return Some((picture.value, seconds));
      }
      NoFitExtend(points, seconds);
      StepInPlace(a);
      assert After(points, seconds + 1) == StepAll(After(points, seconds));
    }
    return None;
  }
}
