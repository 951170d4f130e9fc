/** Day 6: coordinates on a grid. Part 1 gives every cell of the bounding
    box to the coordinate strictly nearest to it (Manhattan distance),
    drops every coordinate that owns a cell on the border of the box (its
    area is taken to be infinite) and reports the largest remaining area.
    Part 2 counts the cells whose distances to all coordinates sum to less
    than 10000. */
module Day06 {
  import opened Common
  import opened Text

  /** A coordinate; its id is its position in the input. */
  datatype Coordinate = Coordinate(x: int, y: int)

  function Abs(v: int): nat
  {
    if v < 0 then -v else v
  }

  /** `Coordinate::distance`: the Manhattan distance. */
  function Distance(a: Coordinate, b: Coordinate): (d: nat)
    ensures d == 0 <==> a == b
  {
    Abs(a.x - b.x) + Abs(a.y - b.y)
  }

  lemma DistanceSymmetric(a: Coordinate, b: Coordinate)
    ensures Distance(a, b) == Distance(b, a)
  {
  }

  lemma DistanceTriangle(a: Coordinate, b: Coordinate, c: Coordinate)
    ensures Distance(a, c) <= Distance(a, b) + Distance(b, c)
  {
  }

  // ---------------------------------------------------------------------
  // generator

  /** One line "x, y": the first two pieces around ", " as integers; a
      missing piece or a number that does not parse is fatal, and any
      further piece is ignored. */
  function ParseCoordinate(line: string): (r: Option<Coordinate>)
    ensures r.Some? ==> |SplitOn(line, ", ")| >= 2 &&
                        ParseInt(SplitOn(line, ", ")[0]) == Some(r.value.x) &&
                        ParseInt(SplitOn(line, ", ")[1]) == Some(r.value.y)
  {
    var parts := SplitOn(line, ", ");
    if |parts| < 2 then None
    else match (ParseInt(parts[0]), ParseInt(parts[1]))
      case (Some(x), Some(y)) => Some(Coordinate(x, y))
      case _ => None
  }

  /** `generator`: one coordinate per line. */
  function Generator(input: string): (r: Option<seq<Coordinate>>)
    ensures r.Some? ==> |r.value| == |Lines(input)| &&
                        forall k :: 0 <= k < |Lines(input)| ==> ParseCoordinate(Lines(input)[k]) == Some(r.value[k])
    ensures r.None? <==> exists k :: 0 <= k < |Lines(input)| && ParseCoordinate(Lines(input)[k]).None?
  {
    ParseAll(Lines(input), ParseCoordinate)
  }

  /** The line a coordinate is written as. */
  function ShowCoordinate(c: Coordinate): string
  {
    ShowInt(c.x) + ", " + ShowInt(c.y)
  }

  /** A coordinate written out parses back. */
  lemma ParseShowCoordinate(c: Coordinate)
    ensures ParseCoordinate(ShowCoordinate(c)) == Some(c)
  {
    var a := ShowInt(c.x);
    var b := ShowInt(c.y);
    ShowIntNoComma(c.x);
    ShowIntNoComma(c.y);
    SplitOnCommaSpace(a, b);
    IntRoundTrip(c.x);
    IntRoundTrip(c.y);
  }

  // ---------------------------------------------------------------------
  // get_bounding_box

  datatype Box = Box(minX: int, maxX: int, minY: int, maxY: int)

  /** The smallest box holding every coordinate: each bound is attained
      by some coordinate and no coordinate lies outside. */
  ghost predicate IsBoundingBox(coords: seq<Coordinate>, b: Box)
  {
    (forall k :: 0 <= k < |coords| ==>
       b.minX <= coords[k].x <= b.maxX && b.minY <= coords[k].y <= b.maxY) &&
    (exists k :: 0 <= k < |coords| && coords[k].x == b.minX) &&
    (exists k :: 0 <= k < |coords| && coords[k].x == b.maxX) &&
    (exists k :: 0 <= k < |coords| && coords[k].y == b.minY) &&
    (exists k :: 0 <= k < |coords| && coords[k].y == b.maxY)
  }

  /** The box of the first `n` coordinates, widened one coordinate at a
      time like the `Min`/`Max` accumulators. */
  function BoxOf(coords: seq<Coordinate>, n: nat): (b: Box)
    requires 1 <= n <= |coords|
    ensures IsBoundingBox(coords[..n], b)
  {
    if n == 1 then
      var c := coords[0];
      assert coords[..1][0] == c;
      Box(c.x, c.x, c.y, c.y)
    else
      var c := coords[n - 1];
      var b := Widen(BoxOf(coords, n - 1), c);
      assert coords[..n] == coords[..n - 1] + [c];
      assert forall k :: 0 <= k < n - 1 ==> coords[..n][k] == coords[..n - 1][k];
      assert coords[..n][n - 1] == c;
      b
  }

  /** One step of the accumulators: each bound moves out to the
      coordinate if it lies beyond. */
  function Widen(b: Box, c: Coordinate): (r: Box)
    ensures r.minX <= c.x <= r.maxX && r.minY <= c.y <= r.maxY
    ensures r.minX == (if c.x < b.minX then c.x else b.minX) && r.maxX == (if c.x > b.maxX then c.x else b.maxX)
    ensures r.minY == (if c.y < b.minY then c.y else b.minY) && r.maxY == (if c.y > b.maxY then c.y else b.maxY)
  {
    Box(if c.x < b.minX then c.x else b.minX, if c.x > b.maxX then c.x else b.maxX,
        if c.y < b.minY then c.y else b.minY, if c.y > b.maxY then c.y else b.maxY)
  }

  function BoundingBox(coords: seq<Coordinate>): (b: Box)
    requires |coords| > 0
    ensures IsBoundingBox(coords, b)
  {
    assert coords[..|coords|] == coords;
    BoxOf(coords, |coords|)
  }

  /** `get_bounding_box`: the four accumulators over the coordinates. */
  method GetBoundingBox(coords: seq<Coordinate>) returns (b: Box)
    requires |coords| > 0
    ensures b == BoundingBox(coords)
  {
    b := Box(coords[0].x, coords[0].x, coords[0].y, coords[0].y);
    for n := 1 to |coords|
      invariant b == BoxOf(coords, n)
    {
      b := Widen(b, coords[n]);
    }
    assert coords[..|coords|] == coords;
  }

  function Width(b: Box): int
  {
    b.maxX - b.minX + 1
  }

  function Height(b: Box): int
  {
    b.maxY - b.minY + 1
  }

  // ---------------------------------------------------------------------
  // the nearest coordinate

  /** The inner loop of `solve_part1` over the first `k` coordinates: the
      smallest distance so far, and the id at that distance, which a
      second coordinate at the same distance clears. */
  function Closest(coords: seq<Coordinate>, p: Coordinate, k: nat): (nat, Option<nat>)
    requires 1 <= k <= |coords|
  {
    if k == 1 then (Distance(p, coords[0]), Some(0))
    else
      var (cd, id) := Closest(coords, p, k - 1);
      var d := Distance(p, coords[k - 1]);
      if d == cd then (cd, None)
      else if d < cd then (d, Some(k - 1))
      else (cd, id)
  }

  /** Coordinate `i` is strictly nearer to `p` than every other one. */
  predicate Nearest(coords: seq<Coordinate>, p: Coordinate, i: nat)
  {
    i < |coords| &&
    forall j :: 0 <= j < |coords| && j != i ==> Distance(p, coords[i]) < Distance(p, coords[j])
  }

  /** The owner of a cell: the id of the strictly nearest coordinate, or
      none on a tie. */
  function Owner(coords: seq<Coordinate>, p: Coordinate): Option<nat>
    requires |coords| > 0
  {
    Closest(coords, p, |coords|).1
  }

  /** The loop keeps the smallest distance over the prefix, and an id
      exactly when that coordinate alone is at it. */
  lemma {:induction false} ClosestCorrect(coords: seq<Coordinate>, p: Coordinate, k: nat)
    requires 1 <= k <= |coords|
    ensures var (cd, id) := Closest(coords, p, k);
            (forall j :: 0 <= j < k ==> cd <= Distance(p, coords[j])) &&
            (exists j :: 0 <= j < k && cd == Distance(p, coords[j])) &&
            (id.Some? ==> id.value < k && Distance(p, coords[id.value]) == cd &&
                          forall j :: 0 <= j < k && j != id.value ==> cd < Distance(p, coords[j])) &&
            (id.None? ==> exists i, j :: 0 <= i < j < k && Distance(p, coords[i]) == cd && Distance(p, coords[j]) == cd)
  {
    if k > 1 {
      ClosestCorrect(coords, p, k - 1);
    }
  }

  /** A cell's owner is exactly the strictly nearest coordinate. */
  lemma OwnerIsNearest(coords: seq<Coordinate>, p: Coordinate, i: nat)
    requires |coords| > 0
    ensures Owner(coords, p) == Some(i) <==> Nearest(coords, p, i)
  {
    ClosestCorrect(coords, p, |coords|);
  }

  /** An owner is an id of the input. */
  lemma OwnerInRange(coords: seq<Coordinate>, p: Coordinate)
    requires |coords| > 0
    ensures Owner(coords, p).Some? ==> Owner(coords, p).value < |coords|
  {
    ClosestCorrect(coords, p, |coords|);
  }

  /** The inner loop of `solve_part1` for one cell. */
  method FindOwner(coords: seq<Coordinate>, p: Coordinate) returns (r: Option<nat>)
    requires |coords| > 0
    ensures r == Owner(coords, p)
  {
    var closest := Distance(p, coords[0]);
    r := Some(0);
    for k := 1 to |coords|
      invariant (closest, r) == Closest(coords, p, k)
    {
      var d := Distance(p, coords[k]);
      if d == closest {
        r := None;
      } else if d < closest {
        closest := d;
        r := Some(k);
      }
    }
  }

  // ---------------------------------------------------------------------
  // areas

  /** The owner of the cell at offset (dx, dy) from the box's corner. */
  function Cell(coords: seq<Coordinate>, b: Box, dx: int, dy: int): Option<nat>
    requires |coords| > 0
  {
    Owner(coords, Coordinate(b.minX + dx, b.minY + dy))
  }

  /** The cells of row `dy` left of `n` that `id` owns. */
  function AreaRow(coords: seq<Coordinate>, b: Box, id: nat, dy: int, n: nat): nat
    requires |coords| > 0
  {
    if n == 0 then 0
    else AreaRow(coords, b, id, dy, n - 1) + (if Cell(coords, b, n - 1, dy) == Some(id) then 1 else 0)
  }

  /** The cells of the rows above `m` that `id` owns. */
  function AreaRows(coords: seq<Coordinate>, b: Box, id: nat, m: nat): nat
    requires |coords| > 0 && Width(b) >= 0
  {
    if m == 0 then 0
    else AreaRows(coords, b, id, m - 1) + AreaRow(coords, b, id, m - 1, Width(b))
  }

  /** The cells of the box that `id` owns. */
  function Area(coords: seq<Coordinate>, b: Box, id: nat): nat
    requires |coords| > 0 && Width(b) >= 0 && Height(b) >= 0
  {
    AreaRows(coords, b, id, Height(b))
  }

  /** Whether `id` owns a cell on the border of the box. */
  predicate OnBorder(coords: seq<Coordinate>, b: Box, id: nat)
    requires |coords| > 0
  {
    (exists dx :: 0 <= dx < Width(b) && OwnsColumnEnd(coords, b, dx, id)) ||
    (exists dy :: 0 <= dy < Height(b) && OwnsRowEnd(coords, b, dy, id))
  }

  /** `id` owns the top or the bottom cell of column `dx`. */
  predicate OwnsColumnEnd(coords: seq<Coordinate>, b: Box, dx: int, id: nat)
    requires |coords| > 0
  {
    Cell(coords, b, dx, 0) == Some(id) || Cell(coords, b, dx, Height(b) - 1) == Some(id)
  }

  /** `id` owns the left or the right cell of row `dy`. */
  predicate OwnsRowEnd(coords: seq<Coordinate>, b: Box, dy: int, id: nat)
    requires |coords| > 0
  {
    Cell(coords, b, 0, dy) == Some(id) || Cell(coords, b, Width(b) - 1, dy) == Some(id)
  }

  /** `area_counter` after counting: every owner with its number of cells. */
  function AllAreas(coords: seq<Coordinate>, b: Box): map<nat, nat>
    requires |coords| > 0 && Width(b) >= 0 && Height(b) >= 0
  {
    map id | 0 <= id < |coords| && Area(coords, b, id) > 0 :: Area(coords, b, id)
  }

  /** `area_counter` after the border sweep: the owners of a finite area. */
  function FiniteAreas(coords: seq<Coordinate>, b: Box): map<nat, nat>
    requires |coords| > 0 && Width(b) >= 0 && Height(b) >= 0
  {
    map id | 0 <= id < |coords| && Area(coords, b, id) > 0 && !OnBorder(coords, b, id) :: Area(coords, b, id)
  }

  /** The largest value of the map among keys below `n`. */
  function LargestBelow(m: map<nat, nat>, n: nat): (r: Option<nat>)
    ensures r.None? <==> forall id :: 0 <= id < n ==> id !in m
    ensures r.Some? ==> (exists id :: 0 <= id < n && id in m && m[id] == r.value) &&
                        forall id :: 0 <= id < n && id in m ==> m[id] <= r.value
  {
    if n == 0 then None
    else
      var r := LargestBelow(m, n - 1);
      if n - 1 !in m then r
      else if r.None? || m[n - 1] > r.value then Some(m[n - 1])
      else r
  }

  /** `solve_part1`: the largest finite area. An empty input (no first
      coordinate) or no finite area (`max` of nothing) is fatal. */
  function Part1(coords: seq<Coordinate>): (r: Option<nat>)
    ensures r.Some? ==> |coords| > 0
  {
    if |coords| == 0 then None
    else
      var b := BoundingBox(coords);
      LargestBelow(FiniteAreas(coords, b), |coords|)
  }

  /** The answer, in the terms of the puzzle: the area of a coordinate
      that owns no border cell, and no such coordinate owns more. */
  lemma Part1Correct(coords: seq<Coordinate>)
    requires |coords| > 0
    ensures var b := BoundingBox(coords);
            var r := Part1(coords);
            (r.None? <==> forall id :: 0 <= id < |coords| ==> Area(coords, b, id) == 0 || OnBorder(coords, b, id)) &&
            (r.Some? ==> (exists id :: 0 <= id < |coords| && !OnBorder(coords, b, id) && Area(coords, b, id) == r.value > 0) &&
                         forall id :: 0 <= id < |coords| && !OnBorder(coords, b, id) ==> Area(coords, b, id) <= r.value)
  {
    var b := BoundingBox(coords);
    var m := FiniteAreas(coords, b);
    var r := Part1(coords);
    forall id | 0 <= id < |coords|
      ensures id in m <==> Area(coords, b, id) > 0 && !OnBorder(coords, b, id)
    {
    }
    if r.Some? {
      forall id | 0 <= id < |coords| && !OnBorder(coords, b, id)
        ensures Area(coords, b, id) <= r.value
      {
        if Area(coords, b, id) > 0 {
          assert id in m;
        }
      }
    }
  }

  // ---------------------------------------------------------------------
  // the imperative part 1

  /** The two nested loops of `solve_part1` filling `grid` with each
      cell's owner; `grid[dy, dx]` is the cell `(min_x + dx, min_y + dy)`,
      the place `set_cell` computes in the flat vector. */
  method FillGrid(coords: seq<Coordinate>, b: Box) returns (grid: array2<Option<nat>>)
    requires |coords| > 0 && Width(b) >= 1 && Height(b) >= 1
    ensures fresh(grid) && grid.Length0 == Height(b) && grid.Length1 == Width(b)
    ensures forall dy, dx :: 0 <= dy < Height(b) && 0 <= dx < Width(b) ==> grid[dy, dx] == Cell(coords, b, dx, dy)
  {
    grid := new Option<nat>[Height(b), Width(b)]((_, _) => None);
    for dx := 0 to Width(b)
      invariant forall dy, dx' :: 0 <= dy < Height(b) && 0 <= dx' < dx ==> grid[dy, dx'] == Cell(coords, b, dx', dy)
    {
      for dy := 0 to Height(b)
        invariant forall dy', dx' :: 0 <= dy' < Height(b) && 0 <= dx' < dx ==> grid[dy', dx'] == Cell(coords, b, dx', dy')
        invariant forall dy' :: 0 <= dy' < dy ==> grid[dy', dx] == Cell(coords, b, dx, dy')
      {
        var owner := FindOwner(coords, Coordinate(b.minX + dx, b.minY + dy));
        grid[dy, dx] := owner;
      }
    }
  }

  /** The counted cells after the rows above `dy` and the cells of row
      `dy` left of `dx`. */
  function Counted(coords: seq<Coordinate>, b: Box, id: nat, dy: nat, dx: nat): nat
    requires |coords| > 0 && Width(b) >= 0
  {
    AreaRows(coords, b, id, dy) + AreaRow(coords, b, id, dy, dx)
  }

  /** The `area_counter` loop: one increment per owned cell, in the order
      of the vector. */
  method CountAreas(coords: seq<Coordinate>, b: Box, grid: array2<Option<nat>>) returns (counter: map<nat, nat>)
    requires |coords| > 0 && Width(b) >= 1 && Height(b) >= 1
    requires grid.Length0 == Height(b) && grid.Length1 == Width(b)
    requires forall dy, dx :: 0 <= dy < Height(b) && 0 <= dx < Width(b) ==> grid[dy, dx] == Cell(coords, b, dx, dy)
    ensures counter == AllAreas(coords, b)
  {
    counter := map[];
    for dy := 0 to Height(b)
      invariant forall id: nat :: id in counter <==> id < |coords| && AreaRows(coords, b, id, dy) > 0
      invariant forall id :: id in counter ==> counter[id] == AreaRows(coords, b, id, dy)
    {
      for dx := 0 to Width(b)
        invariant forall id: nat :: id in counter <==> id < |coords| && Counted(coords, b, id, dy, dx) > 0
        invariant forall id :: id in counter ==> counter[id] == Counted(coords, b, id, dy, dx)
      {
        var cell := grid[dy, dx];
        OwnerInRange(coords, Coordinate(b.minX + dx, b.minY + dy));
        if cell.Some? {
          var id := cell.value;
          if id in counter {
            counter := counter[id := counter[id] + 1];
          } else {
            counter := counter[id := 1];
          }
        }
      }
    }
  }

  /** The ids owning the top or bottom cell of a column left of `n`. */
  function RowBorderIds(coords: seq<Coordinate>, b: Box, n: nat): set<nat>
    requires |coords| > 0
  {
    if n == 0 then {}
    else RowBorderIds(coords, b, n - 1) + IdsOf(Cell(coords, b, n - 1, 0)) + IdsOf(Cell(coords, b, n - 1, Height(b) - 1))
  }

  /** The ids owning the left or right cell of a row above `n`. */
  function ColumnBorderIds(coords: seq<Coordinate>, b: Box, n: nat): set<nat>
    requires |coords| > 0
  {
    if n == 0 then {}
    else ColumnBorderIds(coords, b, n - 1) + IdsOf(Cell(coords, b, 0, n - 1)) + IdsOf(Cell(coords, b, Width(b) - 1, n - 1))
  }

  function IdsOf(cell: Option<nat>): set<nat>
  {
    if cell.Some? then {cell.value} else {}
  }

  lemma {:induction false} RowBorderIdsMeaning(coords: seq<Coordinate>, b: Box, n: nat, id: nat)
    requires |coords| > 0
    ensures id in RowBorderIds(coords, b, n) <==> exists dx :: 0 <= dx < n && OwnsColumnEnd(coords, b, dx, id)
  {
    if n > 0 {
      RowBorderIdsMeaning(coords, b, n - 1, id);
      if id in RowBorderIds(coords, b, n - 1) {
        var dx :| 0 <= dx < n - 1 && OwnsColumnEnd(coords, b, dx, id);
        assert 0 <= dx < n && OwnsColumnEnd(coords, b, dx, id);
      }
      if OwnsColumnEnd(coords, b, n - 1, id) {
        assert id in RowBorderIds(coords, b, n);
      }
    }
  }

  lemma {:induction false} ColumnBorderIdsMeaning(coords: seq<Coordinate>, b: Box, n: nat, id: nat)
    requires |coords| > 0
    ensures id in ColumnBorderIds(coords, b, n) <==> exists dy :: 0 <= dy < n && OwnsRowEnd(coords, b, dy, id)
  {
    if n > 0 {
      ColumnBorderIdsMeaning(coords, b, n - 1, id);
      if id in ColumnBorderIds(coords, b, n - 1) {
        var dy :| 0 <= dy < n - 1 && OwnsRowEnd(coords, b, dy, id);
        assert 0 <= dy < n && OwnsRowEnd(coords, b, dy, id);
      }
      if OwnsRowEnd(coords, b, n - 1, id) {
        assert id in ColumnBorderIds(coords, b, n);
      }
    }
  }

  /** The border ids are exactly the owners of border cells. */
  lemma BorderIds(coords: seq<Coordinate>, b: Box, id: nat)
    requires |coords| > 0 && Width(b) >= 1 && Height(b) >= 1
    ensures id in RowBorderIds(coords, b, Width(b)) + ColumnBorderIds(coords, b, Height(b)) <==> OnBorder(coords, b, id)
  {
    RowBorderIdsMeaning(coords, b, Width(b), id);
    ColumnBorderIdsMeaning(coords, b, Height(b), id);
  }

  /** `area_counter.remove` of a border cell's owner, if it has one. */
  function Drop(counter: map<nat, nat>, cell: Option<nat>): (r: map<nat, nat>)
    ensures r == counter - IdsOf(cell)
  {
    if cell.Some? then counter - {cell.value} else counter
  }

  lemma MinusTwice(m: map<nat, nat>, a: set<nat>, b: set<nat>, c: set<nat>)
    ensures m - a - b - c == m - (a + b + c)
  {
  }

  /** The border sweep: the owners of the top and bottom cells of every
      column, then of the left and right cells of every row, are removed
      from the counter. */
  method RemoveBorder(coords: seq<Coordinate>, b: Box, grid: array2<Option<nat>>, counter0: map<nat, nat>)
    returns (counter: map<nat, nat>)
    requires |coords| > 0 && Width(b) >= 1 && Height(b) >= 1
    requires grid.Length0 == Height(b) && grid.Length1 == Width(b)
    requires forall dy, dx :: 0 <= dy < Height(b) && 0 <= dx < Width(b) ==> grid[dy, dx] == Cell(coords, b, dx, dy)
    ensures counter == counter0 - (RowBorderIds(coords, b, Width(b)) + ColumnBorderIds(coords, b, Height(b)))
  {
    counter := RemoveTopBottom(coords, b, grid, counter0);
    counter := RemoveLeftRight(coords, b, grid, counter);
    MinusTwice(counter0, RowBorderIds(coords, b, Width(b)), ColumnBorderIds(coords, b, Height(b)), {});
  }

  /** The first half of the sweep: top and bottom row. */
  method RemoveTopBottom(coords: seq<Coordinate>, b: Box, grid: array2<Option<nat>>, counter0: map<nat, nat>)
    returns (counter: map<nat, nat>)
    requires |coords| > 0 && Width(b) >= 1 && Height(b) >= 1
    requires grid.Length0 == Height(b) && grid.Length1 == Width(b)
    requires forall dy, dx :: 0 <= dy < Height(b) && 0 <= dx < Width(b) ==> grid[dy, dx] == Cell(coords, b, dx, dy)
    ensures counter == counter0 - RowBorderIds(coords, b, Width(b))
  {
    counter := counter0;
    for dx := 0 to Width(b)
      invariant counter == counter0 - RowBorderIds(coords, b, dx)
    {
      var top := grid[0, dx];
      counter := Drop(counter, top);
      var bottom := grid[Height(b) - 1, dx];
      counter := Drop(counter, bottom);
      MinusTwice(counter0, RowBorderIds(coords, b, dx), IdsOf(top), IdsOf(bottom));
    }
  }

  /** The second half of the sweep: left and right column. */
  method RemoveLeftRight(coords: seq<Coordinate>, b: Box, grid: array2<Option<nat>>, counter0: map<nat, nat>)
    returns (counter: map<nat, nat>)
    requires |coords| > 0 && Width(b) >= 1 && Height(b) >= 1
    requires grid.Length0 == Height(b) && grid.Length1 == Width(b)
    requires forall dy, dx :: 0 <= dy < Height(b) && 0 <= dx < Width(b) ==> grid[dy, dx] == Cell(coords, b, dx, dy)
    ensures counter == counter0 - ColumnBorderIds(coords, b, Height(b))
  {
    counter := counter0;
    for dy := 0 to Height(b)
      invariant counter == counter0 - ColumnBorderIds(coords, b, dy)
    {
      var left := grid[dy, 0];
      counter := Drop(counter, left);
      var right := grid[dy, Width(b) - 1];
      counter := Drop(counter, right);
      MinusTwice(counter0, ColumnBorderIds(coords, b, dy), IdsOf(left), IdsOf(right));
    }
  }

  /** Dropping the border owners from all areas leaves the finite ones. */
  lemma FiniteAreasAfterSweep(coords: seq<Coordinate>, b: Box)
    requires |coords| > 0 && Width(b) >= 1 && Height(b) >= 1
    ensures AllAreas(coords, b) - (RowBorderIds(coords, b, Width(b)) + ColumnBorderIds(coords, b, Height(b))) ==
            FiniteAreas(coords, b)
  {
    var border := RowBorderIds(coords, b, Width(b)) + ColumnBorderIds(coords, b, Height(b));
    var lhs := AllAreas(coords, b) - border;
    var rhs := FiniteAreas(coords, b);
    forall id | id in lhs || id in rhs
      ensures id in lhs && id in rhs && lhs[id] == rhs[id]
    {
      BorderIds(coords, b, id);
    }
    assert lhs.Keys == rhs.Keys;
  }

  /** `solve_part1`: box, grid, counter, border sweep, largest value. */
  method SolvePart1(coords: seq<Coordinate>) returns (r: Option<nat>)
    ensures r == Part1(coords)
  {
    if |coords| == 0 {
      return None;
    }
    var b := GetBoundingBox(coords);
    var grid := FillGrid(coords, b);
    var counter := CountAreas(coords, b, grid);
    counter := RemoveBorder(coords, b, grid, counter);
    FiniteAreasAfterSweep(coords, b);
    r := LargestBelow(counter, |coords|);
  }

  // ---------------------------------------------------------------------
  // part 2

  const DistanceLimit: nat := 10000

  /** The distances from `p` to every coordinate, summed. */
  function TotalDistance(coords: seq<Coordinate>, p: Coordinate): nat
  {
    if coords == [] then 0 else TotalDistance(coords[..|coords| - 1], p) + Distance(p, coords[|coords| - 1])
  }

  /** The bounding box widened by `10000 / n` on every side. */
  function SearchBox(coords: seq<Coordinate>): Box
    requires |coords| > 0
  {
    var b := BoundingBox(coords);
    var pad := DistanceLimit / |coords|;
    Box(b.minX - pad, b.maxX + pad, b.minY - pad, b.maxY + pad)
  }

  predicate Safe(coords: seq<Coordinate>, p: Coordinate)
  {
    TotalDistance(coords, p) < DistanceLimit
  }

  /** The safe cells of row `y` from `x0` on, `n` of them. */
  function SafeInRow(coords: seq<Coordinate>, y: int, x0: int, n: nat): nat
  {
    if n == 0 then 0
    else SafeInRow(coords, y, x0, n - 1) + (if Safe(coords, Coordinate(x0 + n - 1, y)) then 1 else 0)
  }

  /** The safe cells of the first `m` rows of the box. */
  function SafeInRows(coords: seq<Coordinate>, b: Box, m: nat): nat
    requires Width(b) >= 0
  {
    if m == 0 then 0
    else SafeInRows(coords, b, m - 1) + SafeInRow(coords, b.minY + m - 1, b.minX, Width(b))
  }

  /** `solve_part2`: the safe cells of the widened box; an empty input
      divides by zero. */
  function Part2(coords: seq<Coordinate>): (r: Option<nat>)
    ensures r.Some? <==> |coords| > 0
  {
    if |coords| == 0 then None
    else
      var b := SearchBox(coords);
      BoxWiden(coords);
      Some(SafeInRows(coords, b, Height(b)))
  }

  lemma BoxWiden(coords: seq<Coordinate>)
    requires |coords| > 0
    ensures Width(SearchBox(coords)) >= 1 && Height(SearchBox(coords)) >= 1
  {
    var b := BoundingBox(coords);
    var pad := DistanceLimit / |coords|;
    assert pad >= 0;
    assert b.minX <= coords[0].x <= b.maxX && b.minY <= coords[0].y <= b.maxY;
  }

  /** Every coordinate is at least `gap` away in x from `p`. */
  lemma {:induction false} TotalDistanceAtLeast(coords: seq<Coordinate>, p: Coordinate, gap: nat)
    requires forall k :: 0 <= k < |coords| ==> Abs(p.x - coords[k].x) >= gap
    ensures TotalDistance(coords, p) >= |coords| * gap
  {
    if coords != [] {
      var init := coords[..|coords| - 1];
      TotalDistanceAtLeast(init, p, gap);
      assert Distance(p, coords[|coords| - 1]) >= gap;
      assert |coords| * gap == |init| * gap + gap;
    }
  }

  /** Every coordinate is at least `gap` away in y from `p`. */
  lemma {:induction false} TotalDistanceAtLeastY(coords: seq<Coordinate>, p: Coordinate, gap: nat)
    requires forall k :: 0 <= k < |coords| ==> Abs(p.y - coords[k].y) >= gap
    ensures TotalDistance(coords, p) >= |coords| * gap
  {
    if coords != [] {
      var init := coords[..|coords| - 1];
      TotalDistanceAtLeastY(init, p, gap);
      assert Distance(p, coords[|coords| - 1]) >= gap;
      assert |coords| * gap == |init| * gap + gap;
    }
  }

  /** The widening is enough: a cell outside the widened box is more than
      `10000 / n` from every coordinate along one axis, so its distances
      sum to at least 10000. Part 2 therefore counts every safe cell. */
  lemma SafeInSearchBox(coords: seq<Coordinate>, p: Coordinate)
    requires |coords| > 0 && Safe(coords, p)
    ensures var s := SearchBox(coords); s.minX <= p.x <= s.maxX && s.minY <= p.y <= s.maxY
  {
    var b := BoundingBox(coords);
    var n := |coords|;
    PadEnough(n);
    var pad: nat := DistanceLimit / n;
    var gap: nat := pad + 1;
    assert n * gap > DistanceLimit;
    if p.x < b.minX - pad || p.x > b.maxX + pad {
      FarInX(coords, p, gap);
    } else if p.y < b.minY - pad || p.y > b.maxY + pad {
      FarInY(coords, p, gap);
    }
  }

  /** A point at least `gap` columns beyond the bounding box is that far
      from every coordinate. */
  lemma FarInX(coords: seq<Coordinate>, p: Coordinate, gap: nat)
    requires |coords| > 0 && |coords| * gap > DistanceLimit
    requires p.x + gap <= BoundingBox(coords).minX || p.x - gap >= BoundingBox(coords).maxX
    ensures !Safe(coords, p)
  {
    var b := BoundingBox(coords);
    forall k | 0 <= k < |coords|
      ensures Abs(p.x - coords[k].x) >= gap
    {
      assert b.minX <= coords[k].x <= b.maxX;
    }
    TotalDistanceAtLeast(coords, p, gap);
  }

  lemma FarInY(coords: seq<Coordinate>, p: Coordinate, gap: nat)
    requires |coords| > 0 && |coords| * gap > DistanceLimit
    requires p.y + gap <= BoundingBox(coords).minY || p.y - gap >= BoundingBox(coords).maxY
    ensures !Safe(coords, p)
  {
    var b := BoundingBox(coords);
    forall k | 0 <= k < |coords|
      ensures Abs(p.y - coords[k].y) >= gap
    {
      assert b.minY <= coords[k].y <= b.maxY;
    }
    TotalDistanceAtLeastY(coords, p, gap);
  }

  /** `n` times one more than `10000 / n` exceeds 10000. */
  lemma PadEnough(n: nat)
    requires n > 0
    ensures DistanceLimit / n >= 0 && n * (DistanceLimit / n + 1) > DistanceLimit
  {
    var q, r := DistanceLimit / n, DistanceLimit % n;
    assert DistanceLimit == n * q + r && r < n;
    assert n * (q + 1) == n * q + n;
  }

  /** The count is a count of safe cells of the box: row by row, cell by
      cell, each safe cell once. */
  lemma {:induction false} SafeInRowBound(coords: seq<Coordinate>, y: int, x0: int, n: nat)
    ensures SafeInRow(coords, y, x0, n) <= n
    ensures SafeInRow(coords, y, x0, n) == n <==> forall x :: x0 <= x < x0 + n ==> Safe(coords, Coordinate(x, y))
  {
    if n > 0 {
      SafeInRowBound(coords, y, x0, n - 1);
    }
  }
}
