/** Day 11: a 300 x 300 grid of fuel cells whose power level follows
    from the cell's coordinates and a serial number. Part 1 finds the 3 x 3
    square with the largest total power; part 2 tries every square size
    from 1 to 19 and keeps the best. */
module Day11 {
  import opened Common
  import opened Text

  /** The side of the grid; the scan bounds are written against it. */
  const N: nat := 300

  // ---------------------------------------------------------------------
  // get_fuel_level

  /** Rust's `/` on signed integers with a positive divisor: the quotient
      rounded toward zero. */
  function TruncDiv(a: int, b: int): (q: int)
    requires b > 0
    ensures a >= 0 ==> q == a / b
    ensures a < 0 ==> q == -((-a) / b)
  {
    if a >= 0 then a / b else -((-a) / b)
  }

  /** Rust's `%` with a positive divisor: the remainder takes the sign of
      the dividend. */
  function TruncMod(a: int, b: int): (m: int)
    requires b > 0
    ensures a == b * TruncDiv(a, b) + m
    ensures a >= 0 ==> 0 <= m < b
    ensures a < 0 ==> -b < m <= 0
  {
    a - b * TruncDiv(a, b)
  }

  /** `get_hundreds`: `(value / 100) % 10`. */
  function Hundreds(value: int): int
  {
    TruncMod(TruncDiv(value, 100), 10)
  }

  /** For a non-negative value this is the hundreds digit; for a negative
      one it is the negated hundreds digit of its magnitude, because both
      operators round toward zero. */
  lemma HundredsDigit(value: int)
    ensures value >= 0 ==> 0 <= Hundreds(value) <= 9 && Hundreds(value) == (value / 100) % 10
    ensures value >= 0 ==> value == 1000 * (value / 1000) + 100 * Hundreds(value) + value % 100
    ensures value < 0 ==> Hundreds(value) == -Hundreds(-value)
  {
    if value >= 0 {
      assert value / 100 == 10 * (value / 1000) + (value / 100) % 10;
      assert value == 100 * (value / 100) + value % 100;
    }
  }

  /** `get_fuel_level`: the rack ID is x + 10; the power starts at rack ID
      times y, grows by the serial number, is multiplied by the rack ID,
      and the hundreds digit less 5 is kept. */
  function FuelLevel(serial: int, x: int, y: int): (r: int)
    ensures -14 <= r <= 4
  {
    var rack := x + 10;
    var p := (rack * y + serial) * rack;
    HundredsDigit(p);
    HundredsDigit(-p);
    Hundreds(p) - 5
  }

  /** A power level lies in -14..4, and in -5..4 when the product it is
      taken from is not negative, as it is for a non-negative serial
      number on the grid. */
  lemma FuelLevelRange(serial: int, x: int, y: int)
    ensures -14 <= FuelLevel(serial, x, y) <= 4
    ensures serial >= 0 && x >= 1 && y >= 1 ==> -5 <= FuelLevel(serial, x, y) <= 4
  {
    var rack := x + 10;
    var p := (rack * y + serial) * rack;
    HundredsDigit(p);
    HundredsDigit(-p);
    if serial >= 0 && x >= 1 && y >= 1 {
      assert rack * y >= 0;
      assert p >= 0;
    }
  }

  /** The worked examples for single cells. */
  lemma FuelLevelSamples()
    ensures FuelLevel(8, 3, 5) == 4
    ensures FuelLevel(57, 122, 79) == -5
    ensures FuelLevel(39, 217, 196) == 0
    ensures FuelLevel(71, 101, 153) == 4
  {
    assert Hundreds(949) == 9;
    assert Hundreds(1384020) == 0;
    assert Hundreds(10108537) == 5;
    assert Hundreds(1892994) == 9;
  }

  // ---------------------------------------------------------------------
  // make_fuel_grid

  /** A grid of the size every scan assumes. */
  predicate IsGrid(grid: seq<seq<int>>)
  {
    |grid| == N && forall a :: 0 <= a < N ==> |grid[a]| == N
  }

  /** `make_fuel_grid`: the cell at 1-based (x, y) is stored at
      `grid[x - 1][y - 1]`. */
  function FuelGrid(serial: int): (grid: seq<seq<int>>)
    ensures IsGrid(grid)
    ensures forall x, y :: 1 <= x <= N && 1 <= y <= N ==> grid[x - 1][y - 1] == FuelLevel(serial, x, y)
  {
    seq(N, a => seq(N, b => FuelLevel(serial, a + 1, b + 1)))
  }

  /** The single-cell examples, read from the grid. */
  lemma FuelGridSamples()
    ensures FuelGrid(57)[122 - 1][79 - 1] == -5
    ensures FuelGrid(39)[217 - 1][196 - 1] == 0
    ensures FuelGrid(71)[101 - 1][153 - 1] == 4
  {
    FuelLevelSamples();
  }

  // ---------------------------------------------------------------------
  // find_largest_area

  /** The total of the square with 0-based top-left corner (x, y) and
      side `k + 1`: the cells x..=x+k by y..=y+k. */
  function SquareSum(grid: seq<seq<int>>, x: nat, y: nat, k: nat): int
    requires IsGrid(grid) && x + k < N && y + k < N
  {
    RowsSum(grid, x, k + 1, y, k)
  }

  /** The first `count` rows of the square, from row `x` on. */
  function RowsSum(grid: seq<seq<int>>, x: nat, count: nat, y: nat, k: nat): int
    requires IsGrid(grid) && x + count <= N && y + k < N
  {
    if count == 0 then 0
    else RowsSum(grid, x, count - 1, y, k) + Sum(grid[x + count - 1][y..y + k + 1])
  }

  /** The best square so far: its 1-based corner and its total. */
  datatype Best = Best(x: nat, y: nat, total: int)

  /** One square visited: it replaces the best only if strictly larger. */
  function Visit(grid: seq<seq<int>>, k: nat, x: nat, y: nat, cur: Best): Best
    requires IsGrid(grid) && x + k < N && y + k < N
  {
    var total := SquareSum(grid, x, y, k);
    if total > cur.total then Best(x + 1, y + 1, total) else cur
  }

  /** The corners one side can take: `0..(300 - k)`. */
  function Span(k: nat): nat
    requires k < N
  {
    N - k
  }

  /** The squares with corner in row `x` and column below `y`, visited in
      order from `cur`. */
  function ScanRow(grid: seq<seq<int>>, k: nat, x: nat, y: nat, cur: Best): Best
    requires IsGrid(grid) && k < N && x < Span(k) && y <= Span(k)
  {
    if y == 0 then cur else Visit(grid, k, x, y - 1, ScanRow(grid, k, x, y - 1, cur))
  }

  /** Every square with corner in a row below `x`, visited row by row
      from the start value `((0, 0), 0)`. */
  function ScanRows(grid: seq<seq<int>>, k: nat, x: nat): Best
    requires IsGrid(grid) && k < N && x <= Span(k)
  {
    if x == 0 then Best(0, 0, 0) else ScanRow(grid, k, x - 1, Span(k), ScanRows(grid, k, x - 1))
  }

  /** `find_largest_area`: `area_size - 1` underflows for size 0, and a
      side beyond the grid makes `300 - area_size` underflow; both are
      fatal. */
  function LargestArea(grid: seq<seq<int>>, size: nat): (r: Option<Best>)
    requires IsGrid(grid)
    ensures r.Some? <==> 1 <= size <= N + 1
  {
    if size == 0 || size - 1 > N then None
    else if size - 1 == N then Some(Best(0, 0, 0))
    else Some(ScanRows(grid, size - 1, Span(size - 1)))
  }

  /** Square (x', y') comes before (x, y) in the scan. */
  predicate Before(x': nat, y': nat, x: nat, y: nat)
  {
    x' < x || (x' == x && y' < y)
  }

  /** What the best so far means after the scan reached (x, y): no square
      visited has a larger total, a positive total belongs to a visited
      square with no earlier square as large, and a total of 0 keeps the
      start corner. */
  ghost predicate BestOf(grid: seq<seq<int>>, k: nat, x: nat, y: nat, cur: Best)
    requires IsGrid(grid) && k < N
  {
    cur.total >= 0 &&
    (forall x': nat, y': nat :: x' < Span(k) && y' < Span(k) && Before(x', y', x, y) ==>
       SquareSum(grid, x', y', k) <= cur.total) &&
    (cur.total == 0 ==> cur.x == 0 && cur.y == 0) &&
    (cur.total > 0 ==>
       1 <= cur.x <= Span(k) && 1 <= cur.y <= Span(k) && Before(cur.x - 1, cur.y - 1, x, y) &&
       SquareSum(grid, cur.x - 1, cur.y - 1, k) == cur.total &&
       forall x': nat, y': nat :: y' < Span(k) && Before(x', y', cur.x - 1, cur.y - 1) ==>
         SquareSum(grid, x', y', k) < cur.total)
  }

  lemma {:induction false} ScanRowBest(grid: seq<seq<int>>, k: nat, x: nat, y: nat, cur: Best)
    requires IsGrid(grid) && k < N && x < Span(k) && y <= Span(k)
    requires BestOf(grid, k, x, 0, cur)
    ensures BestOf(grid, k, x, y, ScanRow(grid, k, x, y, cur))
  {
    if y > 0 {
      var mid := ScanRow(grid, k, x, y - 1, cur);
      ScanRowBest(grid, k, x, y - 1, cur);
      VisitBest(grid, k, x, y - 1, y, mid);
      assert ScanRow(grid, k, x, y, cur) == Visit(grid, k, x, y - 1, mid);
    }
  }

  /** Visiting square (x, y) extends what the best so far means to it. */
  lemma VisitBest(grid: seq<seq<int>>, k: nat, x: nat, y: nat, next: nat, cur: Best)
    requires IsGrid(grid) && k < N && x < Span(k) && y < Span(k) && next == y + 1
    requires BestOf(grid, k, x, y, cur)
    ensures BestOf(grid, k, x, next, Visit(grid, k, x, y, cur))
  {
    var total := SquareSum(grid, x, y, k);
    var r := Visit(grid, k, x, y, cur);
    forall x': nat, y': nat | x' < Span(k) && y' < Span(k) && Before(x', y', x, y + 1)
      ensures SquareSum(grid, x', y', k) <= r.total
    {
      if Before(x', y', x, y) {
        assert SquareSum(grid, x', y', k) <= cur.total;
      } else {
        assert x' == x && y' == y;
      }
    }
    if total > cur.total {
      forall x': nat, y': nat | y' < Span(k) && Before(x', y', x, y)
        ensures SquareSum(grid, x', y', k) < r.total
      {
        assert x' < Span(k);
        assert SquareSum(grid, x', y', k) <= cur.total;
      }
    }
  }

  lemma {:induction false} ScanRowsBest(grid: seq<seq<int>>, k: nat, x: nat)
    requires IsGrid(grid) && k < N && x <= Span(k)
    ensures BestOf(grid, k, x, 0, ScanRows(grid, k, x))
  {
    if x > 0 {
      var prev := ScanRows(grid, k, x - 1);
      ScanRowsBest(grid, k, x - 1);
      ScanRowBest(grid, k, x - 1, Span(k), prev);
      RowDone(grid, k, x, ScanRow(grid, k, x - 1, Span(k), prev));
    }
  }

  /** After the last square of row `x - 1` the scan has reached the start
      of row `x`. */
  lemma RowDone(grid: seq<seq<int>>, k: nat, x: nat, cur: Best)
    requires IsGrid(grid) && k < N && 0 < x <= Span(k)
    requires BestOf(grid, k, x - 1, Span(k), cur)
    ensures BestOf(grid, k, x, 0, cur)
  {
    forall x': nat, y': nat | x' < Span(k) && y' < Span(k) && Before(x', y', x, 0)
      ensures Before(x', y', x - 1, Span(k))
    {
    }
  }

  /** The result of `find_largest_area`: the 1-based corner of the first
      square, in x-major order, with the strictly largest total, and that
      total; `((0, 0), 0)` when no total is positive. */
  lemma LargestAreaCorrect(grid: seq<seq<int>>, size: nat)
    requires IsGrid(grid) && 1 <= size <= N
    ensures BestOf(grid, size - 1, Span(size - 1), 0, LargestArea(grid, size).value)
  {
    ScanRowsBest(grid, size - 1, Span(size - 1));
  }

  /** The loops of `find_largest_area`. */
  method FindLargestArea(grid: seq<seq<int>>, size: nat) returns (r: Option<Best>)
    requires IsGrid(grid)
    ensures r == LargestArea(grid, size)
  {
    if size == 0 || size - 1 > N {
      return None;
    }
    var k := size - 1;
    if k == N {
      return Some(Best(0, 0, 0));
    }
    var cur := Best(0, 0, 0);
    for x := 0 to N - k
      invariant cur == ScanRows(grid, k, x)
    {
      ghost var start := cur;
      for y := 0 to N - k
        invariant cur == ScanRow(grid, k, x, y, start)
      {
        var total := SquareSum(grid, x, y, k);
        if total > cur.total {
          cur := Best(x + 1, y + 1, total);
        }
      }
    }
    return Some(cur);
  }

  // ---------------------------------------------------------------------
  // find_best_area

  /** The best square and its size. */
  datatype Choice = Choice(x: nat, y: nat, total: int, size: nat)

  /** The sizes below `size` tried in turn, from 1: a size replaces the
      choice only with a strictly larger total. */
  function BestUpTo(grid: seq<seq<int>>, size: nat): Choice
    requires IsGrid(grid) && 1 <= size <= 20
  {
    if size == 1 then Choice(0, 0, 0, 0)
    else
      var cur := BestUpTo(grid, size - 1);
      var b := LargestArea(grid, size - 1).value;
      if b.total > cur.total then Choice(b.x, b.y, b.total, size - 1) else cur
  }

  /** `find_best_area`: sizes 1 to 19. */
  function BestArea(grid: seq<seq<int>>): (r: Choice)
    requires IsGrid(grid)
    ensures r.size < 20 && r.total >= 0
    ensures forall s :: 1 <= s < 20 ==> LargestArea(grid, s).value.total <= r.total
  {
    BestUpToCorrect(grid, 20);
    BestUpTo(grid, 20)
  }

  /** The choice after trying sizes below `size`: its size is 0 (nothing
      positive) or the first size whose largest total is the maximum, and
      it carries that size's corner. */
  lemma {:induction false} BestUpToCorrect(grid: seq<seq<int>>, size: nat)
    requires IsGrid(grid) && 1 <= size <= 20
    ensures var c := BestUpTo(grid, size);
            c.size < size && c.total >= 0 &&
            (c.size == 0 <==> c.total == 0) &&
            (c.size == 0 ==> c.x == 0 && c.y == 0) &&
            (c.size > 0 ==> c.total == LargestArea(grid, c.size).value.total &&
                            c.x == LargestArea(grid, c.size).value.x &&
                            c.y == LargestArea(grid, c.size).value.y) &&
            (forall s :: 1 <= s < size ==> LargestArea(grid, s).value.total <= c.total) &&
            (forall s :: 1 <= s < c.size ==> LargestArea(grid, s).value.total < c.total)
  {
    if size > 1 {
      BestUpToCorrect(grid, size - 1);
    }
  }

  /** `find_best_area`: the size loop. */
  method FindBestArea(grid: seq<seq<int>>) returns (r: Choice)
    requires IsGrid(grid)
    ensures r == BestArea(grid)
  {
    r := Choice(0, 0, 0, 0);
    for size := 1 to 20
      invariant r == BestUpTo(grid, size)
    {
      var found := FindLargestArea(grid, size);
      var b := found.value;
      if b.total > r.total {
        r := Choice(b.x, b.y, b.total, size);
      }
    }
  }

  // ---------------------------------------------------------------------
  // solvers

  /** The serial number: the trimmed input as a signed integer; anything
      else is fatal. */
  function Serial(input: string): Option<int>
  {
    ParseInt(Trim(input))
  }

  /** `solve_part1`: "x,y" of the best 3 x 3 square. */
  function Part1(input: string): (r: Option<string>)
    ensures r.Some? <==> Serial(input).Some?
  {
    match Serial(input)
    case None => None
    case Some(serial) =>
      var b := LargestArea(FuelGrid(serial), 3).value;
      Some(ShowNat(b.x) + "," + ShowNat(b.y))
  }

  /** `solve_part2`: "x,y,size" of the best square of any tried size. */
  function Part2(input: string): (r: Option<string>)
    ensures r.Some? <==> Serial(input).Some?
  {
    match Serial(input)
    case None => None
    case Some(serial) =>
      var c := BestArea(FuelGrid(serial));
      Some(ShowNat(c.x) + "," + ShowNat(c.y) + "," + ShowNat(c.size))
  }
}
