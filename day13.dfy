/** Day 13, "Mine Cart Madness": carts run on a track of straights, curves
    and crossings. Each tick moves every cart one cell, in row-major order of
    their positions; two carts on one cell have collided. */
module Day13 {
  import opened Common
  import opened Text
  import opened Sorting

  // ---------------------------------------------------------------------
  // Directions and the crossing memory

  datatype Orientation = North | East | South | West
  {
    /** `Orientation::left`: a quarter turn counter-clockwise. */
    function RotateLeft(): Orientation
    {
      match this
      case North => West
      case East => North
      case South => East
      case West => South
    }

    /** `Orientation::right`: a quarter turn clockwise. */
    function RotateRight(): Orientation
    {
      match this
      case North => East
      case East => South
      case South => West
      case West => North
    }

    function Opposite(): Orientation
    {
      match this
      case North => South
      case East => West
      case South => North
      case West => East
    }
  }

  /** Left and right undo each other, two rights face the other way and four
      rights are the identity. */
  lemma RotationLaws(o: Orientation)
    ensures o.RotateLeft().RotateRight() == o && o.RotateRight().RotateLeft() == o
    ensures o.RotateRight().RotateRight() == o.Opposite()
    ensures o.RotateRight().RotateRight().RotateRight().RotateRight() == o
  {
  }

  /** What a cart does at its next crossing. */
  datatype NextCrossingTurn = Left | Straight | Right
  {
    /** `NextCrossingTurn::next`. */
    function Next(): NextCrossingTurn
    {
      match this
      case Left => Straight
      case Straight => Right
      case Right => Left
    }
  }

  /** The memory cycles with period exactly three. */
  lemma TurnCycle(t: NextCrossingTurn)
    ensures t.Next() != t && t.Next().Next() != t
    ensures t.Next().Next().Next() == t
  {
  }

  /** The orientation a cart leaves a crossing with. */
  function Turn(t: NextCrossingTurn, o: Orientation): (r: Orientation)
    ensures r == o <==> t == Straight
    ensures r != o.Opposite()
  {
    match t
    case Left => o.RotateLeft()
    case Straight => o
    case Right => o.RotateRight()
  }

  // ---------------------------------------------------------------------
  // Track pieces

  datatype Field =
    | Empty
    | NorthEastSouthWest
    | NorthSouth
    | EastWest
    | NorthEast
    | NorthWest
    | EastSouth
    | SouthWest
  {
    /** The sides of the cell the piece leaves through. */
    predicate Connects(o: Orientation)
    {
      match this
      case Empty => false
      case NorthEastSouthWest => true
      case NorthSouth => o == North || o == South
      case EastWest => o == East || o == West
      case NorthEast => o == North || o == East
      case NorthWest => o == North || o == West
      case EastSouth => o == East || o == South
      case SouthWest => o == South || o == West
    }

    predicate IsCurve()
    {
      this == NorthEast || this == NorthWest || this == EastSouth || this == SouthWest
    }

    /** The `Display` character of the piece. */
    function Glyph(): char
    {
      match this
      case Empty => ' '
      case NorthEastSouthWest => '+'
      case NorthSouth => '|'
      case EastWest => '-'
      case NorthEast => '\\'
      case SouthWest => '\\'
      case NorthWest => '/'
      case EastSouth => '/'
    }
  }

  predicate IsTrackGlyph(c: char)
  {
    c == ' ' || c == '|' || c == '-' || c == '+' || c == '/' || c == '\\' || IsCartGlyph(c)
  }

  predicate IsCartGlyph(c: char)
  {
    c == '^' || c == '>' || c == 'v' || c == '<'
  }

  /** The cart glyphs `^ > v <`; anything else is no cart. */
  function CartOrientation(c: char): (r: Option<Orientation>)
    ensures r.Some? <==> IsCartGlyph(c)
    ensures r.Some? ==> CartGlyph(r.value) == c
  {
    match c
    case '^' => Some(North)
    case '>' => Some(East)
    case 'v' => Some(South)
    case '<' => Some(West)
    case _ => None
  }

  /** The `Display` character of a cart. */
  function CartGlyph(o: Orientation): char
  {
    match o
    case North => '^'
    case East => '>'
    case South => 'v'
    case West => '<'
  }

  /** `Field::from_char`: the piece a character stands for, given the piece
      just left of it. None is the fatal "unknown track character". */
  function FromChar(c: char, last: Field): (r: Option<Field>)
    ensures r.Some? <==> IsTrackGlyph(c)
    ensures c == '/' ==> r == Some(if last.Connects(East) then NorthWest else EastSouth)
    ensures c == '\\' ==> r == Some(if last.Connects(East) then SouthWest else NorthEast)
    ensures r.Some? && CartOrientation(c).None? ==> r.value.Glyph() == c
    ensures CartOrientation(c).Some? ==>
              r.Some? && r.value.Connects(CartOrientation(c).value) &&
              r.value.Connects(CartOrientation(c).value.Opposite()) &&
              !r.value.IsCurve() && r.value != NorthEastSouthWest
  {
    match c
    case ' ' => Some(Empty)
    case '|' | '^' | 'v' => Some(NorthSouth)
    case '-' | '<' | '>' => Some(EastWest)
    case '+' => Some(NorthEastSouthWest)
    case '/' =>
      if last == EastSouth || last == NorthEastSouthWest || last == EastWest || last == NorthEast
      then Some(NorthWest) else Some(EastSouth)
    case '\\' =>
      if last == EastSouth || last == NorthEastSouthWest || last == EastWest || last == NorthEast
      then Some(SouthWest) else Some(NorthEast)
    case _ => None
  }

  // ---------------------------------------------------------------------
  // Positions, carts and one cart's move

  /** Ordered by row first (the derived order of `Coordinate { y, x }`). */
  datatype Coordinate = Coordinate(y: nat, x: nat)

  datatype Cart = Cart(position: Coordinate, orientation: Orientation, nextTurn: NextCrossingTurn)

  type Grid = seq<seq<Field>>

  /** `Cart::new`: the crossing memory starts at Left. */
  function NewCart(position: Coordinate, orientation: Orientation): Cart
  {
    Cart(position, orientation, Left)
  }

  /** Moving North from row 0 or West from column 0 underflows and panics. */
  predicate CanAdvance(p: Coordinate, o: Orientation)
  {
    match o
    case North => p.y > 0
    case West => p.x > 0
    case _ => true
  }

  /** `Coordinate::move`: one cell in the given direction. */
  function Advance(p: Coordinate, o: Orientation): (r: Coordinate)
    requires CanAdvance(p, o)
    ensures (o == North || o == South) <==> r.x == p.x
    ensures (o == East || o == West) <==> r.y == p.y
    ensures r.x + r.y == p.x + p.y + 1 || r.x + r.y + 1 == p.x + p.y
    ensures (o == East || o == South) <==> r.x + r.y > p.x + p.y
  {
    match o
    case North => Coordinate(p.y - 1, p.x)
    case East => Coordinate(p.y, p.x + 1)
    case South => Coordinate(p.y + 1, p.x)
    case West => Coordinate(p.y, p.x - 1)
  }

  /** Moving back the other way undoes a move. */
  lemma AdvanceBack(p: Coordinate, o: Orientation)
    requires CanAdvance(p, o)
    ensures CanAdvance(Advance(p, o), o.Opposite())
    ensures Advance(Advance(p, o), o.Opposite()) == p
  {
  }

  /** Rows may differ in length; indexing outside panics. */
  predicate InBounds(fields: Grid, p: Coordinate)
  {
    p.y < |fields| && p.x < |fields[p.y]|
  }

  /** `Board::index`. */
  function At(fields: Grid, p: Coordinate): Field
    requires InBounds(fields, p)
  {
    fields[p.y][p.x]
  }

  /** The turn in `Cart::move` once the cart has reached piece `f` heading
      `o` with memory `t`: the new orientation and memory. */
  function Steer(f: Field, o: Orientation, t: NextCrossingTurn): (r: (Orientation, NextCrossingTurn))
    // a curve entered through one of its sides is left through the other
    ensures f.IsCurve() && f.Connects(o.Opposite()) ==>
              f.Connects(r.0) && r.0 != o.Opposite() && r.1 == t
    // a crossing applies the memory and advances it
    ensures f == NorthEastSouthWest ==> r == (Turn(t, o), t.Next())
    // everywhere else nothing changes
    ensures f != NorthEastSouthWest && !(f.IsCurve() && f.Connects(o.Opposite())) ==> r == (o, t)
  {
    match (f, o)
    case (NorthEast, South) => (East, t)
    case (NorthEast, West) => (North, t)
    case (NorthWest, East) => (North, t)
    case (NorthWest, South) => (West, t)
    case (EastSouth, North) => (East, t)
    case (EastSouth, West) => (South, t)
    case (SouthWest, North) => (West, t)
    case (SouthWest, East) => (South, t)
    case (NorthEastSouthWest, _) => (Turn(t, o), t.Next())
    case (_, _) => (o, t)
  }

  /** `Cart::move`: step one cell, then steer on the piece reached. None is
      the panic of stepping off the grid. */
  function MoveCart(c: Cart, fields: Grid): (r: Option<Cart>)
    ensures r.Some? <==> CanAdvance(c.position, c.orientation) &&
                         InBounds(fields, Advance(c.position, c.orientation))
    ensures r.Some? ==> r.value.position == Advance(c.position, c.orientation) &&
                        (r.value.orientation, r.value.nextTurn) ==
                          Steer(At(fields, r.value.position), c.orientation, c.nextTurn)
  {
    if !CanAdvance(c.position, c.orientation) then None
    else
      var p := Advance(c.position, c.orientation);
      if !InBounds(fields, p) then None
      else
        var (o, t) := Steer(At(fields, p), c.orientation, c.nextTurn);
        Some(Cart(p, o, t))
  }

  /** The piece at `p` opens to side `o`. */
  predicate Opens(fields: Grid, p: Coordinate, o: Orientation)
  {
    InBounds(fields, p) && At(fields, p).Connects(o)
  }

  /** Every side a piece opens to leads to a cell in the grid whose piece
      opens back. */
  ghost predicate WellFormed(fields: Grid)
  {
    forall p: Coordinate, o: Orientation {:trigger Opens(fields, p, o)} :: Opens(fields, p, o) ==>
      CanAdvance(p, o) && InBounds(fields, Advance(p, o)) &&
      At(fields, Advance(p, o)).Connects(o.Opposite())
  }

  /** The cart stands on track that runs the way it faces. */
  predicate OnTrack(fields: Grid, c: Cart)
  {
    Opens(fields, c.position, c.orientation)
  }

  /** On well-formed track a cart never leaves the track. */
  lemma MoveKeepsOnTrack(fields: Grid, c: Cart)
    requires WellFormed(fields) && OnTrack(fields, c)
    ensures MoveCart(c, fields).Some? && OnTrack(fields, MoveCart(c, fields).value)
  {
    var p, o := c.position, c.orientation;
    assert Opens(fields, p, o);
    var q := Advance(p, o);
    var f := At(fields, q);
    assert f.Connects(o.Opposite());
    var (o', t') := Steer(f, o, c.nextTurn);
    if f != NorthEastSouthWest && !f.IsCurve() {
      assert f == NorthSouth || f == EastWest;
      assert o' == o;
    }
  }

  // ---------------------------------------------------------------------
  // One tick

  predicate PositionLe(a: Coordinate, b: Coordinate)
  {
    a.y < b.y || (a.y == b.y && a.x <= b.x)
  }

  /** The key of `sort_by_key(|c| c.position)`. */
  predicate CartLe(a: Cart, b: Cart)
  {
    PositionLe(a.position, b.position)
  }

  lemma CartLeTotal()
    ensures TotalPreorder(CartLe)
  {
  }

  /** The carts in the order a tick visits them (`sort_by_key` on the
      position, which is stable). */
  function SortedCarts(carts: seq<Cart>): seq<Cart>
  {
    SortBy(carts, CartLe)
  }

  /** The sorted carts are a permutation of the carts. */
  lemma SortedCartsPermutation(carts: seq<Cart>)
    ensures multiset(SortedCarts(carts)) == multiset(carts)
  {
    SortByPermutation(carts, CartLe);
  }

  /** A tick visits the carts row by row, left to right. */
  lemma TickVisitsInPositionOrder(carts: seq<Cart>)
    ensures SortedBy(SortedCarts(carts), CartLe)
  {
    CartLeTotal();
    SortBySorted(carts, CartLe);
  }

  /** The index of the first cart at `p` from `from` on, passing over the
      indices in `ignore`. */
  function FindFrom(cs: seq<Cart>, from: nat, p: Coordinate, ignore: seq<nat>): (r: Option<nat>)
    requires from <= |cs|
    ensures r.Some? ==> from <= r.value < |cs| && cs[r.value].position == p && r.value !in ignore
    ensures r.Some? ==> forall k :: from <= k < r.value && k !in ignore ==> cs[k].position != p
    ensures r.None? ==> forall k :: from <= k < |cs| && k !in ignore ==> cs[k].position != p
    decreases |cs| - from
  {
    if from == |cs| then None
    else if from !in ignore && cs[from].position == p then Some(from)
    else FindFrom(cs, from + 1, p, ignore)
  }

  function RemoveAt(s: seq<Cart>, j: nat): seq<Cart>
    requires j < |s|
  {
    s[..j] + s[j + 1..]
  }

  datatype TickResult = Crash(at: Coordinate) | Done(carts: seq<Cart>) | Fault

  /** What one pass of the loop of `Board::step` leaves: the moved carts
      and the skiplist for the next index, or the tick's result. */
  datatype CartStep = Continue(moved: seq<Cart>, skip: seq<nat>) | Stop(result: TickResult)

  /** One pass of the loop of `Board::step`, for index `i` of the sorted
      carts, with the carts moved so far and the skiplist of crashed,
      unmoved carts. A skiplisted cart is passed over. A moved cart that
      lands on a moved cart removes both; one that lands on a not yet moved
      cart puts that cart on the skiplist. With `liveOnly` false the search
      among unmoved carts also finds skiplisted ones, as the source does;
      with `liveOnly` true it passes over them. */
  function TickCart(fields: Grid, sorted: seq<Cart>, remove: bool, liveOnly: bool,
                    i: nat, moved: seq<Cart>, skip: seq<nat>): (r: CartStep)
    requires i < |sorted|
    ensures r.Stop? && r.result.Crash? ==> !remove
    ensures r.Continue? ==> |r.moved| <= |moved| + 1
    ensures !remove && skip == [] && r.Continue? ==> r.skip == [] && |r.moved| == |moved| + 1
  {
    if i in skip then Continue(moved, skip)
    else match MoveCart(sorted[i], fields)
      case None => Stop(Fault)
      case Some(c) =>
        match FindFrom(moved, 0, c.position, [])
        case Some(j) =>
          if !remove then Stop(Crash(c.position)) else Continue(RemoveAt(moved, j), skip)
        case None =>
          match FindFrom(sorted, i + 1, c.position, if liveOnly then skip else [])
          case Some(k) =>
            if !remove then Stop(Crash(c.position)) else Continue(moved, skip + [k])
          case None => Continue(moved + [c], skip)
  }

  /** The loop of `Board::step` from index `i` on. */
  function TickFrom(fields: Grid, sorted: seq<Cart>, remove: bool, liveOnly: bool,
                    i: nat, moved: seq<Cart>, skip: seq<nat>): (r: TickResult)
    requires i <= |sorted|
    ensures r.Crash? ==> !remove
    ensures r.Done? ==> |r.carts| <= |moved| + |sorted| - i
    ensures !remove && skip == [] && r.Done? ==> |r.carts| == |moved| + |sorted| - i
    decreases |sorted| - i
  {
    if i == |sorted| then Done(moved)
    else match TickCart(fields, sorted, remove, liveOnly, i, moved, skip)
      case Stop(r) => r
      case Continue(moved', skip') => TickFrom(fields, sorted, remove, liveOnly, i + 1, moved', skip')
  }

  /** `Board::step`. `Tick(fields, carts, remove, false)` is the source as
      written; `Tick(fields, carts, remove, true)` is the corrected tick. */
  function Tick(fields: Grid, carts: seq<Cart>, remove: bool, liveOnly: bool): (r: TickResult)
    ensures r.Crash? ==> !remove
    ensures r.Done? ==> |r.carts| <= |carts|
    ensures !remove && r.Done? ==> |r.carts| == |carts|
    ensures carts == [] ==> r == Done([])
  {
    TickFrom(fields, SortedCarts(carts), remove, liveOnly, 0, [], [])
  }

  predicate DistinctPositions(cs: seq<Cart>)
  {
    forall a, b :: 0 <= a < b < |cs| ==> cs[a].position != cs[b].position
  }

  /** The cart at `k` lands on a cart that has already moved or on one that
      has yet to move. */
  predicate CollidesAt(fields: Grid, sorted: seq<Cart>, k: nat)
    requires k < |sorted|
  {
    var next := MoveCart(sorted[k], fields);
    next.Some? &&
    ((exists m :: 0 <= m < k && MoveCart(sorted[m], fields).Some? &&
                  MoveCart(sorted[m], fields).value.position == next.value.position) ||
     (exists m :: k < m < |sorted| && sorted[m].position == next.value.position))
  }

  predicate FirstCollision(fields: Grid, sorted: seq<Cart>, k: nat)
    requires k < |sorted|
  {
    CollidesAt(fields, sorted, k) && forall m :: 0 <= m < k ==> !CollidesAt(fields, sorted, m)
  }

  /** What a tick without removal reports: the landing
      cell of the first colliding cart, or every cart moved once, in order;
      never a fault. */
  ghost predicate NoRemovalOutcome(fields: Grid, sorted: seq<Cart>, r: TickResult)
  {
    match r
    case Crash(p) =>
      exists k :: 0 <= k < |sorted| && FirstCollision(fields, sorted, k) &&
                  p == MoveCart(sorted[k], fields).value.position
    case Done(cs) =>
      |cs| == |sorted| &&
      (forall k :: 0 <= k < |sorted| ==> !CollidesAt(fields, sorted, k)) &&
      (forall k :: 0 <= k < |sorted| ==> MoveCart(sorted[k], fields) == Some(cs[k]))
    case Fault => false
  }

  lemma {:induction false} TickFromWithoutRemoval(fields: Grid, sorted: seq<Cart>, liveOnly: bool,
                                                  i: nat, moved: seq<Cart>)
    requires i <= |sorted| && |moved| == i
    requires forall k :: 0 <= k < |sorted| ==> MoveCart(sorted[k], fields).Some?
    requires forall k :: 0 <= k < i ==> MoveCart(sorted[k], fields) == Some(moved[k])
    requires forall k :: 0 <= k < i ==> !CollidesAt(fields, sorted, k)
    ensures NoRemovalOutcome(fields, sorted, TickFrom(fields, sorted, false, liveOnly, i, moved, []))
    decreases |sorted| - i
  {
    if i == |sorted| {
      assert NoRemovalOutcome(fields, sorted, Done(moved));
    } else {
      var c := MoveCart(sorted[i], fields).value;
      TickFromNoRemovalStep(fields, sorted, liveOnly, i, moved, c);
      LandsOnCart(fields, sorted, i, moved, c);
      if CollidesAt(fields, sorted, i) {
        CrashOutcome(fields, sorted, i);
      } else {
        var moved' := moved + [c];
        assert forall k :: 0 <= k < i ==> moved'[k] == moved[k];
        TickFromWithoutRemoval(fields, sorted, liveOnly, i + 1, moved');
      }
    }
  }

  /** With the moved carts standing for the first `i` sorted carts, the
      two searches of the tick find a cart exactly when cart `i` collides. */
  lemma LandsOnCart(fields: Grid, sorted: seq<Cart>, i: nat, moved: seq<Cart>, c: Cart)
    requires i < |sorted| && |moved| == i && MoveCart(sorted[i], fields) == Some(c)
    requires forall k :: 0 <= k < i ==> MoveCart(sorted[k], fields) == Some(moved[k])
    ensures CollidesAt(fields, sorted, i) <==>
            FindFrom(moved, 0, c.position, []).Some? || FindFrom(sorted, i + 1, c.position, []).Some?
  {
    match FindFrom(moved, 0, c.position, [])
    case Some(j) =>
      assert MoveCart(sorted[j], fields) == Some(moved[j]);
    case None =>
      match FindFrom(sorted, i + 1, c.position, [])
      case Some(k) =>
      case None =>
        forall m | 0 <= m < i
          ensures MoveCart(sorted[m], fields).value.position != c.position
        {
          assert MoveCart(sorted[m], fields) == Some(moved[m]);
        }
  }

  /** One cart of a tick without removal: a landing on any cart is the
      reported crash, otherwise the cart joins the moved ones. */
  lemma TickFromNoRemovalStep(fields: Grid, sorted: seq<Cart>, liveOnly: bool, i: nat, moved: seq<Cart>, c: Cart)
    requires i < |sorted| && MoveCart(sorted[i], fields) == Some(c)
    ensures FindFrom(moved, 0, c.position, []).Some? ==>
              TickFrom(fields, sorted, false, liveOnly, i, moved, []) == Crash(c.position)
    ensures FindFrom(moved, 0, c.position, []).None? && FindFrom(sorted, i + 1, c.position, []).Some? ==>
              TickFrom(fields, sorted, false, liveOnly, i, moved, []) == Crash(c.position)
    ensures FindFrom(moved, 0, c.position, []).None? && FindFrom(sorted, i + 1, c.position, []).None? ==>
              TickFrom(fields, sorted, false, liveOnly, i, moved, []) ==
              TickFrom(fields, sorted, false, liveOnly, i + 1, moved + [c], [])
  {
    assert i !in [];
  }

  /** The first collision is the one reported. */
  lemma CrashOutcome(fields: Grid, sorted: seq<Cart>, i: nat)
    requires i < |sorted| && CollidesAt(fields, sorted, i)
    requires forall k :: 0 <= k < i ==> !CollidesAt(fields, sorted, k)
    ensures NoRemovalOutcome(fields, sorted, Crash(MoveCart(sorted[i], fields).value.position))
  {
    assert FirstCollision(fields, sorted, i);
  }

  /** `step(false)`: when no cart leaves the grid, the tick reports the
      landing cell of the first cart in visiting order that collides, and
      otherwise every cart has moved once, in order. */
  lemma TickWithoutRemoval(fields: Grid, carts: seq<Cart>, liveOnly: bool)
    requires forall c | c in carts :: MoveCart(c, fields).Some?
    ensures var sorted := SortedCarts(carts);
      match Tick(fields, carts, false, liveOnly)
      case Crash(p) =>
        exists k :: 0 <= k < |sorted| && FirstCollision(fields, sorted, k) &&
                    p == MoveCart(sorted[k], fields).value.position
      case Done(cs) =>
        |cs| == |carts| &&
        (forall k :: 0 <= k < |sorted| ==> !CollidesAt(fields, sorted, k)) &&
        (forall k :: 0 <= k < |sorted| ==> MoveCart(sorted[k], fields) == Some(cs[k]))
      case Fault => false
  {
    var sorted := SortedCarts(carts);
    SortedCartsPermutation(carts);
    forall k | 0 <= k < |sorted| ensures MoveCart(sorted[k], fields).Some? {
      assert sorted[k] in multiset(sorted);
    }
    TickFromWithoutRemoval(fields, sorted, liveOnly, 0, []);
    assert |sorted| == |carts| by {
      assert |multiset(sorted)| == |multiset(carts)|;
    }
  }

  /** Without removal the skiplist stays empty, so the correction does not
      change `step(false)`. */
  lemma {:induction false} TickFromWithoutRemovalIgnoresLiveOnly(fields: Grid, sorted: seq<Cart>,
                                                                 i: nat, moved: seq<Cart>)
    requires i <= |sorted|
    ensures TickFrom(fields, sorted, false, true, i, moved, []) ==
            TickFrom(fields, sorted, false, false, i, moved, [])
    decreases |sorted| - i
  {
    if i < |sorted| {
      match MoveCart(sorted[i], fields)
      case None =>
      case Some(c) =>
        TickFromWithoutRemovalIgnoresLiveOnly(fields, sorted, i + 1, moved + [c]);
    }
  }

  lemma TickWithoutRemovalIgnoresLiveOnly(fields: Grid, carts: seq<Cart>)
    ensures Tick(fields, carts, false, true) == Tick(fields, carts, false, false)
  {
    TickFromWithoutRemovalIgnoresLiveOnly(fields, SortedCarts(carts), 0, []);
  }

  lemma RemoveAtKeeps(s: seq<Cart>, j: nat)
    requires j < |s|
    ensures |RemoveAt(s, j)| == |s| - 1
    ensures forall c | c in RemoveAt(s, j) :: c in s
    ensures DistinctPositions(s) ==> DistinctPositions(RemoveAt(s, j))
  {
    var r := RemoveAt(s, j);
    forall a | 0 <= a < |r| ensures r[a] == s[if a < j then a else a + 1] { }
  }

  lemma {:induction false} TickFromRemoving(fields: Grid, sorted: seq<Cart>, liveOnly: bool,
                                            i: nat, moved: seq<Cart>, skip: seq<nat>)
    requires i <= |sorted|
    requires DistinctPositions(moved)
    ensures !TickFrom(fields, sorted, true, liveOnly, i, moved, skip).Crash?
    ensures match TickFrom(fields, sorted, true, liveOnly, i, moved, skip)
      case Done(cs) =>
        |cs| <= |moved| + |sorted| - i && DistinctPositions(cs) &&
        forall c | c in cs ::
          c in moved || exists k :: i <= k < |sorted| && MoveCart(sorted[k], fields) == Some(c)
      case _ => true
    decreases |sorted| - i
  {
    if i < |sorted| {
      var step := TickCart(fields, sorted, true, liveOnly, i, moved, skip);
      TickCartRemoving(fields, sorted, liveOnly, i, moved, skip);
      if step.Continue? {
        TickFromRemoving(fields, sorted, liveOnly, i + 1, step.moved, step.skip);
        match TickFrom(fields, sorted, true, liveOnly, i + 1, step.moved, step.skip)
        case Done(cs) =>
          forall c | c in cs
            ensures c in moved || exists k :: i <= k < |sorted| && MoveCart(sorted[k], fields) == Some(c)
          {
            if c !in step.moved {
              var k :| i + 1 <= k < |sorted| && MoveCart(sorted[k], fields) == Some(c);
            }
          }
        case _ =>
      }
    }
  }

  /** One cart with removal: never a collision report; the moved carts keep
      distinct cells, grow by at most one, and gain only the moved form of
      cart `i`. */
  lemma TickCartRemoving(fields: Grid, sorted: seq<Cart>, liveOnly: bool,
                         i: nat, moved: seq<Cart>, skip: seq<nat>)
    requires i < |sorted| && DistinctPositions(moved)
    ensures !(TickCart(fields, sorted, true, liveOnly, i, moved, skip).Stop? &&
              TickCart(fields, sorted, true, liveOnly, i, moved, skip).result.Crash?)
    ensures match TickCart(fields, sorted, true, liveOnly, i, moved, skip)
      case Continue(moved', _) =>
        |moved'| <= |moved| + 1 && DistinctPositions(moved') &&
        forall c | c in moved' :: c in moved || MoveCart(sorted[i], fields) == Some(c)
      case Stop(_) => true
  {
    if i !in skip {
      match MoveCart(sorted[i], fields)
      case None =>
      case Some(c) =>
        match FindFrom(moved, 0, c.position, [])
        case Some(j) =>
          RemoveAtKeeps(moved, j);
        case None =>
          match FindFrom(sorted, i + 1, c.position, if liveOnly then skip else [])
          case Some(k) =>
          case None =>
            assert DistinctPositions(moved + [c]);
    }
  }

  /** `step(true)`, as written or corrected: it never reports a collision,
      never adds carts, and the survivors stand on distinct cells, each the
      moved form of one of the carts it started with. */
  lemma TickWithRemoval(fields: Grid, carts: seq<Cart>, liveOnly: bool)
    ensures !Tick(fields, carts, true, liveOnly).Crash?
    ensures match Tick(fields, carts, true, liveOnly)
      case Done(cs) =>
        |cs| <= |carts| && DistinctPositions(cs) &&
        forall c | c in cs :: exists c0 :: c0 in carts && MoveCart(c0, fields) == Some(c)
      case _ => true
  {
    var sorted := SortedCarts(carts);
    SortedCartsPermutation(carts);
    TickFromRemoving(fields, sorted, liveOnly, 0, [], []);
    match Tick(fields, carts, true, liveOnly)
    case Done(cs) =>
      forall c | c in cs ensures exists c0 :: c0 in carts && MoveCart(c0, fields) == Some(c) {
        var k :| 0 <= k < |sorted| && MoveCart(sorted[k], fields) == Some(c);
        assert sorted[k] in multiset(carts);
      }
    case _ =>
  }

  /** A tick that did not panic and left only carts on the track. */
  predicate StaysOnTrack(fields: Grid, t: TickResult)
  {
    match t
    case Fault => false
    case Done(cs) => forall c | c in cs :: OnTrack(fields, c)
    case Crash(_) => true
  }

  lemma {:induction false} TickFromOnTrack(fields: Grid, sorted: seq<Cart>, remove: bool, liveOnly: bool,
                                           i: nat, moved: seq<Cart>, skip: seq<nat>)
    requires WellFormed(fields) && i <= |sorted|
    requires forall k :: i <= k < |sorted| ==> OnTrack(fields, sorted[k])
    requires forall c | c in moved :: OnTrack(fields, c)
    ensures StaysOnTrack(fields, TickFrom(fields, sorted, remove, liveOnly, i, moved, skip))
    decreases |sorted| - i
  {
    if i < |sorted| {
      var step := TickCart(fields, sorted, remove, liveOnly, i, moved, skip);
      TickCartOnTrack(fields, sorted, remove, liveOnly, i, moved, skip);
      if step.Continue? {
        TickFromOnTrack(fields, sorted, remove, liveOnly, i + 1, step.moved, step.skip);
      }
    }
  }

  /** One cart on well-formed track: no panic, and every moved cart stays on
      the track. */
  lemma TickCartOnTrack(fields: Grid, sorted: seq<Cart>, remove: bool, liveOnly: bool,
                        i: nat, moved: seq<Cart>, skip: seq<nat>)
    requires WellFormed(fields) && i < |sorted| && OnTrack(fields, sorted[i])
    requires forall c | c in moved :: OnTrack(fields, c)
    ensures match TickCart(fields, sorted, remove, liveOnly, i, moved, skip)
      case Continue(moved', _) => forall c | c in moved' :: OnTrack(fields, c)
      case Stop(r) => StaysOnTrack(fields, r)
  {
    if i !in skip {
      MoveKeepsOnTrack(fields, sorted[i]);
      var c := MoveCart(sorted[i], fields).value;
      match FindFrom(moved, 0, c.position, [])
      case Some(j) =>
        if remove {
          RemoveAtKeeps(moved, j);
        }
      case None =>
    }
  }

  /** On well-formed track with every cart on it, a tick never panics and
      leaves every cart on the track. */
  lemma TickOnTrack(fields: Grid, carts: seq<Cart>, remove: bool, liveOnly: bool)
    requires WellFormed(fields)
    requires forall c | c in carts :: OnTrack(fields, c)
    ensures !Tick(fields, carts, remove, liveOnly).Fault?
    ensures match Tick(fields, carts, remove, liveOnly)
      case Done(cs) => forall c | c in cs :: OnTrack(fields, c)
      case _ => true
  {
    var sorted := SortedCarts(carts);
    SortedCartsPermutation(carts);
    forall k | 0 <= k < |sorted| ensures OnTrack(fields, sorted[k]) {
      assert sorted[k] in multiset(carts);
    }
    TickFromOnTrack(fields, sorted, remove, liveOnly, 0, [], []);
  }

  /** How many indices in [i, n) are not on the skiplist. */
  function LiveFrom(i: nat, n: nat, skip: seq<nat>): nat
    decreases n - i
  {
    if i >= n then 0 else (if i in skip then 0 else 1) + LiveFrom(i + 1, n, skip)
  }

  lemma {:induction false} LiveFromSkip(i: nat, n: nat, skip: seq<nat>, k: nat)
    requires i <= k < n && k !in skip
    ensures LiveFrom(i, n, skip + [k]) + 1 == LiveFrom(i, n, skip)
    decreases n - i
  {
    if i < k {
      LiveFromSkip(i + 1, n, skip, k);
    } else {
      LiveFromUnaffected(i + 1, n, skip, k);
    }
  }

  lemma {:induction false} LiveFromUnaffected(i: nat, n: nat, skip: seq<nat>, k: nat)
    requires k < i
    ensures LiveFrom(i, n, skip + [k]) == LiveFrom(i, n, skip)
    decreases n - i
  {
    if i < n {
      LiveFromUnaffected(i + 1, n, skip, k);
    }
  }

  lemma {:induction false} LiveFromNone(i: nat, n: nat)
    requires i <= n
    ensures LiveFrom(i, n, []) == n - i
    decreases n - i
  {
    if i < n {
      LiveFromNone(i + 1, n);
    }
  }

  lemma {:induction false} TickFromParity(fields: Grid, sorted: seq<Cart>, i: nat,
                                          moved: seq<Cart>, skip: seq<nat>)
    requires i <= |sorted|
    ensures match TickFrom(fields, sorted, true, true, i, moved, skip)
      case Done(cs) => |cs| % 2 == (|moved| + LiveFrom(i, |sorted|, skip)) % 2
      case _ => true
    decreases |sorted| - i
  {
    if i < |sorted| {
      var step := TickCart(fields, sorted, true, true, i, moved, skip);
      TickCartParity(fields, sorted, i, moved, skip);
      if step.Continue? {
        TickFromParity(fields, sorted, i + 1, step.moved, step.skip);
        assert TickFrom(fields, sorted, true, true, i, moved, skip) ==
               TickFrom(fields, sorted, true, true, i + 1, step.moved, step.skip);
      }
    }
  }

  /** One cart of the corrected tick with removal changes the number of
      moved carts plus the live unmoved ones by an even amount. */
  lemma TickCartParity(fields: Grid, sorted: seq<Cart>, i: nat, moved: seq<Cart>, skip: seq<nat>)
    requires i < |sorted|
    ensures match TickCart(fields, sorted, true, true, i, moved, skip)
      case Continue(moved', skip') =>
        (|moved'| + LiveFrom(i + 1, |sorted|, skip')) % 2 == (|moved| + LiveFrom(i, |sorted|, skip)) % 2
      case Stop(r) => !r.Done?
  {
    if i !in skip {
      match MoveCart(sorted[i], fields)
      case None =>
      case Some(c) =>
        match FindFrom(moved, 0, c.position, [])
        case Some(j) =>
        case None =>
          match FindFrom(sorted, i + 1, c.position, skip)
          case Some(k) =>
            LiveFromSkip(i + 1, |sorted|, skip, k);
          case None =>
    }
  }

  /** The corrected `step(true)` removes carts in pairs only, so an odd
      number of carts never drops to none. */
  lemma CorrectedTickParity(fields: Grid, carts: seq<Cart>)
    ensures match Tick(fields, carts, true, true)
      case Done(cs) => |cs| % 2 == |carts| % 2
      case _ => true
  {
    var sorted := SortedCarts(carts);
    TickFromParity(fields, sorted, 0, [], []);
    LiveFromNone(0, |sorted|);
  }

  /** A crossing with three carts: the cart from the north runs onto the
      crossing, where a west-bound cart stands, and both are wrecked; the
      east-bound cart from the west then reaches the crossing where the wreck
      stood. */
  const SkiplistGrid: Grid :=
    [[Empty, Empty, NorthSouth],
     [EastWest, EastWest, NorthEastSouthWest, EastWest],
     [Empty, Empty, NorthSouth]]

  const SkiplistCarts: seq<Cart> :=
    [NewCart(Coordinate(0, 2), South), NewCart(Coordinate(1, 1), East), NewCart(Coordinate(1, 2), West)]

  lemma SkiplistSorted()
    ensures SortedCarts(SkiplistCarts) == SkiplistCarts
  {
    assert SortedBy(SkiplistCarts, CartLe);
    SortBySortedIsIdentity(SkiplistCarts, CartLe);
  }

  /** The first cart of the example runs onto the crossing, where the third
      cart stands: both are wrecked, and the third goes on the skiplist. */
  lemma SkiplistFirstMove(liveOnly: bool)
    ensures TickFrom(SkiplistGrid, SkiplistCarts, true, liveOnly, 0, [], []) ==
            TickFrom(SkiplistGrid, SkiplistCarts, true, liveOnly, 1, [], [2])
  {
    var s := SkiplistCarts;
    assert MoveCart(s[0], SkiplistGrid) == Some(Cart(Coordinate(1, 2), East, Straight));
    assert FindFrom([], 0, Coordinate(1, 2), []) == None;
    assert FindFrom(s, 1, Coordinate(1, 2), []) == Some(2);
  }

  /** As written, the second cart's search among unmoved carts finds the
      wrecked third cart again. */
  lemma SkiplistSecondMoveAsWritten()
    ensures TickFrom(SkiplistGrid, SkiplistCarts, true, false, 1, [], [2]) ==
            TickFrom(SkiplistGrid, SkiplistCarts, true, false, 2, [], [2, 2])
  {
    var s := SkiplistCarts;
    assert MoveCart(s[1], SkiplistGrid) == Some(Cart(Coordinate(1, 2), North, Straight));
    assert FindFrom([], 0, Coordinate(1, 2), []) == None;
    assert FindFrom(s, 2, Coordinate(1, 2), []) == Some(2);
  }

  /** As written, the search among unmoved carts finds the wrecked third
      cart again and the second cart is removed too. */
  lemma SkiplistAsWritten()
    ensures Tick(SkiplistGrid, SkiplistCarts, true, false) == Done([])
  {
    SkiplistSorted();
    SkiplistFirstMove(false);
    SkiplistSecondMoveAsWritten();
    assert TickFrom(SkiplistGrid, SkiplistCarts, true, false, 2, [], [2, 2]) == Done([]);
  }

  /** Corrected, the second cart's search passes over the wreck. */
  lemma SkiplistSecondMoveCorrected()
    ensures TickFrom(SkiplistGrid, SkiplistCarts, true, true, 1, [], [2]) ==
            TickFrom(SkiplistGrid, SkiplistCarts, true, true, 2, [Cart(Coordinate(1, 2), North, Straight)], [2])
  {
    var s := SkiplistCarts;
    assert MoveCart(s[1], SkiplistGrid) == Some(Cart(Coordinate(1, 2), North, Straight));
    assert FindFrom([], 0, Coordinate(1, 2), []) == None;
    assert FindFrom(s, 2, Coordinate(1, 2), [2]) == None;
  }

  /** Corrected, the search passes over the wreck on the skiplist and the
      second cart goes on through the crossing. */
  lemma SkiplistCorrected()
    ensures Tick(SkiplistGrid, SkiplistCarts, true, true) == Done([Cart(Coordinate(1, 2), North, Straight)])
  {
    SkiplistSorted();
    SkiplistFirstMove(true);
    SkiplistSecondMoveCorrected();
    assert TickFrom(SkiplistGrid, SkiplistCarts, true, true, 2, [Cart(Coordinate(1, 2), North, Straight)], [2])
           == Done([Cart(Coordinate(1, 2), North, Straight)]);
  }

  // ---------------------------------------------------------------------
  // The board

  class Board {
    const fields: Grid
    var carts: seq<Cart>

    constructor (fields: Grid, carts: seq<Cart>)
      ensures this.fields == fields && this.carts == carts
    {
      this.fields := fields;
      this.carts := carts;
    }

    /** `Board::step` as written: the search among unmoved carts also
        finds carts already on the skiplist. A collision without removal,
        or a panic, leaves the carts as they were. */
    method Step(removeCrashes: bool) returns (r: TickResult)
      modifies this
      ensures r == Tick(fields, old(carts), removeCrashes, false)
      ensures carts == if r.Done? then r.carts else old(carts)
    {
      r := StepWith(removeCrashes, false);
    }

    /** `Board::step` corrected: the search among unmoved carts passes
        over the skiplist. */
    method StepCorrected(removeCrashes: bool) returns (r: TickResult)
      modifies this
      ensures r == Tick(fields, old(carts), removeCrashes, true)
      ensures carts == if r.Done? then r.carts else old(carts)
    {
      r := StepWith(removeCrashes, true);
    }

    /** The loop of both: `liveOnly` says whether the search among unmoved
        carts passes over the skiplist. */
    method StepWith(removeCrashes: bool, liveOnly: bool) returns (r: TickResult)
      modifies this
      ensures r == Tick(fields, old(carts), removeCrashes, liveOnly)
      ensures carts == if r.Done? then r.carts else old(carts)
    {
      var sorted := SortedCarts(carts);
      var newCarts: seq<Cart> := [];
      var skiplist: seq<nat> := [];
      var i := 0;
      while i < |sorted|
        invariant i <= |sorted|
        invariant carts == old(carts)
        invariant TickFrom(fields, sorted, removeCrashes, liveOnly, i, newCarts, skiplist) ==
                  Tick(fields, carts, removeCrashes, liveOnly)
      {
        ghost var next := TickCart(fields, sorted, removeCrashes, liveOnly, i, newCarts, skiplist);
        assert TickFrom(fields, sorted, removeCrashes, liveOnly, i, newCarts, skiplist) ==
               match next
               case Stop(t) => t
               case Continue(m, s) => TickFrom(fields, sorted, removeCrashes, liveOnly, i + 1, m, s);
        if i in skiplist {
          i := i + 1;
          continue;
        }
        var moved := MoveCart(sorted[i], fields);
        if moved.None? {
          return Fault;
        }
        var cart := moved.value;
        var j := FindFrom(newCarts, 0, cart.position, []);
        if j.Some? {
          if !removeCrashes {
            return Crash(cart.position);
          }
          newCarts := RemoveAt(newCarts, j.value);
        } else {
          var k := FindFrom(sorted, i + 1, cart.position, if liveOnly then skiplist else []);
          if k.Some? {
            if !removeCrashes {
              return Crash(cart.position);
            }
            skiplist := skiplist + [k.value];
          } else {
            newCarts := newCarts + [cart];
          }
        }
        i := i + 1;
      }
      carts := newCarts;
      return Done(newCarts);
    }
  }

  // ---------------------------------------------------------------------
  // Parsing and rendering

  /** The piece left of index `k`, or Empty at the start of a line (the
      `last_field` that `generator` threads along a line). */
  function LeftOf(row: seq<Field>, k: nat): Field
    requires k <= |row|
  {
    if k == 0 then Empty else row[k - 1]
  }

  /** One line of input, each character read in the light of the piece
      parsed just before it. None if some character is not track. */
  function ParseRow(line: string): (r: Option<seq<Field>>)
    ensures (forall k :: 0 <= k < |line| ==> IsTrackGlyph(line[k])) ==> r.Some?
    ensures r.Some? ==> |r.value| == |line|
    decreases |line|
  {
    if line == [] then Some([])
    else
      var n := |line| - 1;
      assert forall k :: 0 <= k < n ==> line[..n][k] == line[k];
      match ParseRow(line[..n])
      case None => None
      case Some(row) =>
        match FromChar(line[n], LeftOf(row, n))
        case None => None
        case Some(f) => Some(row + [f])
  }

  /** Each piece of a parsed row is its character read in the light of the
      piece left of it. */
  lemma {:induction false} ParseRowReads(line: string)
    requires ParseRow(line).Some?
    ensures forall k :: 0 <= k < |line| ==>
              FromChar(line[k], LeftOf(ParseRow(line).value, k)) == Some(ParseRow(line).value[k])
    decreases |line|
  {
    if line != [] {
      var n := |line| - 1;
      var front := line[..n];
      ParseRowLast(line);
      ParseRowReads(front);
      ReadsSnoc(line, ParseRow(front).value, ParseRow(line).value);
    }
  }

  /** Reading one more character: the pieces of the front are read as
      before, and the last one in the light of the piece before it. */
  lemma ReadsSnoc(line: string, row: seq<Field>, r: seq<Field>)
    requires line != [] && |row| == |line| - 1 && |r| == |line| && r == row + [r[|row|]]
    requires forall k :: 0 <= k < |row| ==> FromChar(line[..|row|][k], LeftOf(row, k)) == Some(row[k])
    requires FromChar(line[|row|], LeftOf(row, |row|)) == Some(r[|row|])
    ensures forall k :: 0 <= k < |line| ==> FromChar(line[k], LeftOf(r, k)) == Some(r[k])
  {
    forall k | 0 <= k < |line|
      ensures FromChar(line[k], LeftOf(r, k)) == Some(r[k])
    {
      if k < |row| {
        assert line[..|row|][k] == line[k] && LeftOf(r, k) == LeftOf(row, k) && r[k] == row[k];
      }
    }
  }

  function ParseGrid(lines: seq<string>): (r: Option<Grid>)
    ensures r.Some? <==> forall y :: 0 <= y < |lines| ==> ParseRow(lines[y]).Some?
    ensures r.Some? ==> |r.value| == |lines|
    ensures r.Some? ==> forall y :: 0 <= y < |lines| ==> ParseRow(lines[y]) == Some(r.value[y])
  {
    ParseAll(lines, ParseRow)
  }

  /** The carts a line spawns, left to right. */
  function RowCarts(line: string, y: nat): (cs: seq<Cart>)
    ensures forall c | c in cs ::
              c.position.y == y && c.position.x < |line| &&
              CartOrientation(line[c.position.x]) == Some(c.orientation) && c.nextTurn == Left
    ensures forall x :: 0 <= x < |line| && CartOrientation(line[x]).Some? ==>
              NewCart(Coordinate(y, x), CartOrientation(line[x]).value) in cs
    decreases |line|
  {
    if line == [] then []
    else
      var n := |line| - 1;
      assert forall k :: 0 <= k < n ==> line[..n][k] == line[k];
      var front := RowCarts(line[..n], y);
      match CartOrientation(line[n])
      case Some(o) => front + [NewCart(Coordinate(y, n), o)]
      case None => front
  }

  /** The carts of the whole input, line by line. */
  function GridCarts(lines: seq<string>): (cs: seq<Cart>)
    ensures forall c | c in cs :: c.position.y < |lines| && c in RowCarts(lines[c.position.y], c.position.y)
    ensures forall y, c :: 0 <= y < |lines| && c in RowCarts(lines[y], y) ==> c in cs
    decreases |lines|
  {
    if lines == [] then []
    else
      var n := |lines| - 1;
      assert forall y :: 0 <= y < n ==> lines[..n][y] == lines[y];
      GridCarts(lines[..n]) + RowCarts(lines[n], n)
  }

  /** Every cart the input spawns stands on track running its way. */
  lemma GeneratedCartsOnTrack(lines: seq<string>)
    requires ParseGrid(lines).Some?
    ensures forall c | c in GridCarts(lines) :: OnTrack(ParseGrid(lines).value, c)
  {
    var fields := ParseGrid(lines).value;
    forall c | c in GridCarts(lines) ensures OnTrack(fields, c) {
      var y, x := c.position.y, c.position.x;
      assert ParseRow(lines[y]) == Some(fields[y]);
      ParseRowReads(lines[y]);
      assert FromChar(lines[y][x], LeftOf(fields[y], x)) == Some(fields[y][x]);
    }
  }

  /** One character that is not track spoils the whole line. */
  lemma ParseRowFails(line: string, x: nat)
    requires x < |line| && !IsTrackGlyph(line[x])
    ensures ParseRow(line) == None
  {
  }

  /** Reading one more line extends the grid by that line's row. */
  lemma ParseGridSnoc(lines: seq<string>, line: string, grid: Grid, row: seq<Field>)
    requires ParseGrid(lines) == Some(grid)
    requires ParseRow(line) == Some(row)
    ensures ParseGrid(lines + [line]) == Some(grid + [row])
  {
    assert (lines + [line])[..|lines|] == lines;
  }

  /** Reading one more character spawns a cart exactly when it is a cart
      glyph. */
  lemma RowCartsSnoc(line: string, c: char, y: nat)
    ensures CartOrientation(c).None? ==> RowCarts(line + [c], y) == RowCarts(line, y)
    ensures CartOrientation(c).Some? ==>
              RowCarts(line + [c], y) == RowCarts(line, y) + [NewCart(Coordinate(y, |line|), CartOrientation(c).value)]
  {
    assert (line + [c])[..|line|] == line;
  }

  lemma GridCartsSnoc(lines: seq<string>, line: string)
    ensures GridCarts(lines + [line]) == GridCarts(lines) + RowCarts(line, |lines|)
  {
    assert (lines + [line])[..|lines|] == lines;
  }

  /** One more line read: its row joins the grid and its carts the carts. */
  lemma GenerateStep(lines: seq<string>, y: nat, grid: Grid, row: seq<Field>)
    requires y < |lines| && ParseGrid(lines[..y]) == Some(grid) && ParseRow(lines[y]) == Some(row)
    ensures ParseGrid(lines[..y + 1]) == Some(grid + [row])
    ensures GridCarts(lines[..y + 1]) == GridCarts(lines[..y]) + RowCarts(lines[y], y)
  {
    TakeSnoc(lines, y);
    ParseGridSnoc(lines[..y], lines[y], grid, row);
    GridCartsSnoc(lines[..y], lines[y]);
  }

  /** A cart glyph read at the end of a line spawns one more cart there. */
  method Spawn(spawned: seq<Cart>, line: string, c: char, y: nat) returns (more: seq<Cart>)
    requires spawned == RowCarts(line, y)
    ensures more == RowCarts(line + [c], y)
  {
    RowCartsSnoc(line, c, y);
    var o := CartOrientation(c);
    more := spawned;
    if o.Some? {
      more := more + [NewCart(Coordinate(y, |line|), o.value)];
    }
  }

  /** The closure `generator` maps over one line: each character read in
      the light of the piece before it, and a cart for each cart glyph. */
  method GenerateLine(line: string, y: nat) returns (row: Option<seq<Field>>, spawned: seq<Cart>)
    ensures row == ParseRow(line)
    ensures row.Some? ==> spawned == RowCarts(line, y)
  {
    var fields: seq<Field> := [];
    var last := Empty;
    spawned := [];
    var x := 0;
    while x < |line|
      invariant x <= |line|
      invariant ParseRow(line[..x]) == Some(fields)
      invariant last == LeftOf(fields, x)
      invariant |fields| == x
      invariant spawned == RowCarts(line[..x], y)
    {
      var c := line[x];
      TakeSnoc(line, x);
      spawned := Spawn(spawned, line[..x], c, y);
      var f := FromChar(c, last);
      if f.None? {
        ParseRowFails(line, x);
        return None, spawned;
      }
      ParseRowSnoc(line[..x], c, fields, f.value);
      last := f.value;
      fields := fields + [last];
      x := x + 1;
    }
    assert line[..x] == line;
    return Some(fields), spawned;
  }

  /** `generator`: the track of each line and the carts on it. None is the
      panic on a character that is not track. */
  method Generate(input: string) returns (r: Option<Board>)
    ensures r.None? <==> ParseGrid(Lines(input)).None?
    ensures r.Some? ==> fresh(r.value) && r.value.fields == ParseGrid(Lines(input)).value &&
                        r.value.carts == GridCarts(Lines(input))
  {
    var lines := Lines(input);
    var grid: Grid := [];
    var carts: seq<Cart> := [];
    var y := 0;
    while y < |lines|
      invariant y <= |lines|
      invariant ParseGrid(lines[..y]) == Some(grid)
      invariant carts == GridCarts(lines[..y])
    {
      var row, spawned := GenerateLine(lines[y], y);
      if row.None? {
        return None;
      }
      GenerateStep(lines, y, grid, row.value);
      grid := grid + [row.value];
      carts := carts + spawned;
      y := y + 1;
    }
    assert lines[..y] == lines;
    var board := new Board(grid, carts);
    return Some(board);
  }

  /** `Display for Board`, one cell: the glyph of the first cart standing
      there, or else the glyph of the piece. */
  function CellGlyph(f: Field, carts: seq<Cart>, p: Coordinate): (c: char)
    ensures (exists j :: 0 <= j < |carts| && carts[j].position == p) ==> IsCartGlyph(c)
    ensures (forall j :: 0 <= j < |carts| ==> carts[j].position != p) ==> c == f.Glyph()
  {
    match FindFrom(carts, 0, p, [])
    case Some(j) => CartGlyph(carts[j].orientation)
    case None => f.Glyph()
  }

  /** One row of `Display for Board`. */
  function RenderLine(row: seq<Field>, carts: seq<Cart>, y: nat): (line: string)
    ensures |line| == |row|
    ensures forall x :: 0 <= x < |row| ==> line[x] == CellGlyph(row[x], carts, Coordinate(y, x))
    decreases |row|
  {
    if row == [] then []
    else
      var n := |row| - 1;
      assert forall x :: 0 <= x < n ==> row[..n][x] == row[x];
      RenderLine(row[..n], carts, y) + [CellGlyph(row[n], carts, Coordinate(y, n))]
  }

  function RenderLines(fields: Grid, carts: seq<Cart>): (ls: seq<string>)
    ensures |ls| == |fields|
    ensures forall y :: 0 <= y < |fields| ==> ls[y] == RenderLine(fields[y], carts, y)
    decreases |fields|
  {
    if fields == [] then []
    else
      var n := |fields| - 1;
      assert forall y :: 0 <= y < n ==> fields[..n][y] == fields[y];
      RenderLines(fields[..n], carts) + [RenderLine(fields[n], carts, n)]
  }

  /** `Display for Board`: every row followed by a line feed. */
  function Render(fields: Grid, carts: seq<Cart>): string
  {
    Unlines(RenderLines(fields, carts))
  }

  /** Each curve's glyph can be read back: a curve opens to the west exactly
      when the piece left of it opens to the east. */
  predicate CurvesConsistent(row: seq<Field>)
  {
    forall k :: 0 <= k < |row| ==> CurveConsistentAt(row, k)
  }

  /** The curve at `k`, if any, opens west exactly when its left
      neighbour opens east. */
  predicate CurveConsistentAt(row: seq<Field>, k: nat)
    requires k < |row|
  {
    row[k].IsCurve() ==>
      ((row[k] == NorthWest || row[k] == SouthWest) <==> (k > 0 && row[k - 1].Connects(East)))
  }

  lemma WellFormedCurvesConsistent(fields: Grid, y: nat)
    requires WellFormed(fields) && y < |fields|
    ensures CurvesConsistent(fields[y])
  {
    var row := fields[y];
    forall k | 0 <= k < |row|
      ensures CurveConsistentAt(row, k)
    {
      assert Opens(fields, Coordinate(y, k), West) ==>
               CanAdvance(Coordinate(y, k), West) &&
               At(fields, Advance(Coordinate(y, k), West)).Connects(East);
      if k > 0 {
        assert Opens(fields, Coordinate(y, k - 1), East) ==>
                 At(fields, Advance(Coordinate(y, k - 1), East)).Connects(West);
      }
    }
  }

  /** In a row whose curves are consistent, each piece's glyph reads back as
      that piece. */
  lemma GlyphReadsBack(row: seq<Field>, k: nat)
    requires CurvesConsistent(row) && k < |row|
    ensures FromChar(row[k].Glyph(), LeftOf(row, k)) == Some(row[k])
  {
    assert CurveConsistentAt(row, k);
  }

  /** The glyphs of a row of track with no carts on it. */
  function TrackLine(row: seq<Field>): (line: string)
    ensures |line| == |row|
    ensures forall x :: 0 <= x < |row| ==> line[x] == row[x].Glyph()
    decreases |row|
  {
    if row == [] then []
    else
      var n := |row| - 1;
      assert forall x :: 0 <= x < n ==> row[..n][x] == row[x];
      TrackLine(row[..n]) + [row[n].Glyph()]
  }

  /** A piece's glyph is track, not a cart, and not a line feed. */
  lemma GlyphIsPlainTrack(f: Field)
    ensures IsTrackGlyph(f.Glyph()) && !IsCartGlyph(f.Glyph()) && f.Glyph() != '\n'
  {
  }

  /** A line without cart glyphs spawns no carts. */
  lemma {:induction false} NoCartsWithoutCartGlyphs(line: string, y: nat)
    requires forall x :: 0 <= x < |line| ==> !IsCartGlyph(line[x])
    ensures RowCarts(line, y) == []
    decreases |line|
  {
    if line != [] {
      var n := |line| - 1;
      assert forall x :: 0 <= x < n ==> line[..n][x] == line[x];
      NoCartsWithoutCartGlyphs(line[..n], y);
    }
  }

  lemma {:induction false} RenderLineWithoutCarts(row: seq<Field>, y: nat)
    ensures RenderLine(row, [], y) == TrackLine(row)
    decreases |row|
  {
    if row != [] {
      RenderLineWithoutCarts(row[..|row| - 1], y);
    }
  }

  lemma CurvesConsistentPrefix(row: seq<Field>, n: nat)
    requires CurvesConsistent(row) && n <= |row|
    ensures CurvesConsistent(row[..n])
  {
    var front := row[..n];
    forall k | 0 <= k < n
      ensures CurveConsistentAt(front, k)
    {
      assert CurveConsistentAt(row, k);
      assert front[k] == row[k];
      if k > 0 {
        assert front[k - 1] == row[k - 1];
      }
    }
  }

  /** Reading one more character extends the parsed row by one piece. */
  /** A parsed row is the parsed front with the last piece after it, that
      piece read in the light of the one before it. */
  lemma ParseRowLast(line: string)
    requires line != [] && ParseRow(line).Some?
    ensures var n := |line| - 1;
      ParseRow(line[..n]).Some? &&
      ParseRow(line).value == ParseRow(line[..n]).value + [ParseRow(line).value[n]] &&
      FromChar(line[n], LeftOf(ParseRow(line[..n]).value, n)) == Some(ParseRow(line).value[n])
  {
  }

  lemma ParseRowSnoc(line: string, c: char, front: seq<Field>, f: Field)
    requires ParseRow(line) == Some(front)
    requires FromChar(c, LeftOf(front, |line|)) == Some(f)
    ensures ParseRow(line + [c]) == Some(front + [f])
  {
    assert (line + [c])[..|line|] == line;
  }

  lemma {:induction false} RowRoundTrip(row: seq<Field>)
    requires CurvesConsistent(row)
    ensures ParseRow(TrackLine(row)) == Some(row)
    decreases |row|
  {
    if row != [] {
      CurvesConsistentPrefix(row, |row| - 1);
      RowRoundTrip(row[..|row| - 1]);
      GlyphReadsBack(row, |row| - 1);
      RowRoundTripStep(row);
    }
  }

  /** The last piece of a row reads back once the rest does and its glyph
      reads back after its left neighbour. */
  lemma RowRoundTripStep(row: seq<Field>)
    requires row != []
    requires ParseRow(TrackLine(row[..|row| - 1])) == Some(row[..|row| - 1])
    requires FromChar(row[|row| - 1].Glyph(), LeftOf(row, |row| - 1)) == Some(row[|row| - 1])
    ensures ParseRow(TrackLine(row)) == Some(row)
  {
    var n := |row| - 1;
    var front := row[..n];
    var line := TrackLine(front);
    assert TrackLine(row) == line + [row[n].Glyph()];
    assert LeftOf(front, n) == LeftOf(row, n);
    ParseRowSnoc(line, row[n].Glyph(), front, row[n]);
    SplitLast(row);
  }

  /** The glyphs of a row with consistent curves read back as the row,
      spawn no carts and hold no line feed. */
  lemma TrackLineReadsBack(row: seq<Field>, y: nat)
    requires CurvesConsistent(row)
    ensures ParseRow(TrackLine(row)) == Some(row)
    ensures RowCarts(TrackLine(row), y) == []
    ensures '\n' !in TrackLine(row)
  {
    RowRoundTrip(row);
    var line := TrackLine(row);
    forall x | 0 <= x < |line| ensures !IsCartGlyph(line[x]) && line[x] != '\n' {
      GlyphIsPlainTrack(row[x]);
    }
    NoCartsWithoutCartGlyphs(line, y);
  }

  /** A rendered row without carts reads back as the row, with no carts. */
  lemma RenderedRow(fields: Grid, y: nat)
    requires WellFormed(fields) && y < |fields|
    ensures ParseRow(RenderLine(fields[y], [], y)) == Some(fields[y])
    ensures RowCarts(RenderLine(fields[y], [], y), y) == []
    ensures '\n' !in RenderLine(fields[y], [], y)
  {
    WellFormedCurvesConsistent(fields, y);
    RenderLineWithoutCarts(fields[y], y);
    TrackLineReadsBack(fields[y], y);
  }

  lemma {:induction false} NoGridCarts(rows: seq<string>)
    requires forall y :: 0 <= y < |rows| ==> RowCarts(rows[y], y) == []
    ensures GridCarts(rows) == []
    decreases |rows|
  {
    if rows != [] {
      var n := |rows| - 1;
      assert forall y :: 0 <= y < n ==> rows[..n][y] == rows[y];
      NoGridCarts(rows[..n]);
    }
  }

  /** Lines that each read back as the matching row, with no carts, read
      back as the grid. */
  lemma LinesReadBack(rows: seq<string>, fields: Grid)
    requires |rows| == |fields|
    requires forall y :: 0 <= y < |rows| ==> ParseRow(rows[y]) == Some(fields[y]) && RowCarts(rows[y], y) == []
    ensures ParseGrid(rows) == Some(fields)
    ensures GridCarts(rows) == []
  {
    var grid := ParseGrid(rows).value;
    assert grid == fields;
    NoGridCarts(rows);
  }

  /** Parsing the rendering of well-formed track with no carts gives the
      track back, and no carts. */
  lemma RenderRoundTrip(fields: Grid)
    requires WellFormed(fields)
    ensures ParseGrid(Lines(Render(fields, []))) == Some(fields)
    ensures GridCarts(Lines(Render(fields, []))) == []
  {
    var rows := RenderLines(fields, []);
    forall y | 0 <= y < |rows|
      ensures ParseRow(rows[y]) == Some(fields[y]) && RowCarts(rows[y], y) == []
      ensures '\n' !in rows[y]
    {
      RenderedRow(fields, y);
    }
    LinesRoundTrip(rows);
    LinesReadBack(rows, fields);
  }

  // ---------------------------------------------------------------------
  // The two parts

  /** What one pass of a part's `loop` decides: return an answer (or
      panic, `Return(None)`), or go on with the carts the tick left. */
  datatype Round = Return(answer: Option<Coordinate>) | Go(carts: seq<Cart>)

  /** At most `fuel` passes of a `loop` whose pass is `round`. */
  function Loop(round: seq<Cart> -> Round, carts: seq<Cart>, fuel: nat): (r: Option<Coordinate>)
    ensures fuel == 0 ==> r.None?
    decreases fuel
  {
    if fuel == 0 then None
    else match round(carts)
      case Return(a) => a
      case Go(cs) => Loop(round, cs, fuel - 1)
  }

  /** More passes do not change an answer already found. */
  lemma {:induction false} LoopFuel(round: seq<Cart> -> Round, carts: seq<Cart>, fuel: nat, more: nat)
    requires fuel <= more && Loop(round, carts, fuel).Some?
    ensures Loop(round, carts, more) == Loop(round, carts, fuel)
    decreases fuel
  {
    if round(carts).Go? {
      LoopFuel(round, round(carts).carts, fuel - 1, more - 1);
    }
  }

  /** A pass that leaves the carts as they are and goes on never gives an
      answer, however many passes are allowed. */
  lemma {:induction false} LoopStuck(round: seq<Cart> -> Round, carts: seq<Cart>, fuel: nat)
    requires round(carts) == Go(carts)
    ensures Loop(round, carts, fuel) == None
    decreases fuel
  {
    if fuel > 0 {
      LoopStuck(round, carts, fuel - 1);
    }
  }

  /** One pass of `solve_part1`: `step(false)` returns a collision, panics,
      or leaves the moved carts. */
  function CrashRound(fields: Grid, carts: seq<Cart>): (r: Round)
    ensures carts == [] ==> r == Go([])
  {
    match Tick(fields, carts, false, false)
    case Crash(p) => Return(Some(p))
    case Done(cs) => Go(cs)
    case Fault => Return(None)
  }

  /** `solve_part1` with at most `fuel` ticks: the first collision. */
  function CrashAfter(fields: Grid, carts: seq<Cart>, fuel: nat): (r: Option<Coordinate>)
    ensures r.Some? ==> |carts| >= 1
  {
    var round := cs => CrashRound(fields, cs);
    if carts == [] then LoopStuck(round, carts, fuel); Loop(round, carts, fuel)
    else Loop(round, carts, fuel)
  }

  /** More fuel does not change a collision already found. */
  lemma CrashAfterFuel(fields: Grid, carts: seq<Cart>, fuel: nat, more: nat)
    requires fuel <= more && CrashAfter(fields, carts, fuel).Some?
    ensures CrashAfter(fields, carts, more) == CrashAfter(fields, carts, fuel)
  {
    LoopFuel(cs => CrashRound(fields, cs), carts, fuel, more);
  }

  /** One tick of the first part's search. */
  lemma CrashAfterStep(fields: Grid, carts: seq<Cart>, fuel: nat, t: TickResult, after: seq<Cart>)
    requires fuel > 0 && t == Tick(fields, carts, false, false) && (t.Done? ==> after == t.carts)
    ensures t.Crash? ==> CrashAfter(fields, carts, fuel) == Some(t.at)
    ensures t.Fault? ==> CrashAfter(fields, carts, fuel) == None
    ensures t.Done? ==> CrashAfter(fields, carts, fuel) == CrashAfter(fields, after, fuel - 1)
  {
    assert CrashRound(fields, carts) == match t case Crash(p) => Return(Some(p)) case Done(cs) => Go(cs) case Fault => Return(None);
  }

  method SolvePart1(fields: Grid, carts: seq<Cart>, fuel: nat) returns (r: Option<Coordinate>)
    ensures r == CrashAfter(fields, carts, fuel)
  {
    var board := new Board(fields, carts);
    var left := fuel;
    while left > 0
      invariant board.fields == fields
      invariant CrashAfter(fields, board.carts, left) == CrashAfter(fields, carts, fuel)
    {
      ghost var before := board.carts;
      var t := board.Step(false);
      CrashAfterStep(fields, before, left, t, board.carts);
      if !t.Done? {
        return if t.Crash? then Some(t.at) else None;
      }
      left := left - 1;
    }
    return None;
  }

  /** One pass of `solve_part2`: `step(true)` with the tick as written
      (`liveOnly` false) or corrected; exactly one cart left is the answer,
      a panic stops with none, and otherwise the loop goes on. */
  function LastRound(fields: Grid, liveOnly: bool, carts: seq<Cart>): (r: Round)
    ensures carts == [] ==> r == Go([])
  {
    match Tick(fields, carts, true, liveOnly)
    case Done(cs) => if |cs| == 1 then Return(Some(cs[0].position)) else Go(cs)
    case _ => Return(None)
  }

  /** `solve_part2` with at most `fuel` ticks: the last cart's position. */
  function LastCartAfter(fields: Grid, carts: seq<Cart>, liveOnly: bool, fuel: nat): (r: Option<Coordinate>)
    ensures r.Some? ==> |carts| >= 1
  {
    var round := cs => LastRound(fields, liveOnly, cs);
    if carts == [] then LoopStuck(round, carts, fuel); Loop(round, carts, fuel)
    else Loop(round, carts, fuel)
  }

  /** More fuel does not change a last cart already found. */
  lemma LastCartAfterFuel(fields: Grid, carts: seq<Cart>, liveOnly: bool, fuel: nat, more: nat)
    requires fuel <= more && LastCartAfter(fields, carts, liveOnly, fuel).Some?
    ensures LastCartAfter(fields, carts, liveOnly, more) == LastCartAfter(fields, carts, liveOnly, fuel)
  {
    LoopFuel(cs => LastRound(fields, liveOnly, cs), carts, fuel, more);
  }

  /** One tick of the second part's search. */
  lemma LastCartAfterStep(fields: Grid, carts: seq<Cart>, liveOnly: bool, fuel: nat, t: TickResult, after: seq<Cart>)
    requires fuel > 0 && t == Tick(fields, carts, true, liveOnly) && (t.Done? ==> after == t.carts)
    ensures !t.Done? ==> LastCartAfter(fields, carts, liveOnly, fuel) == None
    ensures t.Done? && |after| == 1 ==> LastCartAfter(fields, carts, liveOnly, fuel) == Some(after[0].position)
    ensures t.Done? && |after| != 1 ==>
              LastCartAfter(fields, carts, liveOnly, fuel) == LastCartAfter(fields, after, liveOnly, fuel - 1)
  {
    assert LastRound(fields, liveOnly, carts) ==
           if t.Done? then (if |after| == 1 then Return(Some(after[0].position)) else Go(after)) else Return(None);
  }

  /** `solve_part2` as written, with `step(true)` of the source. */
  method SolvePart2(fields: Grid, carts: seq<Cart>, fuel: nat) returns (r: Option<Coordinate>)
    ensures r == LastCartAfter(fields, carts, false, fuel)
  {
    var board := new Board(fields, carts);
    var left := fuel;
    while left > 0
      invariant board.fields == fields
      invariant LastCartAfter(fields, board.carts, false, left) == LastCartAfter(fields, carts, false, fuel)
    {
      ghost var before := board.carts;
      var t := board.Step(true);
      LastCartAfterStep(fields, before, false, left, t, board.carts);
      if !t.Done? {
        return None;
      }
      if |board.carts| == 1 {
        return Some(board.carts[0].position);
      }
      left := left - 1;
    }
    return None;
  }

  /** `solve_part2` with the corrected tick. */
  method SolvePart2Corrected(fields: Grid, carts: seq<Cart>, fuel: nat) returns (r: Option<Coordinate>)
    ensures r == LastCartAfter(fields, carts, true, fuel)
  {
    var board := new Board(fields, carts);
    var left := fuel;
    while left > 0
      invariant board.fields == fields
      invariant LastCartAfter(fields, board.carts, true, left) == LastCartAfter(fields, carts, true, fuel)
    {
      ghost var before := board.carts;
      var t := board.StepCorrected(true);
      LastCartAfterStep(fields, before, true, left, t, board.carts);
      if !t.Done? {
        return None;
      }
      if |board.carts| == 1 {
        return Some(board.carts[0].position);
      }
      left := left - 1;
    }
    return None;
  }

  /** The crossing example under part 2: as written, the first tick
      leaves no cart and the search never answers. */
  lemma SkiplistPart2AsWritten(fuel: nat)
    ensures LastCartAfter(SkiplistGrid, SkiplistCarts, false, fuel) == None
  {
    if fuel > 0 {
      SkiplistAsWritten();
      LastCartAfterStep(SkiplistGrid, SkiplistCarts, false, fuel, Done([]), []);
    }
  }

  /** Corrected, the first tick leaves one cart, which is the answer. */
  lemma SkiplistPart2Corrected(fuel: nat)
    requires fuel > 0
    ensures LastCartAfter(SkiplistGrid, SkiplistCarts, true, fuel) == Some(Coordinate(1, 2))
  {
    SkiplistCorrected();
    var t := Tick(SkiplistGrid, SkiplistCarts, true, true);
    LastCartAfterStep(SkiplistGrid, SkiplistCarts, true, fuel, t, t.carts);
  }

  const StraightGrid: Grid := [[EastWest, EastWest, EastWest, EastWest]]

  /** The first cart of `>--<` moves one step east. */
  lemma HeadOnFirstMove()
    ensures TickFrom(StraightGrid, [NewCart(Coordinate(0, 0), East), NewCart(Coordinate(0, 3), West)], false, false, 0, [], []) ==
            TickFrom(StraightGrid, [NewCart(Coordinate(0, 0), East), NewCart(Coordinate(0, 3), West)], false, false, 1, [NewCart(Coordinate(0, 1), East)], [])
  {
    var c0 := [NewCart(Coordinate(0, 0), East), NewCart(Coordinate(0, 3), West)];
    var a := NewCart(Coordinate(0, 1), East);
    assert MoveCart(c0[0], StraightGrid) == Some(a);
    assert FindFrom([], 0, a.position, []) == None;
    assert FindFrom(c0, 1, a.position, []) == None;
  }

  /** The second cart of `>--<` moves one step west. */
  lemma HeadOnSecondMove()
    ensures TickFrom(StraightGrid, [NewCart(Coordinate(0, 0), East), NewCart(Coordinate(0, 3), West)], false, false, 1, [NewCart(Coordinate(0, 1), East)], []) ==
            Done([NewCart(Coordinate(0, 1), East), NewCart(Coordinate(0, 2), West)])
  {
    var c0 := [NewCart(Coordinate(0, 0), East), NewCart(Coordinate(0, 3), West)];
    var a := NewCart(Coordinate(0, 1), East);
    var b := NewCart(Coordinate(0, 2), West);
    assert MoveCart(c0[1], StraightGrid) == Some(b);
    assert FindFrom([a], 0, b.position, []) == None;
    assert FindFrom(c0, 2, b.position, []) == None;
  }

  /** In the first tick of `>--<` each cart moves one step inward. */
  lemma HeadOnFirstTick()
    ensures Tick(StraightGrid, [NewCart(Coordinate(0, 0), East), NewCart(Coordinate(0, 3), West)], false, false) ==
            Done([NewCart(Coordinate(0, 1), East), NewCart(Coordinate(0, 2), West)])
  {
    var c0 := [NewCart(Coordinate(0, 0), East), NewCart(Coordinate(0, 3), West)];
    assert SortedBy(c0, CartLe);
    SortBySortedIsIdentity(c0, CartLe);
    HeadOnFirstMove();
    HeadOnSecondMove();
  }

  /** In the second tick the first cart runs into the second, which has not
      moved yet. */
  lemma HeadOnSecondTick()
    ensures Tick(StraightGrid, [NewCart(Coordinate(0, 1), East), NewCart(Coordinate(0, 2), West)], false, false) ==
            Crash(Coordinate(0, 2))
  {
    var c1 := [NewCart(Coordinate(0, 1), East), NewCart(Coordinate(0, 2), West)];
    assert SortedBy(c1, CartLe);
    SortBySortedIsIdentity(c1, CartLe);
    assert MoveCart(c1[0], StraightGrid) == Some(NewCart(Coordinate(0, 2), East));
    assert FindFrom([], 0, Coordinate(0, 2), []) == None;
    assert FindFrom(c1, 1, Coordinate(0, 2), []) == Some(1);
  }

  /** The head-on pair `>--<` meets in the middle in the second tick. */
  lemma HeadOnCrash()
    ensures CrashAfter(StraightGrid, [NewCart(Coordinate(0, 0), East), NewCart(Coordinate(0, 3), West)], 2)
            == Some(Coordinate(0, 2))
  {
    var c0 := [NewCart(Coordinate(0, 0), East), NewCart(Coordinate(0, 3), West)];
    var c1 := [NewCart(Coordinate(0, 1), East), NewCart(Coordinate(0, 2), West)];
    HeadOnFirstTick();
    HeadOnSecondTick();
    CrashAfterStep(StraightGrid, c0, 2, Done(c1), c1);
    CrashAfterStep(StraightGrid, c1, 1, Crash(Coordinate(0, 2)), []);
  }
}
