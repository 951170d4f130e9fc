/** Day 9: the marble game. Players take turns placing marbles numbered
    3, 4, ... into a ring held in a vector. An ordinary marble goes in two
    places clockwise of the current one; a marble divisible by 23 is kept
    instead, together with the marble seven places counter-clockwise, and
    the player scores both. */
module Day09 {
  import opened Common

  /** The game after some marble: the ring, the index of the current
      marble, the player who placed it, and every player's score. */
  datatype Game = Game(ring: seq<int>, current: nat, player: nat, scores: seq<int>)

  /** 0 + 1 + ... + n: the values of all marbles up to `n`. */
  function Triangle(n: nat): nat
  {
    if n == 0 then 0 else Triangle(n - 1) + n
  }

  predicate Distinct(s: seq<int>)
  {
    forall i, j :: 0 <= i < j < |s| ==> s[i] != s[j]
  }

  /** The game after marble `last`: the current index is on the ring or
      just past its end (where a removal at the end leaves it, and where
      the arithmetic of the next turn treats it as index 0), the ring holds distinct marbles none
      above `last`, its length is what the marbles placed and removed so far
      leave, and every marble is either on the ring or counted in a score. */
  ghost predicate Valid(g: Game, players: nat, last: nat)
  {
    Shape(g, players, last) &&
    g.current <= |g.ring| &&
    Distinct(g.ring) &&
    (forall k :: 0 <= k < |g.ring| ==> 0 <= g.ring[k] <= last) &&
    (forall k :: 0 <= k < |g.scores| ==> g.scores[k] >= 0) &&
    Sum(g.ring) + Sum(g.scores) == Triangle(last)
  }

  /** The lengths of the game after marble `last`: one score per player,
      and the ring `RingSize(last)` long. */
  ghost predicate Shape(g: Game, players: nat, last: nat)
  {
    players > 0 && |g.scores| == players && |g.ring| == RingSize(last)
  }

  /** The number of marbles on the ring after marble `last`: three at the
      start, one more for each ordinary marble, one fewer for each multiple
      of 23 (which leaves the ring together with another marble). */
  ghost function RingSize(last: nat): int
  {
    if last <= 2 then 3 else if last % 23 == 0 then RingSize(last - 1) - 1 else RingSize(last - 1) + 1
  }

  /** The ring after marble `last` holds `last + 1` marbles less the two
      that leave at each multiple of 23. */
  lemma {:induction false} RingSizeIs(last: nat)
    requires last >= 2
    ensures RingSize(last) == last + 1 - 2 * (last / 23)
  {
    if last > 2 {
      RingSizeIs(last - 1);
      assert last / 23 == (last - 1) / 23 + (if last % 23 == 0 then 1 else 0);
    }
  }

  /** The board `solve_part1_impl` starts from: marbles 0, 2, 1 with the
      marble at index 1 current and player 1 (0-based) as the last to
      move. */
  function Start(players: nat): (g: Game)
    requires players > 0
    ensures Shape(g, players, 2)
  {
    Game([0, 2, 1], 1, 1, Zeros(players))
  }

  /** The start is valid: marbles 0, 1 and 2 are all on the ring. */
  lemma StartValid(players: nat)
    requires players > 0
    ensures Valid(Start(players), players, 2)
  {
    ZerosSum(players);
    assert Sum([0, 2, 1]) == 3 by {
      assert [0, 2, 1][..2] == [0, 2] && [0, 2][..1] == [0] && [0][..0] == [];
    }
  }

  function Zeros(n: nat): (s: seq<int>)
    ensures |s| == n && forall k :: 0 <= k < n ==> s[k] == 0
  {
    if n == 0 then [] else Zeros(n - 1) + [0]
  }

  lemma {:induction false} ZerosSum(n: nat)
    ensures Sum(Zeros(n)) == 0
  {
    if n > 0 {
      ZerosSum(n - 1);
      assert Zeros(n)[..n - 1] == Zeros(n - 1);
    }
  }

  /** The player after `player`. */
  function NextPlayer(player: nat, players: nat): nat
    requires players > 0
  {
    (player + 1) % players
  }

  /** One turn: the next player places marble `value`. */
  function Place(g: Game, value: nat, players: nat): (h: Game)
    requires value >= 3 && Shape(g, players, value - 1)
    ensures Shape(h, players, value)
  {
    RingLength(value);
    if value % 23 != 0 then Ordinary(g, value, players) else Multiple(g, value, players)
  }

  /** A turn keeps the game valid: the marbles stay distinct and bounded,
      and none is lost between the ring and the scores. */
  lemma PlaceValid(g: Game, value: nat, players: nat)
    requires value >= 3 && Valid(g, players, value - 1)
    ensures Valid(Place(g, value, players), players, value)
  {
    RingLength(value);
    if value % 23 != 0 {
      PlaceKeepsValid(g, value, players, (g.current + 2) % |g.ring|, Ordinary(g, value, players).ring);
    } else {
      var h := Multiple(g, value, players);
      TakeKeepsValid(g, value, players, h.current, h.player, h.ring, h.scores);
    }
  }

  /** An ordinary marble goes between the marbles one and two places
      clockwise of the current one, and becomes current. */
  function Ordinary(g: Game, value: nat, players: nat): Game
    requires players > 0 && |g.ring| > 0
  {
    var current := (g.current + 2) % |g.ring|;
    Game(g.ring[..current] + [value] + g.ring[current..], current, NextPlayer(g.player, players), g.scores)
  }

  /** A multiple of 23 is kept, with the marble seven places
      counter-clockwise, which leaves the ring; the marble after it becomes
      current. */
  function Multiple(g: Game, value: nat, players: nat): Game
    requires players > 0 && |g.ring| >= 7 && |g.scores| == players
  {
    var player := NextPlayer(g.player, players);
    var current := (g.current + |g.ring| - 7) % |g.ring|;
    Game(g.ring[..current] + g.ring[current + 1..], current, player,
         g.scores[player := g.scores[player] + value + g.ring[current]])
  }

  /** What a turn does: an ordinary marble goes on the ring and becomes
      current; a multiple of 23 leaves the ring unchanged but for one marble
      removed, which is scored together with the marble played. */
  lemma PlaceEffect(g: Game, value: nat, players: nat)
    requires value >= 3 && Shape(g, players, value - 1)
    ensures var h := Place(g, value, players);
            h.player == NextPlayer(g.player, players) &&
            (value % 23 != 0 ==>
               h.current < |h.ring| && h.ring[h.current] == value && h.scores == g.scores &&
               h.ring == g.ring[..h.current] + [value] + g.ring[h.current..]) &&
            (value % 23 == 0 ==>
               h.current < |g.ring| && h.ring == g.ring[..h.current] + g.ring[h.current + 1..] &&
               h.scores == g.scores[h.player := g.scores[h.player] + value + g.ring[h.current]])
  {
    RingLength(value);
  }

  /** Before marble `value` the ring holds at least three marbles, and at
      least 23 before a multiple of 23 is placed. */
  lemma RingLength(value: nat)
    requires value >= 3
    ensures RingSize(value - 1) >= 3
    ensures value % 23 == 0 ==> RingSize(value - 1) >= 23
  {
    RingSizeFloor(value - 1);
    assert value / 23 == (value - 1) / 23 + (if value % 23 == 0 then 1 else 0);
  }

  /** Within each run of 23 marbles the ring only grows. */
  lemma {:induction false} RingSizeFloor(last: nat)
    requires last >= 2
    ensures RingSize(last) >= 3 && RingSize(last) >= last % 23 + 1
  {
    if last > 2 {
      RingSizeFloor(last - 1);
      assert last / 23 == (last - 1) / 23 + (if last % 23 == 0 then 1 else 0);
    }
  }

  lemma PlaceKeepsValid(g: Game, value: nat, players: nat, current: nat, ring: seq<int>)
    requires value >= 3 && value % 23 != 0 && Valid(g, players, value - 1)
    requires current <= |g.ring| && ring == g.ring[..current] + [value] + g.ring[current..]
    ensures Valid(Game(ring, current, NextPlayer(g.player, players), g.scores), players, value)
  {
    SumInsert(g.ring, current, value);
    InsertFresh(g.ring, current, value);
  }

  /** Inserting a value larger than every marble keeps the marbles
      distinct and bounded by the new value. */
  lemma InsertFresh(s: seq<int>, at: nat, x: int)
    requires at <= |s| && 0 <= x && Distinct(s) && forall k :: 0 <= k < |s| ==> 0 <= s[k] < x
    ensures Distinct(s[..at] + [x] + s[at..])
    ensures forall k :: 0 <= k <= |s| ==> 0 <= (s[..at] + [x] + s[at..])[k] <= x
  {
    var t := s[..at] + [x] + s[at..];
    assert t[at] == x;
    forall i, j | 0 <= i < j < |t| ensures t[i] != t[j] {
      if i < at {
        assert t[i] == s[i];
        if j > at {
          assert t[j] == s[j - 1] && s[i] != s[j - 1];
        }
      } else if i > at {
        assert t[i] == s[i - 1] && t[j] == s[j - 1] && s[i - 1] != s[j - 1];
      } else {
        assert t[j] == s[j - 1];
      }
    }
    forall k | 0 <= k < |t| ensures 0 <= t[k] <= x {
      if k < at {
        assert t[k] == s[k];
      } else if k > at {
        assert t[k] == s[k - 1];
      }
    }
  }

  lemma TakeKeepsValid(g: Game, value: nat, players: nat, current: nat, player: nat,
                       ring: seq<int>, scores: seq<int>)
    requires value >= 3 && value % 23 == 0 && Valid(g, players, value - 1)
    requires current < |g.ring| && ring == g.ring[..current] + g.ring[current + 1..]
    requires player == NextPlayer(g.player, players)
    requires scores == g.scores[player := g.scores[player] + value + g.ring[current]]
    ensures Valid(Game(ring, current, player, scores), players, value)
  {
    RingLength(value);
    SumRemove(g.ring, current);
    SumUpdate(g.scores, player, value + g.ring[current]);
    RemoveKeeps(g.ring, current, value);
  }

  /** Taking a marble off the ring keeps the others distinct and bounded. */
  lemma RemoveKeeps(s: seq<int>, at: nat, bound: int)
    requires at < |s| && Distinct(s) && forall k :: 0 <= k < |s| ==> 0 <= s[k] <= bound
    ensures var t := s[..at] + s[at + 1..];
      Distinct(t) && forall k :: 0 <= k < |t| ==> 0 <= t[k] <= bound
  {
    var t := s[..at] + s[at + 1..];
    forall k | 0 <= k < |t| ensures t[k] == s[if k < at then k else k + 1] {
    }
    forall i, j | 0 <= i < j < |t| ensures t[i] != t[j] {
      assert t[i] == s[if i < at then i else i + 1] && t[j] == s[if j < at then j else j + 1];
    }
  }

  /** The game after every marble up to `last` is placed (the start when
      `last` is 2 or less: the loop `3..=last` is then empty). */
  function Play(players: nat, last: nat): (g: Game)
    requires players > 0
    ensures Shape(g, players, if last < 2 then 2 else last)
  {
    if last <= 2 then Start(players) else Place(Play(players, last - 1), last, players)
  }

  /** Every game reached by play is valid. */
  lemma {:induction false} PlayValid(players: nat, last: nat)
    requires players > 0
    ensures Valid(Play(players, last), players, if last < 2 then 2 else last)
  {
    if last > 2 {
      PlayValid(players, last - 1);
      PlaceValid(Play(players, last - 1), last, players);
    } else {
      StartValid(players);
    }
  }

  lemma PlayNext(players: nat, last: nat)
    requires players > 0 && last >= 2
    ensures Play(players, last + 1) == Place(Play(players, last), last + 1, players)
  {
  }

  lemma PlayStart(players: nat, last: nat)
    requires players > 0 && last <= 2
    ensures Play(players, last) == Play(players, 2)
  {
  }

  /** The result of `solve_part1_impl`: the best score. None is the panic
      with no players (the `% players` of the first turn, or `unwrap` on the
      maximum of no scores). */
  function HighScore(players: nat, highest: nat): (r: Option<int>)
    ensures r.Some? <==> players > 0
    ensures r.Some? ==> r.value in Play(players, highest).scores &&
                        forall k :: 0 <= k < players ==> Play(players, highest).scores[k] <= r.value
  {
    if players == 0 then None else Some(Max(Play(players, highest).scores))
  }

  /** No player scores more than all the marbles are worth. */
  lemma {:induction false} HighScoreBound(players: nat, highest: nat)
    requires players > 0
    ensures 0 <= HighScore(players, highest).value <= Triangle(if highest < 2 then 2 else highest)
  {
    var g := Play(players, highest);
    PlayValid(players, highest);
    var best := HighScore(players, highest).value;
    var k :| 0 <= k < players && g.scores[k] == best;
    SumNonNegative(g.ring);
    ScoreAtMostSum(g.scores, k);
  }

  /** A non-negative element is at most the sum. */
  lemma {:induction false} ScoreAtMostSum(s: seq<int>, k: nat)
    requires k < |s| && forall i :: 0 <= i < |s| ==> s[i] >= 0
    ensures 0 <= s[k] <= Sum(s)
  {
    assert s == s[..k] + [s[k]] + s[k + 1..];
    SumAppend(s[..k] + [s[k]], s[k + 1..]);
    SumAppend(s[..k], [s[k]]);
    SumNonNegative(s[..k]);
    SumNonNegative(s[k + 1..]);
  }

  /** One pass of the loop of `solve_part1_impl`: `insert` two places
      clockwise, or, on a multiple of 23, `remove` seven places
      counter-clockwise and score both marbles. */
  method Turn(ring: seq<int>, current: nat, player: nat, scores: seq<int>, value: nat, players: nat)
    returns (ring': seq<int>, current': nat, player': nat, scores': seq<int>)
    requires value >= 3 && Shape(Game(ring, current, player, scores), players, value - 1)
    ensures Game(ring', current', player', scores') == Place(Game(ring, current, player, scores), value, players)
  {
    ghost var g := Game(ring, current, player, scores);
    player' := NextPlayer(player, players);
    if value % 23 != 0 {
      RingLength(value);
      current' := (current + 2) % |ring|;
      ring' := ring[..current'] + [value] + ring[current'..];
      scores' := scores;
    } else {
      RingLength(value);
      current' := (current + |ring| - 7) % |ring|;
      scores' := scores[player' := scores[player'] + value];
      scores' := scores'[player' := scores'[player'] + ring[current']];
      assert scores' == scores[player' := scores[player'] + value + ring[current']];
      ring' := ring[..current'] + ring[current' + 1..];
    }
  }

  /** `solve_part1_impl`: the game on a vector, with `insert` and `remove`
      at the current index. */
  method SolvePart1Impl(players: nat, highest: nat) returns (r: Option<int>)
    ensures r == HighScore(players, highest)
  {
    if players == 0 {
      return None;
    }
    var ring, current, player, scores := PlayGame(players, highest);
    return Some(Max(scores));
  }

  /** The turn loop of `solve_part1_impl`, from the first two marbles to
      the last one. */
  method PlayGame(players: nat, highest: nat) returns (ring: seq<int>, current: nat, player: nat, scores: seq<int>)
    requires players > 0
    ensures Game(ring, current, player, scores) == Play(players, highest)
  {
    ring, current, player, scores := [0, 2, 1], 1, 1, Zeros(players);
    PlayTwo(players);
    if highest >= 2 {
      ring, current, player, scores := PlayFrom(ring, current, player, scores, 2, highest, players);
    } else {
      PlayStart(players, highest);
    }
  }

  /** The turns for marbles `start + 1` to `highest`, in order. */
  method PlayFrom(ring0: seq<int>, current0: nat, player0: nat, scores0: seq<int>, start: nat, highest: nat, players: nat)
    returns (ring: seq<int>, current: nat, player: nat, scores: seq<int>)
    requires players > 0 && start >= 2 && highest >= start
    requires Game(ring0, current0, player0, scores0) == Play(players, start)
    ensures Game(ring, current, player, scores) == Play(players, highest)
  {
    ring, current, player, scores := ring0, current0, player0, scores0;
    var last := start;
    while last < highest
      invariant last <= highest
      invariant Game(ring, current, player, scores) == Play(players, last)
    {
      ring, current, player, scores := PlayTurn(ring, current, player, scores, last, players);
      last := last + 1;
    }
  }

  lemma PlayTwo(players: nat)
    requires players > 0
    ensures Play(players, 2) == Game([0, 2, 1], 1, 1, Zeros(players))
  {
  }

  /** The turn that places marble `last + 1`. */
  method PlayTurn(ring: seq<int>, current: nat, player: nat, scores: seq<int>, last: nat, players: nat)
    returns (ring': seq<int>, current': nat, player': nat, scores': seq<int>)
    requires players > 0 && last >= 2 && Game(ring, current, player, scores) == Play(players, last)
    ensures Game(ring', current', player', scores') == Play(players, last + 1)
  {
    PlayNext(players, last);
    ring', current', player', scores' := Turn(ring, current, player, scores, last + 1, players);
  }

}
