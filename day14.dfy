/** Day 14: two elves extend a scoreboard of recipe scores. Each round the
    digits of the sum of their current recipes are appended, and each elf
    moves forward by one plus the score of its recipe, wrapping around. */
module Day14 {
  import opened Common
  import opened Text

  predicate IsDigitSeq(s: seq<int>)
  {
    forall k :: 0 <= k < |s| ==> 0 <= s[k] <= 9
  }

  /** The recipes a round appends: the decimal digits of the sum of the two
      scores, the tens digit only when there is one. */
  function NewRecipes(a: int, b: int): (r: seq<int>)
    requires 0 <= a <= 9 && 0 <= b <= 9
    ensures IsDigitSeq(r)
    ensures |r| == 2 <==> a + b >= 10
    ensures |r| == 1 || |r| == 2
    ensures (if |r| == 2 then 10 * r[0] + r[1] else r[0]) == a + b
  {
    var sum := a + b;
    if sum / 10 > 0 then [sum / 10, sum % 10] else [sum % 10]
  }

  /** The state of `State`: the recipes and the index of each elf's
      current recipe. */
  datatype Scoreboard = Scoreboard(recipes: seq<int>, first: nat, second: nat)

  /** Every score is a digit and both elves point into the scoreboard. */
  predicate Valid(s: Scoreboard)
  {
    |s.recipes| >= 2 && IsDigitSeq(s.recipes) && s.first < |s.recipes| && s.second < |s.recipes|
  }

  /** `State::new`. */
  const Initial: Scoreboard := Scoreboard([3, 7], 0, 1)

  /** One round of `State::step`: the old recipes stay in place, one or two
      digits are appended, and the elves stay on the board. */
  function Next(s: Scoreboard): (t: Scoreboard)
    requires Valid(s)
    ensures Valid(t)
    ensures t.recipes == s.recipes + NewRecipes(s.recipes[s.first], s.recipes[s.second])
  {
    var a, b := s.recipes[s.first], s.recipes[s.second];
    var recipes := s.recipes + NewRecipes(a, b);
    Scoreboard(recipes, (s.first + 1 + a) % |recipes|, (s.second + 1 + b) % |recipes|)
  }

  /** The scoreboard `n` rounds after `s`. */
  function Rounds(s: Scoreboard, n: nat): (t: Scoreboard)
    requires Valid(s)
    ensures Valid(t)
  {
    if n == 0 then s else Next(Rounds(s, n - 1))
  }

  /** Each round adds at least one recipe and keeps the earlier ones. */
  lemma {:induction false} RoundsGrow(s: Scoreboard, n: nat)
    requires Valid(s)
    ensures |Rounds(s, n).recipes| >= |s.recipes| + n
    ensures s.recipes <= Rounds(s, n).recipes
    decreases n
  {
    if n > 0 {
      RoundsGrow(s, n - 1);
      NextExtends(Rounds(s, n - 1));
    }
  }

  /** A round keeps every recipe and appends one or two. */
  lemma NextExtends(s: Scoreboard)
    requires Valid(s)
    ensures s.recipes <= Next(s).recipes
    ensures |s.recipes| + 1 <= |Next(s).recipes| <= |s.recipes| + 2
  {
  }

  /** `State`, updated in place. */
  class State {
    var recipes: seq<int>
    var first: nat
    var second: nat

    function Value(): Scoreboard
      reads this
    {
      Scoreboard(recipes, first, second)
    }

    /** `State::new`. */
    constructor ()
      ensures Value() == Initial
    {
      recipes := [3, 7];
      first := 0;
      second := 1;
    }

    /** `State::step`. */
    method Step()
      requires Valid(Value())
      modifies this
      ensures Value() == Next(old(Value()))
    {
      var r1 := recipes[first];
      var r2 := recipes[second];
      var sum := r1 + r2;
      var tens := sum / 10;
      var ones := sum % 10;
      if tens > 0 {
        recipes := recipes + [tens];
      }
      recipes := recipes + [ones];
      first := (first + 1 + r1) % |recipes|;
      second := (second + 1 + r2) % |recipes|;
    }
  }

  /** The decimal digits of a sequence of scores, one character each. */
  function DigitString(ds: seq<int>): (r: string)
    requires IsDigitSeq(ds)
    ensures |r| == |ds|
    ensures forall k :: 0 <= k < |r| ==> IsDigit(r[k]) && DigitValue(r[k]) == ds[k]
  {
    if ds == [] then []
    else
      var n := |ds| - 1;
      assert IsDigitSeq(ds[..n]);
      DigitString(ds[..n]) + [DigitChar(ds[n])]
  }

  /** `take_10_after_index`: the digits of up to ten recipes from `ind` on. */
  function TakeTenAfter(recipes: seq<int>, ind: nat): (r: string)
    requires IsDigitSeq(recipes)
    ensures |r| == (if ind >= |recipes| then 0 else if |recipes| - ind < 10 then |recipes| - ind else 10)
    ensures forall k :: 0 <= k < |r| ==> IsDigit(r[k]) && DigitValue(r[k]) == recipes[ind + k]
  {
    var n := if ind >= |recipes| then 0 else if |recipes| - ind < 10 then |recipes| - ind else 10;
    if n == 0 then []
    else
      var window := recipes[ind..ind + n];
      assert forall k :: 0 <= k < n ==> window[k] == recipes[ind + k];
      DigitString(window)
  }

  /** The needle stands at `p` in the recipes. */
  predicate Occurs(recipes: seq<int>, needle: seq<int>, p: int)
  {
    0 <= p && p + |needle| <= |recipes| && recipes[p..p + |needle|] == needle
  }

  /** `ends_with`: where the needle stands when it ends just before the last
      recipe or at the end, the earlier position checked first. What it
      reports is an occurrence at one of the last two places, the earlier
      one when both hold, and None means neither. */
  function EndsWith(recipes: seq<int>, needle: seq<int>): (r: Option<nat>)
    ensures r.Some? ==> Occurs(recipes, needle, r.value)
    ensures r.Some? ==> r.value + |needle| + 1 == |recipes| || r.value + |needle| == |recipes|
    ensures Occurs(recipes, needle, |recipes| - |needle| - 1) ==> r == Some(|recipes| - |needle| - 1)
    ensures r.None? <==>
              !Occurs(recipes, needle, |recipes| - |needle| - 1) && !Occurs(recipes, needle, |recipes| - |needle|)
  {
    var len := |recipes|;
    if len >= |needle| + 1 && recipes[len - |needle| - 1..len - 1] == needle then Some(len - |needle| - 1)
    else if len >= |needle| && recipes[len - |needle|..len] == needle then Some(len - |needle|)
    else None
  }

  // ---------------------------------------------------------------------
  // Part 1

  /** The loop of `solve_part1`: rounds until at least `target` recipes
      exist, or None when the fuel runs out first. */
  function GrowTo(s: Scoreboard, target: nat, fuel: nat): (r: Option<Scoreboard>)
    requires Valid(s)
    ensures r.Some? ==> Valid(r.value) && |r.value.recipes| >= target
    decreases fuel
  {
    if |s.recipes| >= target then Some(s)
    else if fuel == 0 then None
    else GrowTo(Next(s), target, fuel - 1)
  }

  lemma GrowToStep(s: Scoreboard, target: nat, fuel: nat)
    requires Valid(s) && |s.recipes| < target && fuel > 0
    ensures GrowTo(s, target, fuel) == GrowTo(Next(s), target, fuel - 1)
  {
  }

  /** A long enough run always reaches the target: each round adds a
      recipe. */
  lemma {:induction false} GrowToEnoughFuel(s: Scoreboard, target: nat, fuel: nat)
    requires Valid(s) && |s.recipes| + fuel >= target
    ensures GrowTo(s, target, fuel).Some?
    decreases fuel
  {
    if |s.recipes| < target {
      GrowToEnoughFuel(Next(s), target, fuel - 1);
    }
  }

  /** `solve_part1` on the parsed number `n`. */
  function Part1(n: nat, fuel: nat): (r: Option<string>)
    ensures r.Some? ==> |r.value| == 10 && forall k :: 0 <= k < 10 ==> IsDigit(r.value[k])
  {
    match GrowTo(Initial, n + 10, fuel)
    case None => None
    case Some(s) => Some(TakeTenAfter(s.recipes, n))
  }

  /** Enough fuel for `n + 10` rounds always gives an answer. */
  lemma Part1Total(n: nat, fuel: nat)
    requires fuel >= n + 8
    ensures Part1(n, fuel).Some?
  {
    GrowToEnoughFuel(Initial, n + 10, fuel);
  }

  /** `solve_part1`; None when the input is not a number (the `unwrap`
      panic) or the fuel runs out. */
  method SolvePart1(input: string, fuel: nat) returns (r: Option<string>)
    ensures ParseNat(input).None? ==> r.None?
    ensures ParseNat(input).Some? ==> r == Part1(ParseNat(input).value, fuel)
  {
    var parsed := ParseNat(input);
    if parsed.None? {
      return None;
    }
    r := Part1Loop(parsed.value, fuel);
  }

  /** The loop of `solve_part1` after parsing. */
  method Part1Loop(n: nat, fuel: nat) returns (r: Option<string>)
    ensures r == Part1(n, fuel)
  {
    var grown := Grow(n + 10, fuel);
    if grown.None? {
      return None;
    }
    return Some(TakeTenAfter(grown.value.recipes, n));
  }

  /** The `while` of `solve_part1`: steps a fresh `State` until it holds
      `target` recipes. */
  method Grow(target: nat, fuel: nat) returns (r: Option<Scoreboard>)
    ensures r == GrowTo(Initial, target, fuel)
  {
    var state := new State();
    r := GrowFrom(state, target, fuel);
  }

  /** The rounds of `solve_part1` on a scoreboard in place. */
  method GrowFrom(state: State, target: nat, fuel: nat) returns (r: Option<Scoreboard>)
    requires Valid(state.Value())
    modifies state
    ensures r == GrowTo(old(state.Value()), target, fuel)
  {
    ghost var s0 := state.Value();
    var left := fuel;
    while |state.recipes| < target
      invariant Valid(state.Value())
      invariant GrowTo(state.Value(), target, left) == GrowTo(s0, target, fuel)
      decreases left
    {
      if left == 0 {
        return None;
      }
      ghost var before := state.Value();
      GrowToStep(before, target, left);
      state.Step();
      assert state.Value() == Next(before);
      left := left - 1;
    }
    return Some(state.Value());
  }


  // ---------------------------------------------------------------------
  // Part 2

  /** `solve_part2`'s needle: each character as a byte minus `'0'`. None
      is the panic when the byte is below `'0'`. */
  function Needle(input: string): (r: Option<seq<int>>)
    ensures r.Some? <==> forall k :: 0 <= k < |input| ==> input[k] as int % 256 >= '0' as int
    ensures r.Some? ==> |r.value| == |input|
    ensures r.Some? ==> forall k :: 0 <= k < |input| ==> r.value[k] == input[k] as int % 256 - '0' as int
  {
    if input == [] then Some([])
    else
      var b := input[0] as int % 256;
      var rest := Needle(input[1..]);
      if b < '0' as int || rest.None? then None
      else
        var r := [b - '0' as int] + rest.value;
        assert forall k :: 1 <= k < |input| ==> input[k] == input[1..][k - 1];
        Some(r)
  }

  /** A match and the recipes it was found in. */
  datatype Found = Found(position: nat, recipes: seq<int>)

  /** One round of the search: it stops at a needle ending among the last
      two recipes and otherwise goes on from the next scoreboard. */
  lemma SearchStep(s: Scoreboard, t: Scoreboard, needle: seq<int>, fuel: nat)
    requires Valid(s) && fuel > 0 && t == Next(s)
    ensures EndsWith(t.recipes, needle).Some? ==>
              Search(s, needle, fuel) == Some(Found(EndsWith(t.recipes, needle).value, t.recipes))
    ensures EndsWith(t.recipes, needle).None? ==> Search(s, needle, fuel) == Search(t, needle, fuel - 1)
  {
  }

  /** `n` rounds after the next scoreboard are `n + 1` rounds after this one. */
  lemma {:induction false} RoundsNext(s: Scoreboard, n: nat)
    requires Valid(s)
    ensures Rounds(Next(s), n) == Rounds(s, n + 1)
  {
    if n > 0 {
      RoundsNext(s, n - 1);
    }
  }

  /** The recipes a search reports are the scoreboard some rounds on. */
  lemma {:induction false} SearchIsRounds(s: Scoreboard, needle: seq<int>, fuel: nat)
    requires Valid(s)
    ensures Search(s, needle, fuel).Some? ==>
              exists n :: 1 <= n <= fuel && Search(s, needle, fuel).value.recipes == Rounds(s, n).recipes
    decreases fuel
  {
    if fuel > 0 {
      var t := Next(s);
      assert Rounds(s, 1) == t;
      if EndsWith(t.recipes, needle).None? {
        assert Search(s, needle, fuel) == Search(t, needle, fuel - 1);
        SearchIsRounds(t, needle, fuel - 1);
        if Search(t, needle, fuel - 1).Some? {
          var n :| 1 <= n <= fuel - 1 && Search(t, needle, fuel - 1).value.recipes == Rounds(t, n).recipes;
          RoundsNext(s, n);
          assert Search(s, needle, fuel).value.recipes == Rounds(s, n + 1).recipes;
        }
      }
    }
  }

  /** The loop of `solve_part2`: a round, then a look at the end. */
  function Search(s: Scoreboard, needle: seq<int>, fuel: nat): (r: Option<Found>)
    requires Valid(s)
    ensures r.Some? ==> Occurs(r.value.recipes, needle, r.value.position)
    ensures r.Some? ==> r.value.position + |needle| + 1 >= |r.value.recipes| > |s.recipes|
    decreases fuel
  {
    if fuel == 0 then None
    else
      var t := Next(s);
      match EndsWith(t.recipes, needle)
      case Some(p) => Some(Found(p, t.recipes))
      case None => Search(t, needle, fuel - 1)
  }

  /** No occurrence of the needle ends anywhere from `lo` to `hi`. */
  predicate NoneEndingIn(recipes: seq<int>, needle: seq<int>, lo: int, hi: int)
  {
    forall p :: lo <= p + |needle| <= hi ==> !Occurs(recipes, needle, p)
  }

  /** What the search reports is an occurrence, and no earlier occurrence
      ends after `lo` (ends at or before `|s.recipes|` were already ruled
      out). */
  lemma {:induction false} SearchFindsFirst(s: Scoreboard, needle: seq<int>, fuel: nat, lo: int)
    requires Valid(s) && NoneEndingIn(s.recipes, needle, lo, |s.recipes|)
    ensures Search(s, needle, fuel).Some? ==>
              var f := Search(s, needle, fuel).value;
              Occurs(f.recipes, needle, f.position) &&
              forall p :: p < f.position && lo <= p + |needle| ==> !Occurs(f.recipes, needle, p)
    decreases fuel
  {
    if fuel > 0 {
      var t := Next(s);
      ExtendSearch(s.recipes, NewRecipes(s.recipes[s.first], s.recipes[s.second]), needle, lo);
      if EndsWith(t.recipes, needle).None? {
        SearchFindsFirst(t, needle, fuel - 1, lo);
      }
    }
  }

  /** One round appends one or two recipes: either the needle now ends at
      one of the last two places, and nowhere earlier after `lo`, or it ends
      nowhere after `lo`. */
  lemma ExtendSearch(a: seq<int>, b: seq<int>, needle: seq<int>, lo: int)
    requires 1 <= |b| <= 2 && NoneEndingIn(a, needle, lo, |a|)
    ensures EndsWith(a + b, needle).None? ==> NoneEndingIn(a + b, needle, lo, |a + b|)
    ensures EndsWith(a + b, needle).Some? ==>
              forall p :: p < EndsWith(a + b, needle).value && lo <= p + |needle| ==> !Occurs(a + b, needle, p)
  {
    var t := a + b;
    forall p | lo <= p + |needle| <= |a| ensures !Occurs(t, needle, p) {
      assert !Occurs(a, needle, p);
      if 0 <= p {
        assert t[p..p + |needle|] == a[p..p + |needle|];
      }
    }
    var e := EndsWith(t, needle);
    if e.Some? {
      forall p | p < e.value && lo <= p + |needle| ensures !Occurs(t, needle, p) {
        if p + |needle| > |a| {
          assert p == |t| - |needle| - 1;
        }
      }
    }
  }

  /** `solve_part2` on a parsed needle. */
  function Part2(needle: seq<int>, fuel: nat): (r: Option<nat>)
    ensures r.Some? ==>
              exists n :: Occurs(Rounds(Initial, n).recipes, needle, r.value) &&
                forall p :: p < r.value && 3 <= p + |needle| ==> !Occurs(Rounds(Initial, n).recipes, needle, p)
  {
    SearchFindsFirst(Initial, needle, fuel, 3);
    SearchIsRounds(Initial, needle, fuel);
    match Search(Initial, needle, fuel)
    case None => None
    case Some(f) => Some(f.position)
  }

  /** The recipes a search reports start with the recipes it started from. */
  lemma {:induction false} SearchKeepsStart(s: Scoreboard, needle: seq<int>, fuel: nat)
    requires Valid(s)
    ensures Search(s, needle, fuel).Some? ==>
              |Search(s, needle, fuel).value.recipes| >= |s.recipes| &&
              Search(s, needle, fuel).value.recipes[..|s.recipes|] == s.recipes
    decreases fuel
  {
    if fuel > 0 {
      var t := Next(s);
      if EndsWith(t.recipes, needle).None? {
        SearchKeepsStart(t, needle, fuel - 1);
        if Search(t, needle, fuel - 1).Some? {
          var r := Search(t, needle, fuel - 1).value.recipes;
          assert r[..|s.recipes|] == r[..|t.recipes|][..|s.recipes|];
        }
      }
    }
  }

  /** `solve_part2`; None on a character below `'0'` or when the fuel runs
      out. */
  method SolvePart2(input: string, fuel: nat) returns (r: Option<nat>)
    ensures Needle(input).None? ==> r.None?
    ensures Needle(input).Some? ==> r == Part2(Needle(input).value, fuel)
  {
    var needle := Needle(input);
    if needle.None? {
      return None;
    }
    r := FindNeedle(needle.value, fuel);
  }

  /** The loop of `solve_part2`: a round, then a look at the end of the
      scoreboard, until the needle shows up or the fuel runs out. */
  method FindNeedle(needle: seq<int>, fuel: nat) returns (r: Option<nat>)
    ensures Search(Initial, needle, fuel).None? ==> r.None?
    ensures Search(Initial, needle, fuel).Some? ==> r == Some(Search(Initial, needle, fuel).value.position)
  {
    var state := new State();
    r := SearchFrom(state, needle, fuel);
  }

  /** The rounds of the search on a scoreboard in place. */
  method SearchFrom(state: State, needle: seq<int>, fuel: nat) returns (r: Option<nat>)
    requires Valid(state.Value())
    modifies state
    ensures Search(old(state.Value()), needle, fuel).None? ==> r.None?
    ensures Search(old(state.Value()), needle, fuel).Some? ==> r == Some(Search(old(state.Value()), needle, fuel).value.position)
  {
    ghost var s0 := state.Value();
    var left := fuel;
    while left > 0
      invariant Valid(state.Value())
      invariant Search(state.Value(), needle, left) == Search(s0, needle, fuel)
      decreases left
    {
      ghost var before := state.Value();
      state.Step();
      SearchStep(before, state.Value(), needle, left);
      var found := EndsWith(state.recipes, needle);
      if found.Some? {
        return found;
      }
      left := left - 1;
    }
    return None;
  }

}
