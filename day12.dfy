/** Day 12: a row of plant pots evolving as a one-dimensional cellular
    automaton. Each pot's next state is read from the first rule whose
    five-pot pattern equals the pot with its two neighbours on each side. */
module Day12 {
  import opened Common
  import opened Text

  /** The header before the initial pots: "initial state: ". */
  const PrefixLength: nat := 15

  /** Twenty generations, each reaching at most two pots further left:
      the number of empty pots added on each side. */
  const Offset: nat := 40

  datatype Rule = Rule(pattern: seq<bool>, newState: bool)

  /** `str_to_iter_bool`: a pot holds a plant iff its glyph is '#'. */
  function Pots(s: string): (r: seq<bool>)
    ensures |r| == |s| && forall k :: 0 <= k < |s| ==> (r[k] <==> s[k] == '#')
  {
    if s == [] then [] else Pots(s[..|s| - 1]) + [s[|s| - 1] == '#']
  }

  /** `n` empty pots. */
  function Empty(n: nat): (r: seq<bool>)
    ensures |r| == n && forall k :: 0 <= k < n ==> !r[k]
  {
    if n == 0 then [] else Empty(n - 1) + [false]
  }

  /** A rule line "..#.. => #": the pattern is the first five characters
      and the new state is '#' at column 9; a shorter line is fatal. */
  function ParseRule(line: string): (r: Option<Rule>)
    ensures r.Some? <==> |line| >= 10
    ensures r.Some? ==> r.value.pattern == Pots(line[..5]) && (r.value.newState <==> line[9] == '#')
  {
    if |line| < 10 then None else Some(Rule(Pots(line[..5]), line[9] == '#'))
  }

  function ParseRules(lines: seq<string>): (r: Option<seq<Rule>>)
    ensures r.Some? <==> forall k :: 0 <= k < |lines| ==> |lines[k]| >= 10
    ensures r.Some? ==> |r.value| == |lines| &&
                        forall k :: 0 <= k < |lines| ==> Some(r.value[k]) == ParseRule(lines[k])
  {
    if lines == [] then Some([])
    else match (ParseRules(lines[..|lines| - 1]), ParseRule(lines[|lines| - 1]))
      case (Some(rs), Some(rule)) => Some(rs + [rule])
      case _ => None
  }

  /** `generator`: the initial pots after the header, padded with `Offset`
      empty pots on each side, then the rules after the blank line. A
      missing first line, one shorter than the header, or a short rule
      line is fatal. */
  function Generator(input: string): (r: Option<(seq<bool>, seq<Rule>)>)
    ensures r.Some? ==> var ls := Lines(input);
                        |ls| >= 1 && |ls[0]| >= PrefixLength &&
                        r.value.0 == Empty(Offset) + Pots(ls[0][PrefixLength..]) + Empty(Offset)
    ensures r.Some? ==> |r.value.0| == 2 * Offset + |Lines(input)[0]| - PrefixLength
    ensures r.Some? ==> var ls := Lines(input);
                        |r.value.1| == (if |ls| >= 2 then |ls| - 2 else 0) &&
                        forall k :: 0 <= k < |r.value.1| ==> Some(r.value.1[k]) == ParseRule(ls[k + 2])
  {
    var ls := Lines(input);
    if |ls| == 0 || |ls[0]| < PrefixLength then None
    else
      var plants := Empty(Offset) + Pots(ls[0][PrefixLength..]) + Empty(Offset);
      var ruleLines := if |ls| >= 2 then ls[2..] else [];
      match ParseRules(ruleLines)
      case None => None
      case Some(rules) => Some((plants, rules))
  }

  /** The rule lookup of one window: the new state of the first rule whose
      pattern equals it; no match is fatal. */
  function Lookup(rules: seq<Rule>, window: seq<bool>): (r: Option<bool>)
    ensures r.Some? <==> exists j :: 0 <= j < |rules| && rules[j].pattern == window
  {
    if rules == [] then None
    else if rules[0].pattern == window then Some(rules[0].newState)
    else
      var r := Lookup(rules[1..], window);
      assert r.Some? ==> exists j :: 0 <= j < |rules| && rules[j].pattern == window by {
        if r.Some? {
          var j :| 0 <= j < |rules[1..]| && rules[1..][j].pattern == window;
          assert rules[j + 1].pattern == window;
        }
      }
      assert (exists j :: 0 <= j < |rules| && rules[j].pattern == window) ==> r.Some? by {
        if exists j :: 0 <= j < |rules| && rules[j].pattern == window {
          var j :| 0 <= j < |rules| && rules[j].pattern == window;
          assert rules[1..][j - 1].pattern == window;
        }
      }
      r
  }

  /** The rule that decides is the first match. */
  lemma {:induction false} LookupFirst(rules: seq<Rule>, window: seq<bool>, j: nat)
    requires j < |rules| && rules[j].pattern == window
    requires forall i :: 0 <= i < j ==> rules[i].pattern != window
    ensures Lookup(rules, window) == Some(rules[j].newState)
  {
    if j > 0 {
      LookupFirst(rules[1..], window, j - 1);
    }
  }

  /** Pot `c` with its two neighbours on each side. */
  function Neighbourhood(plants: seq<bool>, c: nat): (w: seq<bool>)
    requires 2 <= c < |plants| - 2
    ensures |w| == 5
  {
    plants[c - 2..c + 3]
  }

  /** Some rule matches the neighbourhood of every pot that has one. */
  predicate AllMatch(plants: seq<bool>, rules: seq<Rule>)
  {
    forall c :: 2 <= c < |plants| - 2 ==> Lookup(rules, Neighbourhood(plants, c)).Some?
  }

  /** The window map: the new state of every pot that has two neighbours
      on each side, from the left. */
  function Windows(plants: seq<bool>, rules: seq<Rule>): (r: Option<seq<bool>>)
    ensures r.Some? <==> AllMatch(plants, rules)
    ensures r.Some? ==> |r.value| == if |plants| < 5 then 0 else |plants| - 4
    ensures r.Some? ==> forall c :: 2 <= c < |plants| - 2 ==> Lookup(rules, Neighbourhood(plants, c)) == Some(r.value[c - 2])
  {
    if |plants| < 5 then Some([])
    else
      var init := plants[..|plants| - 1];
      var c := |plants| - 3;
      assert forall c' :: 2 <= c' < |init| - 2 ==> Neighbourhood(init, c') == Neighbourhood(plants, c');
      match (Windows(init, rules), Lookup(rules, Neighbourhood(plants, c)))
      case (Some(ws), Some(b)) => Some(ws + [b])
      case (None, _) =>
        assert !AllMatch(init, rules);
        None
      case (_, None) => None
  }

  /** One generation of `solve_part1`: two empty pots, the window map, two
      empty pots. No matching rule is fatal, and so is a change of length
      (the `assert_eq!`), which happens only for rows of 1 to 3 pots or
      none. */
  function Generation(plants: seq<bool>, rules: seq<Rule>): (r: Option<seq<bool>>)
    ensures r.Some? ==> |plants| >= 4 && |r.value| == |plants|
    ensures r.Some? ==> !r.value[0] && !r.value[1] && !r.value[|plants| - 2] && !r.value[|plants| - 1]
    ensures r.Some? ==> forall c :: 2 <= c < |plants| - 2 ==> Lookup(rules, Neighbourhood(plants, c)) == Some(r.value[c])
    ensures |plants| >= 5 || |plants| == 4 ==> (r.Some? <==> AllMatch(plants, rules))
  {
    match Windows(plants, rules)
    case None => None
    case Some(ws) =>
      var r := [false, false] + ws + [false, false];
      if |r| != |plants| then None else Some(r)
  }

  /** `n` generations in turn. */
  function Generations(plants: seq<bool>, rules: seq<Rule>, n: nat): (r: Option<seq<bool>>)
    ensures r.Some? ==> |r.value| == |plants|
  {
    if n == 0 then Some(plants)
    else match Generations(plants, rules, n - 1)
      case None => None
      case Some(p) => Generation(p, rules)
  }

  /** The sum of the pot numbers with a plant, the first pot numbered
      `first`. */
  function LiveSum(plants: seq<bool>, first: int): (r: int)
    ensures (forall i :: 0 <= i < |plants| ==> !plants[i]) ==> r == 0
  {
    if plants == [] then 0
    else LiveSum(plants[..|plants| - 1], first) + (if plants[|plants| - 1] then first + |plants| - 1 else 0)
  }

  lemma {:induction false} LiveSumAppend(a: seq<bool>, b: seq<bool>, first: int)
    ensures LiveSum(a + b, first) == LiveSum(a, first) + LiveSum(b, first + |a|)
  {
    if b != [] {
      assert (a + b)[..|a + b| - 1] == a + b[..|b| - 1];
      LiveSumAppend(a, b[..|b| - 1], first);
    } else {
      assert a + b == a;
    }
  }

  lemma {:induction false} LiveSumEmpty(n: nat, first: int)
    ensures LiveSum(Empty(n), first) == 0
  {
    if n > 0 {
      assert Empty(n)[..n - 1] == Empty(n - 1);
      LiveSumEmpty(n - 1, first);
    }
  }

  /** The answer of `solve_part1` for a row: pots are numbered so that the
      first pot of the initial state is 0, the padding negative. */
  function PotSum(plants: seq<bool>): (r: int)
    ensures (forall i :: 0 <= i < |plants| ==> !plants[i]) ==> r == 0
  {
    LiveSum(plants, -(Offset as int))
  }

  /** The padding cancels out: for the row `generator` builds, the pot sum
      is the sum of the positions of '#' in the initial state. */
  lemma PotSumOfPadded(state: string)
    ensures PotSum(Empty(Offset) + Pots(state) + Empty(Offset)) == LiveSum(Pots(state), 0)
  {
    var a := Empty(Offset);
    var b := Pots(state);
    LiveSumAppend(a + b, Empty(Offset), -(Offset as int));
    LiveSumAppend(a, b, -(Offset as int));
    LiveSumEmpty(Offset, -(Offset as int));
    LiveSumEmpty(Offset, |b|);
  }

  /** `solve_part1`: the pot sum after twenty generations. */
  function Part1(plants: seq<bool>, rules: seq<Rule>): (r: Option<int>)
    ensures r.Some? <==> Generations(plants, rules, 20).Some?
  {
    match Generations(plants, rules, 20)
    case None => None
    case Some(p) => Some(PotSum(p))
  }

  /** A row that stays empty stays put: with a rule mapping the empty
      window to an empty pot first, an empty row is a fixed point. */
  lemma {:induction false} EmptyRowFixed(rules: seq<Rule>, n: nat)
    requires n >= 5 && |rules| > 0 && rules[0] == Rule(Empty(5), false)
    ensures Generation(Empty(n), rules) == Some(Empty(n))
  {
    var e := Empty(n);
    forall c | 2 <= c < n - 2
      ensures Lookup(rules, Neighbourhood(e, c)) == Some(false)
    {
      assert Neighbourhood(e, c) == Empty(5);
    }
    assert AllMatch(e, rules);
    var r := Generation(e, rules);
    assert r.Some?;
    forall c | 0 <= c < n
      ensures r.value[c] == e[c]
    {
      if 2 <= c < n - 2 {
        assert Lookup(rules, Neighbourhood(e, c)) == Some(r.value[c]);
      }
    }
    assert r.value == e;
  }

  /** `solve_part1`: twenty generations, then the pot sum. */
  method SolvePart1(plants0: seq<bool>, rules: seq<Rule>) returns (r: Option<int>)
    ensures r == Part1(plants0, rules)
  {
    var plants := Evolve(plants0, rules, 20);
    if plants.None? {
      return None;
    }
    var total := SumPots(plants.value);
    return Some(total);
  }

  /** The generation loop, on a mutable row. */
  method Evolve(plants0: seq<bool>, rules: seq<Rule>, count: nat) returns (r: Option<seq<bool>>)
    ensures r == Generations(plants0, rules, count)
  {
    var plants := plants0;
    for n := 0 to count
      invariant Generations(plants0, rules, n) == Some(plants)
    {
      var next := Generation(plants, rules);
      if next.None? {
        assert Generations(plants0, rules, n + 1).None?;
        NoneStays(plants0, rules, n + 1, count);
        return None;
      }
      plants := next.value;
    }
    return Some(plants);
  }

  /** The summing loop: pot `i` of the row is numbered `i - Offset`. */
  method SumPots(plants: seq<bool>) returns (total: int)
    ensures total == PotSum(plants)
  {
    total := 0;
    for i := 0 to |plants|
      invariant total == LiveSum(plants[..i], -(Offset as int))
    {
      assert plants[..i + 1][..i] == plants[..i];
      if plants[i] {
        total := total + (i - Offset as int);
      }
    }
    assert plants[..|plants|] == plants;
  }


  lemma GenerationsNone(plants: seq<bool>, rules: seq<Rule>, n: nat)
    requires n > 0 && Generations(plants, rules, n - 1).None?
    ensures Generations(plants, rules, n).None?
  {
  }

  /** Once a generation fails, every later count of generations fails. */
  lemma {:induction false} NoneStays(plants: seq<bool>, rules: seq<Rule>, m: nat, n: nat)
    requires m <= n && Generations(plants, rules, m).None?
    ensures Generations(plants, rules, n).None?
    decreases n - m
  {
    if m < n {
      GenerationsNone(plants, rules, m + 1);
      NoneStays(plants, rules, m + 1, n);
    }
  }
}
