/** Day 1: frequency changes. Part 1 adds them up; part 2 applies them
    over and over, cycling through the list, and answers the first
    running frequency that was already seen. */
module Day01 {
  import opened Common
  import opened Text

  /** `str::parse::<i32>`: a number outside the 32-bit range does not
      parse. */
  function ParseI32(s: string): (r: Option<int>)
    ensures r.Some? ==> -0x8000_0000 <= r.value < 0x8000_0000 && ParseInt(s) == r
    ensures r.None? ==> ParseInt(s).None? || ParseInt(s).value < -0x8000_0000 || ParseInt(s).value >= 0x8000_0000
  {
    match ParseInt(s)
    case Some(v) => if -0x8000_0000 <= v < 0x8000_0000 then Some(v) else None
    case None => None
  }

  /** A line: one change, with blanks trimmed. */
  function ParseChange(line: string): (r: Option<int>)
    ensures r.Some? ==> ParseInt(Trim(line)) == r && -0x8000_0000 <= r.value < 0x8000_0000
    ensures r.None? <==> ParseInt(Trim(line)).None? || ParseInt(Trim(line)).value < -0x8000_0000 ||
                         ParseInt(Trim(line)).value >= 0x8000_0000
  {
    ParseI32(Trim(line))
  }

  /** The changes, one per line; a line that does not parse is fatal. */
  function Changes(input: string): (r: Option<seq<int>>)
    ensures r.Some? ==> |r.value| == |Lines(input)| &&
                        forall k :: 0 <= k < |Lines(input)| ==> ParseChange(Lines(input)[k]) == Some(r.value[k])
    ensures r.None? <==> exists k :: 0 <= k < |Lines(input)| && ParseChange(Lines(input)[k]).None?
  {
    ParseAll(Lines(input), ParseChange)
  }

  /** `solve_part1`: the sum of the changes. */
  function SolvePart1(input: string): (r: Option<int>)
    ensures r.None? <==> exists k :: 0 <= k < |Lines(input)| && ParseChange(Lines(input)[k]).None?
    ensures r.Some? ==> r.value == Sum(Changes(input).value)
  {
    match Changes(input)
    case Some(vs) => Some(Sum(vs))
    case None => None
  }

  // ---------------------------------------------------------------------
  // part 2: running frequencies over the cycled list

  /** Where `values.into_iter().cycle()` stands after `n` items: it runs
      through the list and starts over at its end. */
  function Index(values: seq<int>, n: nat): (i: nat)
    requires |values| > 0
    ensures i < |values|
  {
    if n == 0 then 0
    else if Index(values, n - 1) + 1 == |values| then 0
    else Index(values, n - 1) + 1
  }

  lemma {:induction false} IndexFirstPass(values: seq<int>, n: nat)
    requires n < |values|
    ensures Index(values, n) == n
  {
    if n > 0 {
      IndexFirstPass(values, n - 1);
    }
  }

  /** The cycle repeats with the list's length as period. */
  lemma {:induction false} IndexPeriodic(values: seq<int>, n: nat)
    requires |values| > 0
    ensures Index(values, n + |values|) == Index(values, n)
  {
    if n == 0 {
      IndexFirstPass(values, |values| - 1);
    } else {
      IndexPeriodic(values, n - 1);
    }
  }

  /** The frequency after the first `n` changes of the endless cycle. */
  function Running(values: seq<int>, n: nat): int
    requires |values| > 0
  {
    if n == 0 then 0 else Running(values, n - 1) + values[Index(values, n - 1)]
  }

  /** One pass over the list moves the frequency by part 1's answer. */
  lemma {:induction false} RunningPass(values: seq<int>, n: nat)
    requires |values| > 0
    ensures Running(values, n + |values|) == Running(values, n) + Sum(values)
    decreases n
  {
    if n == 0 {
      RunningPrefix(values, |values|);
      assert values[..|values|] == values;
    } else {
      RunningPass(values, n - 1);
      IndexPeriodic(values, n - 1);
    }
  }

  /** Within the first pass, the running frequency is a prefix sum. */
  lemma {:induction false} RunningPrefix(values: seq<int>, n: nat)
    requires 0 < |values| && n <= |values|
    ensures Running(values, n) == Sum(values[..n])
  {
    if n > 0 {
      RunningPrefix(values, n - 1);
      IndexFirstPass(values, n - 1);
      assert values[..n][..n - 1] == values[..n - 1];
    }
  }

  /** The frequencies reached before step `n`, counting from step `lo`. */
  function Reached(values: seq<int>, lo: nat, n: nat): set<int>
    requires |values| > 0
  {
    if n <= lo then {} else Reached(values, lo, n - 1) + {Running(values, n - 1)}
  }

  lemma {:induction false} ReachedHas(values: seq<int>, lo: nat, n: nat, m: nat)
    requires |values| > 0 && lo <= m < n
    ensures Running(values, m) in Reached(values, lo, n)
  {
    if m < n - 1 {
      ReachedHas(values, lo, n - 1, m);
    }
  }

  lemma {:induction false} ReachedOnly(values: seq<int>, lo: nat, n: nat, x: int)
    requires |values| > 0 && x in Reached(values, lo, n)
    ensures exists m: nat :: lo <= m < n && Running(values, m) == x
  {
    if x != Running(values, n - 1) {
      ReachedOnly(values, lo, n - 1, x);
      var m: nat :| lo <= m < n - 1 && Running(values, m) == x;
      assert lo <= m < n;
    }
  }

  /** Step `n` reaches a frequency reached before, at a step from `lo` on. */
  ghost predicate RepeatsAt(values: seq<int>, lo: nat, n: nat)
    requires |values| > 0
  {
    1 <= n && exists m: nat :: lo <= m < n && Running(values, m) == Running(values, n)
  }

  /** The loop's test: step `n` repeats exactly when its frequency is in
      the set of those reached before. */
  lemma RepeatsIffReached(values: seq<int>, lo: nat, n: nat)
    requires |values| > 0 && 1 <= n
    ensures RepeatsAt(values, lo, n) <==> Running(values, n) in Reached(values, lo, n)
  {
    if RepeatsAt(values, lo, n) {
      var m: nat :| lo <= m < n && Running(values, m) == Running(values, n);
      ReachedHas(values, lo, n, m);
    }
    if Running(values, n) in Reached(values, lo, n) {
      ReachedOnly(values, lo, n, Running(values, n));
    }
  }

  /** Step `n` is the first to repeat. */
  ghost predicate FirstRepeat(values: seq<int>, lo: nat, n: nat)
    requires |values| > 0
  {
    RepeatsAt(values, lo, n) && forall n' :: 1 <= n' < n ==> !RepeatsAt(values, lo, n')
  }

  /** The search loop of `solve_part2`, bounded by `fuel` steps: the set
      starts with the frequencies of the steps from `lo` to 0, then takes
      each new running frequency; the answer is the first that is already
      in the set. */
  method FindRepeat(values: seq<int>, lo: nat, fuel: nat) returns (r: Option<int>)
    requires lo <= 1
    ensures |values| == 0 ==> r.None?
    ensures |values| > 0 && r.Some? ==> exists n :: 1 <= n <= fuel && FirstRepeat(values, lo, n) && r.value == Running(values, n)
    ensures |values| > 0 && r.None? ==> forall n :: 1 <= n <= fuel ==> !RepeatsAt(values, lo, n)
  {
    if |values| == 0 {
      return None;
    }
    var freq := 0;
    var found: set<int> := if lo == 0 then {0} else {};
    var i := 0;
    assert found == Reached(values, lo, 1);
    for n := 1 to fuel + 1
      invariant freq == Running(values, n - 1) && i == Index(values, n - 1)
      invariant found == Reached(values, lo, n)
      invariant forall n' :: 1 <= n' < n ==> !RepeatsAt(values, lo, n')
    {
      freq := freq + values[i];
      assert freq == Running(values, n);
      i := if i + 1 == |values| then 0 else i + 1;
      RepeatsIffReached(values, lo, n);
      if freq in found {
        assert FirstRepeat(values, lo, n);
        return Some(freq);
      }
      found := found + {freq};
    }
    return None;
  }

  /** `solve_part2` as written: the set starts empty, so the starting
      frequency 0 counts only once it is reached a second time. */
  method SolvePart2AsWritten(values: seq<int>, fuel: nat) returns (r: Option<int>)
    ensures |values| == 0 ==> r.None?
    ensures |values| > 0 && r.Some? ==> exists n :: 1 <= n <= fuel && FirstRepeat(values, 1, n) && r.value == Running(values, n)
    ensures |values| > 0 && r.None? ==> forall n :: 1 <= n <= fuel ==> !RepeatsAt(values, 1, n)
  {
    r := FindRepeat(values, 1, fuel);
  }

  /** `solve_part2` as the puzzle means it: the starting frequency 0 is
      seen before the first change. */
  method SolvePart2(values: seq<int>, fuel: nat) returns (r: Option<int>)
    ensures |values| == 0 ==> r.None?
    ensures |values| > 0 && r.Some? ==> exists n :: 1 <= n <= fuel && FirstRepeat(values, 0, n) && r.value == Running(values, n)
    ensures |values| > 0 && r.None? ==> forall n :: 1 <= n <= fuel ==> !RepeatsAt(values, 0, n)
  {
    r := FindRepeat(values, 0, fuel);
  }

  /** When the changes add up to zero, a repeat comes within one pass
      (two passes as written), so a fuel of `|values| + 1` is enough. */
  lemma ZeroSumRepeats(values: seq<int>)
    requires |values| > 0 && Sum(values) == 0
    ensures RepeatsAt(values, 0, |values|)
    ensures RepeatsAt(values, 1, |values| + 1)
  {
    RunningPass(values, 0);
    RunningPass(values, 1);
  }

  /** The two differ on "+1, -1": the intended answer is 0, reached again
      after two changes; as written the first repeat is 1, after three. */
  lemma SeedMatters(values: seq<int>)
    requires values == [1, -1]
    ensures FirstRepeat(values, 0, 2) && Running(values, 2) == 0
    ensures FirstRepeat(values, 1, 3) && Running(values, 3) == 1
  {
    assert Running(values, 1) == 1;
    assert Running(values, 2) == 0;
    assert Running(values, 3) == 1;
    assert RepeatsAt(values, 0, 2);
    assert RepeatsAt(values, 1, 3);
    assert !RepeatsAt(values, 0, 1);
    assert !RepeatsAt(values, 1, 1);
    assert !RepeatsAt(values, 1, 2);
  }
}
