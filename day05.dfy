/** Day 5: polymer reduction. A polymer is a string of units; two adjacent
    units of the same letter in opposite case react and vanish. The
    reduction runs a single pass with a stack of unmatched units. */
module Day05 {
  import opened Common
  import opened Text

  predicate IsUpper(c: char)
  {
    'A' <= c <= 'Z'
  }

  predicate IsLower(c: char)
  {
    'a' <= c <= 'z'
  }

  /** `char::to_ascii_lowercase`. */
  function ToLower(c: char): (r: char)
    ensures IsUpper(c) ==> IsLower(r) && r as int == c as int + 32
    ensures !IsUpper(c) ==> r == c
  {
    if IsUpper(c) then (c as int + 32) as char else c
  }

  /** The other case of an ASCII letter. */
  function SwapCase(c: char): char
    requires IsUpper(c) || IsLower(c)
  {
    if IsUpper(c) then (c as int + 32) as char else (c as int - 32) as char
  }

  /** `do_units_match`: exactly one of the two is upper case, and both are
      the same letter once lowered. */
  predicate UnitsMatch(a: char, b: char)
  {
    (IsUpper(a) != IsUpper(b)) && ToLower(a) == ToLower(b)
  }

  /** Two units react exactly when they are one letter in its two cases. */
  lemma UnitsMatchIsSwapCase(a: char, b: char)
    ensures UnitsMatch(a, b) <==> (IsUpper(a) || IsLower(a)) && b == SwapCase(a)
  {
  }

  lemma UnitsMatchSymmetric(a: char, b: char)
    ensures UnitsMatch(a, b) <==> UnitsMatch(b, a)
  {
  }

  /** One unit arriving at the stack: it cancels the top if they react and
      is pushed otherwise. */
  function Push(stack: seq<char>, unit: char): (r: seq<char>)
    ensures stack != [] && UnitsMatch(unit, stack[|stack| - 1]) ==> r == stack[..|stack| - 1]
    ensures (stack == [] || !UnitsMatch(unit, stack[|stack| - 1])) ==> r == stack + [unit]
  {
    if stack != [] && UnitsMatch(unit, stack[|stack| - 1]) then stack[..|stack| - 1] else stack + [unit]
  }

  /** The stack after the units of `rest` arrive at `stack` in order. */
  function PushAll(stack: seq<char>, rest: seq<char>): seq<char>
    decreases |rest|
  {
    if rest == [] then stack else PushAll(Push(stack, rest[0]), rest[1..])
  }

  /** The polymer left once every unit has arrived at an empty stack. */
  function Collapse(polymer: seq<char>): seq<char>
  {
    PushAll([], polymer)
  }

  /** No two neighbours react. */
  predicate Reduced(s: seq<char>)
  {
    forall i :: 0 <= i < |s| - 1 ==> !UnitsMatch(s[i], s[i + 1])
  }

  /** Units arriving one at a time: the stack after the whole polymer is the
      stack after all but the last unit, with the last unit pushed. */
  lemma {:induction false} PushAllSnoc(stack: seq<char>, rest: seq<char>, unit: char)
    ensures PushAll(stack, rest + [unit]) == Push(PushAll(stack, rest), unit)
    decreases |rest|
  {
    if rest == [] {
      assert PushAll(Push(stack, unit), []) == Push(stack, unit);
    } else {
      assert (rest + [unit])[1..] == rest[1..] + [unit];
      PushAllSnoc(Push(stack, rest[0]), rest[1..], unit);
    }
  }

  /** `collapse_polymer`: the stack loop over the units. */
  method CollapsePolymer(polymer: seq<char>) returns (unmatched: seq<char>)
    ensures unmatched == Collapse(polymer)
  {
    unmatched := [];
    for i := 0 to |polymer|
      invariant unmatched == Collapse(polymer[..i])
    {
      var unit := polymer[i];
      PushAllSnoc([], polymer[..i], unit);
      assert polymer[..i + 1] == polymer[..i] + [unit];
      if |unmatched| > 0 && UnitsMatch(unit, unmatched[|unmatched| - 1]) {
        unmatched := unmatched[..|unmatched| - 1];
      } else {
        unmatched := unmatched + [unit];
      }
    }
    assert polymer[..|polymer|] == polymer;
  }

  /** Pushing onto a reduced stack keeps it reduced. */
  lemma PushReduced(stack: seq<char>, unit: char)
    requires Reduced(stack)
    ensures Reduced(Push(stack, unit))
  {
    var r := Push(stack, unit);
    if stack != [] && UnitsMatch(unit, stack[|stack| - 1]) {
      assert forall i :: 0 <= i < |r| ==> r[i] == stack[i];
    } else if stack != [] {
      UnitsMatchSymmetric(stack[|stack| - 1], unit);
    }
  }

  /** The stack invariant: what is left of a polymer has no reacting
      neighbours. */
  lemma {:induction false} PushAllReduced(stack: seq<char>, rest: seq<char>)
    requires Reduced(stack)
    ensures Reduced(PushAll(stack, rest))
    decreases |rest|
  {
    if rest != [] {
      PushReduced(stack, rest[0]);
      PushAllReduced(Push(stack, rest[0]), rest[1..]);
    }
  }

  lemma CollapseReduced(polymer: seq<char>)
    ensures Reduced(Collapse(polymer))
  {
    PushAllReduced([], polymer);
  }

  /** Each unit either adds one to the stack or removes one, so the units
      consumed and the stack's growth differ by an even number, never
      negative. */
  lemma {:induction false} PushAllLength(stack: seq<char>, rest: seq<char>)
    ensures |PushAll(stack, rest)| <= |stack| + |rest|
    ensures (|stack| + |rest| - |PushAll(stack, rest)|) % 2 == 0
    decreases |rest|
  {
    if rest != [] {
      PushAllLength(Push(stack, rest[0]), rest[1..]);
    }
  }

  /** Reduction never lengthens the polymer and keeps its parity: every
      reaction removes a pair. */
  lemma CollapseLength(polymer: seq<char>)
    ensures |Collapse(polymer)| <= |polymer|
    ensures (|polymer| - |Collapse(polymer)|) % 2 == 0
  {
    PushAllLength([], polymer);
  }

  /** A reduced polymer is left as it is. */
  lemma {:induction false} CollapseOfReduced(s: seq<char>)
    requires Reduced(s)
    ensures Collapse(s) == s
    decreases |s|
  {
    if s != [] {
      var n := |s| - 1;
      var front := s[..n];
      assert Reduced(front);
      CollapseOfReduced(front);
      PushAllSnoc([], front, s[n]);
      if n > 0 {
        UnitsMatchSymmetric(s[n - 1], s[n]);
      }
      assert front + [s[n]] == s;
    }
  }

  /** Reduction is idempotent. */
  lemma CollapseIdempotent(polymer: seq<char>)
    ensures Collapse(Collapse(polymer)) == Collapse(polymer)
  {
    CollapseReduced(polymer);
    CollapseOfReduced(Collapse(polymer));
  }

  /** `solve_part1`: the length of the reduced polymer, after the trailing
      whitespace is cut off. */
  function Part1(input: string): (r: nat)
    ensures r <= |input|
  {
    CollapseLength(TrimEnd(input));
    |Collapse(TrimEnd(input))|
  }

  /** The polymer with both cases of the letter `unit` filtered out. */
  function RemoveUnit(polymer: seq<char>, unit: char): (r: seq<char>)
    ensures |r| <= |polymer|
    ensures forall k :: 0 <= k < |r| ==> ToLower(r[k]) != unit
    ensures forall c :: c in r <==> c in polymer && ToLower(c) != unit
  {
    if polymer == [] then []
    else if ToLower(polymer[0]) != unit then [polymer[0]] + RemoveUnit(polymer[1..], unit)
    else RemoveUnit(polymer[1..], unit)
  }

  /** The letters tried in part 2, 'a' to 'z'. */
  function Letter(k: nat): (c: char)
    requires k < 26
    ensures IsLower(c)
  {
    ('a' as int + k) as char
  }

  /** The reduced length with each letter in turn removed first. */
  function FilteredLengths(polymer: seq<char>): (ls: seq<int>)
    ensures |ls| == 26
    ensures forall k :: 0 <= k < 26 ==> ls[k] == |Collapse(RemoveUnit(polymer, Letter(k)))|
  {
    seq(26, k requires 0 <= k < 26 => |Collapse(RemoveUnit(polymer, Letter(k)))|)
  }

  /** `solve_part2_iterator`: the shortest polymer obtainable by removing
      one letter and reducing the rest. */
  function Part2(input: string): (r: int)
    ensures exists k :: 0 <= k < 26 && r == |Collapse(RemoveUnit(TrimEnd(input), Letter(k)))|
    ensures forall k :: 0 <= k < 26 ==> r <= |Collapse(RemoveUnit(TrimEnd(input), Letter(k)))|
  {
    var ls := FilteredLengths(TrimEnd(input));
    assert Min(ls) in ls;
    Min(ls)
  }

  /** `solve_part2`: the same minimum, kept in a running accumulator while
      the letters are tried in turn. */
  method SolvePart2(input: string) returns (r: int)
    ensures r == Part2(input)
  {
    var polymer := TrimEnd(input);
    ghost var ls := FilteredLengths(polymer);
    var best := -1;
    for k := 0 to 26
      invariant k == 0 <==> best == -1
      invariant k > 0 ==> best == Min(ls[..k])
    {
      var unmatched := CollapsePolymer(RemoveUnit(polymer, Letter(k)));
      var len := |unmatched|;
      assert ls[..k + 1][..k] == ls[..k];
      if best == -1 || len < best {
        best := len;
      }
    }
    assert ls[..26] == ls;
    return best;
  }

  /** `solve_part2_early_collapse`: the letters are removed from the
      already reduced polymer instead of the input. */
  function Part2EarlyCollapse(input: string): (r: int)
    ensures exists k :: 0 <= k < 26 && r == |Collapse(RemoveUnit(Collapse(TrimEnd(input)), Letter(k)))|
    ensures forall k :: 0 <= k < 26 ==> r <= |Collapse(RemoveUnit(Collapse(TrimEnd(input)), Letter(k)))|
  {
    var ls := FilteredLengths(Collapse(TrimEnd(input)));
    assert Min(ls) in ls;
    Min(ls)
  }

  /** Removing a letter from the reduced polymer cannot leave more than
      part 1's answer. */
  lemma EarlyCollapseAtMostPart1(input: string)
    ensures Part2EarlyCollapse(input) <= Part1(input)
  {
    var reduced := Collapse(TrimEnd(input));
    var filtered := RemoveUnit(reduced, Letter(0));
    CollapseLength(filtered);
  }

  /** Feeding a polymer in two parts, the first part may be reduced in
      advance: reduction is a left fold over the units. */
  lemma {:induction false} PushAllAppend(stack: seq<char>, a: seq<char>, b: seq<char>)
    ensures PushAll(stack, a + b) == PushAll(PushAll(stack, a), b)
    decreases |a|
  {
    if a != [] {
      assert (a + b)[1..] == a[1..] + b;
      PushAllAppend(Push(stack, a[0]), a[1..], b);
    } else {
      assert a + b == b;
    }
  }

  /** Reducing a prefix first changes nothing. */
  lemma CollapsePrefixFirst(a: seq<char>, b: seq<char>)
    ensures Collapse(Collapse(a) + b) == Collapse(a + b)
  {
    PushAllAppend([], a, b);
    PushAllAppend([], Collapse(a), b);
    CollapseIdempotent(a);
  }

  /** The first sample has no reacting pair. */
  lemma SampleNoReaction()
    ensures Part1("aabAAB") == 6
  {
    assert Reduced("aabAAB");
    CollapseOfReduced("aabAAB");
    assert TrimEnd("aabAAB") == "aabAAB";
  }

  lemma SampleFirstChunk()
    ensures Collapse("dabAcCaC") == "dabC"
  {
  }

  lemma SampleFirstTwelve(a: seq<char>, b: seq<char>)
    requires a == "dabAcCaC" && b == "BAcC"
    ensures Collapse(a + b) == "dabCBA"
  {
    SampleFirstChunk();
    PushAllAppend([], a, b);
    SampleSecondChunk();
  }

  lemma SampleSecondChunk()
    ensures PushAll("dabC", "BAcC") == "dabCBA"
  {
    assert PushAll("dabCBA", "") == "dabCBA";
    assert PushAll("dabCBAc", "C") == "dabCBA";
    assert PushAll("dabCBA", "cC") == "dabCBA";
    assert PushAll("dabCB", "AcC") == "dabCBA";
  }

  /** The second sample reduces to "dabCBAcaDA": its first eight units
      leave "dabC", the next four then leave "dabCBA", and the last four
      react with nothing. */
  lemma SampleReduction(a: seq<char>, b: seq<char>, c: seq<char>)
    requires a == "dabAcCaC" && b == "BAcC" && c == "caDA"
    ensures Collapse(a + b + c) == "dabCBAcaDA"
  {
    SampleFirstTwelve(a, b);
    PushAllAppend([], a + b, c);
    assert PushAll("dabCBA", "caDA") == "dabCBAcaDA";
  }

  lemma SamplePart1(input: string)
    requires input == "dabAcCaCBAcCcaDA\n"
    ensures Part1(input) == 10
  {
    var a, b, c := "dabAcCaC", "BAcC", "caDA";
    var sample := a + b + c;
    assert input == sample + "\n";
    assert input[..|sample|] == sample;
    assert TrimEnd(sample) == sample;
    SampleReduction(a, b, c);
  }
}
