/** Day 2: box IDs. Part 1 is a checksum over the letters that occur
    exactly twice or three times in an ID; part 2 finds the two IDs that
    differ in exactly one position and keeps the characters they share. */
module Day02 {
  import opened Common
  import opened Text

  /** The IDs: the input's lines with surrounding blanks removed. */
  function Ids(input: string): (ids: seq<string>)
    ensures |ids| == |Lines(input)|
    ensures forall k :: 0 <= k < |ids| ==> ids[k] == Trim(Lines(input)[k])
  {
    seq(|Lines(input)|, k requires 0 <= k < |Lines(input)| => Trim(Lines(input)[k]))
  }

  // ---------------------------------------------------------------------
  // part 1

  /** Some character occurs exactly `n` times in `id`. */
  predicate HasExactly(id: string, n: nat)
  {
    exists c :: c in id && multiset(id)[c] == n
  }

  /** The number of IDs with a character occurring exactly `n` times. */
  function CountWith(ids: seq<string>, n: nat): (r: nat)
    ensures r <= |ids|
  {
    if ids == [] then 0
    else CountWith(ids[..|ids| - 1], n) + (if HasExactly(ids[|ids| - 1], n) then 1 else 0)
  }

  /** The checksum: IDs with a letter twice times IDs with a letter three
      times. */
  function Checksum(ids: seq<string>): nat
  {
    CountWith(ids, 2) * CountWith(ids, 3)
  }

  /** The histogram loop: how often each character of `id` occurs. */
  method CharCounts(id: string) returns (counts: map<char, nat>)
    ensures forall c :: c in counts <==> c in id
    ensures forall c :: c in counts ==> counts[c] == multiset(id)[c]
  {
    counts := map[];
    for i := 0 to |id|
      invariant forall c :: c in counts <==> c in id[..i]
      invariant forall c :: c in counts ==> counts[c] == multiset(id[..i])[c]
    {
      assert id[..i + 1] == id[..i] + [id[i]];
      var c := id[i];
      counts := counts[c := if c in counts then counts[c] + 1 else 1];
    }
    assert id[..|id|] == id;
  }

  /** The scan over the histogram's values for a 2 and a 3. */
  method TwoAndThree(id: string) returns (two: bool, three: bool)
    ensures two <==> HasExactly(id, 2)
    ensures three <==> HasExactly(id, 3)
  {
    var counts := CharCounts(id);
    two, three := false, false;
    var keys := counts.Keys;
    while keys != {}
      invariant keys <= counts.Keys
      invariant two <==> exists c :: c in counts && c !in keys && counts[c] == 2
      invariant three <==> exists c :: c in counts && c !in keys && counts[c] == 3
      decreases |keys|
    {
      var c :| c in keys;
      if counts[c] == 2 {
        two := true;
      } else if counts[c] == 3 {
        three := true;
      }
      keys := keys - {c};
    }
  }

  /** `solve_part1`: the two loops, counting per line. */
  method SolvePart1(input: string) returns (r: nat)
    ensures r == Checksum(Ids(input))
  {
    r := ChecksumOf(Ids(input));
  }

  method ChecksumOf(ids: seq<string>) returns (r: nat)
    ensures r == Checksum(ids)
  {
    var twos, threes := Tally(ids);
    NatProduct(twos, threes);
    r := twos * threes;
  }

  lemma NatProduct(a: nat, b: nat)
    ensures 0 <= a * b
  {
  }

  /** The per-line counting of `solve_part1`. */
  method Tally(ids: seq<string>) returns (twos: nat, threes: nat)
    ensures twos == CountWith(ids, 2) && threes == CountWith(ids, 3)
  {
    twos, threes := 0, 0;
    for i := 0 to |ids|
      invariant twos == CountWith(ids[..i], 2) && threes == CountWith(ids[..i], 3)
    {
      var two, three := TwoAndThree(ids[i]);
      CountWithSnoc(ids, i, 2);
      CountWithSnoc(ids, i, 3);
      if two {
        twos := twos + 1;
      }
      if three {
        threes := threes + 1;
      }
    }
    assert ids[..|ids|] == ids;
  }

  /** One more ID counts once more exactly when it has such a character. */
  lemma CountWithSnoc(ids: seq<string>, i: nat, n: nat)
    requires i < |ids|
    ensures CountWith(ids[..i + 1], n) == CountWith(ids[..i], n) + if HasExactly(ids[i], n) then 1 else 0
  {
    assert ids[..i + 1][..i] == ids[..i];
  }

  // ---------------------------------------------------------------------
  // part 2

  function MinLength(a: string, b: string): nat
  {
    if |a| <= |b| then |a| else |b|
  }

  /** The positions below `n` where `a` and `b` differ. */
  function DiffsBelow(a: string, b: string, n: nat): nat
    requires n <= MinLength(a, b)
  {
    if n == 0 then 0 else DiffsBelow(a, b, n - 1) + (if a[n - 1] != b[n - 1] then 1 else 0)
  }

  /** The positions where `a` and `b` differ, over the shorter length (the
      two are zipped). */
  function Diffs(a: string, b: string): nat
  {
    DiffsBelow(a, b, MinLength(a, b))
  }

  predicate Similar(a: string, b: string)
  {
    Diffs(a, b) == 1
  }

  lemma {:induction false} DiffsBelowMonotone(a: string, b: string, m: nat, n: nat)
    requires m <= n <= MinLength(a, b)
    ensures DiffsBelow(a, b, m) <= DiffsBelow(a, b, n)
    decreases n
  {
    if m < n {
      DiffsBelowMonotone(a, b, m, n - 1);
    }
  }

  /** `is_similar_id`: the zipped scan, giving up at the second
      difference. */
  method IsSimilarId(a: string, b: string) returns (r: bool)
    ensures r <==> Similar(a, b)
  {
    var diffs := 0;
    var n := MinLength(a, b);
    for i := 0 to n
      invariant diffs == DiffsBelow(a, b, i) && diffs <= 1
    {
      if a[i] != b[i] {
        diffs := diffs + 1;
        if diffs > 1 {
          DiffsBelowMonotone(a, b, i + 1, n);
          return false;
        }
      }
    }
    return diffs == 1;
  }

  /** Exactly one differing position, said the other way round. */
  ghost predicate DiffersOnlyAt(a: string, b: string, i: nat)
  {
    i < MinLength(a, b) && a[i] != b[i] &&
    forall j :: 0 <= j < MinLength(a, b) && j != i ==> a[j] == b[j]
  }

  lemma {:induction false} DiffsBelowZero(a: string, b: string, n: nat)
    requires n <= MinLength(a, b)
    ensures DiffsBelow(a, b, n) == 0 <==> forall j :: 0 <= j < n ==> a[j] == b[j]
    decreases n
  {
    if n > 0 {
      DiffsBelowZero(a, b, n - 1);
    }
  }

  /** Below `n`, the two IDs differ at `i` and nowhere else. */
  ghost predicate OnlyDiffBelow(a: string, b: string, n: nat, i: nat)
    requires n <= MinLength(a, b)
  {
    i < n && a[i] != b[i] && forall j :: 0 <= j < n && j != i ==> a[j] == b[j]
  }

  /** One difference below `n` has a position. */
  lemma {:induction false} DiffsBelowOneAt(a: string, b: string, n: nat)
    requires n <= MinLength(a, b) && DiffsBelow(a, b, n) == 1
    ensures exists i :: OnlyDiffBelow(a, b, n, i)
    decreases n
  {
    if a[n - 1] != b[n - 1] {
      DiffsBelowZero(a, b, n - 1);
      assert OnlyDiffBelow(a, b, n, n - 1);
    } else {
      DiffsBelowOneAt(a, b, n - 1);
      var i :| OnlyDiffBelow(a, b, n - 1, i);
      assert OnlyDiffBelow(a, b, n, i);
    }
  }

  /** A single differing position below `n` is one difference. */
  lemma {:induction false} OnlyDiffBelowCount(a: string, b: string, n: nat, i: nat)
    requires n <= MinLength(a, b) && OnlyDiffBelow(a, b, n, i)
    ensures DiffsBelow(a, b, n) == 1
    decreases n
  {
    if i == n - 1 {
      DiffsBelowZero(a, b, n - 1);
    } else {
      assert OnlyDiffBelow(a, b, n - 1, i);
      OnlyDiffBelowCount(a, b, n - 1, i);
    }
  }

  /** Similar IDs are exactly those that differ in one position of their
      common length. */
  lemma SimilarMeaning(a: string, b: string)
    ensures Similar(a, b) <==> exists i :: DiffersOnlyAt(a, b, i)
  {
    var n := MinLength(a, b);
    if Similar(a, b) {
      DiffsBelowOneAt(a, b, n);
      var i :| OnlyDiffBelow(a, b, n, i);
      assert DiffersOnlyAt(a, b, i);
    }
    if exists i :: DiffersOnlyAt(a, b, i) {
      var i :| DiffersOnlyAt(a, b, i);
      assert OnlyDiffBelow(a, b, n, i);
      OnlyDiffBelowCount(a, b, n, i);
    }
  }

  /** The zipped characters that agree, in order. */
  function Shared(a: string, b: string): string
    decreases |a|
  {
    if a == [] || b == [] then []
    else
      var rest := Shared(a[1..], b[1..]);
      if a[0] == b[0] then [a[0]] + rest else rest
  }

  /** Every position of the common length is either shared or a
      difference; for similar IDs the answer is one shorter than the
      common length. */
  lemma {:induction false} SharedLength(a: string, b: string)
    ensures |Shared(a, b)| + Diffs(a, b) == MinLength(a, b)
    decreases |a|
  {
    if a != [] && b != [] {
      SharedLength(a[1..], b[1..]);
      DiffsFront(a, b);
    } else {
      assert MinLength(a, b) == 0;
      DiffsBelowZero(a, b, 0);
    }
  }

  /** Counting differences from the front instead of the back. */
  lemma DiffsFront(a: string, b: string)
    requires a != [] && b != []
    ensures Diffs(a, b) == (if a[0] != b[0] then 1 else 0) + Diffs(a[1..], b[1..])
  {
    DiffsBelowFront(a, b, MinLength(a, b));
  }

  lemma {:induction false} DiffsBelowFront(a: string, b: string, n: nat)
    requires 1 <= n <= MinLength(a, b)
    ensures DiffsBelow(a, b, n) == (if a[0] != b[0] then 1 else 0) + DiffsBelow(a[1..], b[1..], n - 1)
  {
    if n > 1 {
      DiffsBelowFront(a, b, n - 1);
    }
  }

  lemma {:induction false} SharedEqual(a: string, b: string, n: nat)
    requires n <= |a| && n <= |b| && forall j :: 0 <= j < n ==> a[j] == b[j]
    ensures Shared(a, b) == a[..n] + Shared(a[n..], b[n..])
    decreases n
  {
    if n > 0 {
      var a', b' := a[1..], b[1..];
      assert forall j :: 0 <= j < n - 1 ==> a'[j] == b'[j];
      SharedEqual(a', b', n - 1);
      FrontSlices(a, n);
      FrontSlices(b, n);
      var tail := Shared(a[n..], b[n..]);
      assert Shared(a', b') == a'[..n - 1] + tail;
      SharedCons(a, b);
      Common.ConsAssoc(a[0], a'[..n - 1], tail);
    } else {
      assert a[..0] == [] && a[0..] == a && b[0..] == b;
    }
  }

  /** Agreeing first characters are shared. */
  lemma SharedCons(a: string, b: string)
    requires a != [] && b != [] && a[0] == b[0]
    ensures Shared(a, b) == [a[0]] + Shared(a[1..], b[1..])
  {
  }

  /** Slices of the tail, seen from the whole sequence. */
  lemma FrontSlices<T>(a: seq<T>, n: nat)
    requires 1 <= n <= |a|
    ensures [a[0]] + a[1..][..n - 1] == a[..n] && a[1..][n - 1..] == a[n..]
  {
  }


  /** For similar IDs the answer is the first one with the differing
      character removed (up to the common length). */
  lemma SharedDropsDifference(a: string, b: string, i: nat)
    requires DiffersOnlyAt(a, b, i)
    ensures Shared(a, b) == a[..i] + a[i + 1..MinLength(a, b)]
  {
    var n := MinLength(a, b);
    SharedEqual(a, b, i);
    var a', b' := a[i..], b[i..];
    assert Shared(a', b') == Shared(a'[1..], b'[1..]);
    assert a'[1..] == a[i + 1..] && b'[1..] == b[i + 1..];
    SharedEqual(a[i + 1..], b[i + 1..], n - i - 1);
    assert a[i + 1..][..n - i - 1] == a[i + 1..n];
    var a'', b'' := a[i + 1..][n - i - 1..], b[i + 1..][n - i - 1..];
    assert a'' == [] || b'' == [];
  }

  /** The pair `(i, j)`, `j < i`, is similar and no pair before it in the
      loops' order (`i` ascending, then `j` ascending) is. */
  ghost predicate FirstSimilar(ids: seq<string>, i: nat, j: nat)
  {
    j < i < |ids| && Similar(ids[i], ids[j]) &&
    forall i', j' :: 0 <= j' < i' < |ids| && (i' < i || (i' == i && j' < j)) ==> !Similar(ids[i'], ids[j'])
  }

  /** `solve_part2`: the shared characters of the first similar pair;
      no similar pair at all is fatal. */
  method SolvePart2(input: string) returns (r: Option<string>)
    ensures r.None? <==> forall i, j :: 0 <= j < i < |Ids(input)| ==> !Similar(Ids(input)[i], Ids(input)[j])
    ensures r.Some? ==> exists i: nat, j: nat :: FirstSimilar(Ids(input), i, j) && r.value == Shared(Ids(input)[i], Ids(input)[j])
  {
    r := FindSimilar(Ids(input));
  }

  /** The nested loops over the pairs `(i, j)`, `j < i`. */
  method FindSimilar(ids: seq<string>) returns (r: Option<string>)
    ensures r.None? <==> forall i, j :: 0 <= j < i < |ids| ==> !Similar(ids[i], ids[j])
    ensures r.Some? ==> exists i: nat, j: nat :: FirstSimilar(ids, i, j) && r.value == Shared(ids[i], ids[j])
  {
    if ids == [] {
      return None;
    }
    for i := 1 to |ids|
      invariant forall i', j' :: 0 <= j' < i' < i ==> !Similar(ids[i'], ids[j'])
    {
      for j := 0 to i
        invariant forall i', j' :: 0 <= j' < i' < |ids| && (i' < i || (i' == i && j' < j)) ==> !Similar(ids[i'], ids[j'])
      {
        var similar := IsSimilarId(ids[i], ids[j]);
        if similar {
          assert FirstSimilar(ids, i, j);
          var shared := SharedOf(ids[i], ids[j]);
          return Some(shared);
        }
      }
    }
    return None;
  }

  /** The zip, filter and collect of the answer. */
  method SharedOf(a: string, b: string) returns (r: string)
    ensures r == Shared(a, b)
  {
    var n := MinLength(a, b);
    r := [];
    assert Shared(a[..0], b[..0]) == [];
    for i := 0 to n
      invariant r == Shared(a[..i], b[..i])
    {
      ghost var pa, pb := a[..i + 1], b[..i + 1];
      SharedSnoc(pa, pb);
      assert pa[..i] == a[..i] && pb[..i] == b[..i];
      if a[i] == b[i] {
        r := r + [a[i]];
      }
    }
    SharedPrefix(a, b);
  }

  /** Only the zipped part matters. */
  lemma SharedPrefix(a: string, b: string)
    ensures Shared(a, b) == Shared(a[..MinLength(a, b)], b[..MinLength(a, b)])
  {
    SharedEqualTake(a, b, MinLength(a, b));
  }

  lemma {:induction false} SharedEqualTake(a: string, b: string, n: nat)
    requires n == MinLength(a, b)
    ensures Shared(a, b) == Shared(a[..n], b[..n])
    decreases n
  {
    if n > 0 {
      SharedEqualTake(a[1..], b[1..], n - 1);
      assert a[..n][1..] == a[1..][..n - 1] && b[..n][1..] == b[1..][..n - 1];
    }
  }

  /** Extending both strings by one character extends the result by that
      character when the two agree. */
  lemma {:induction false} SharedSnoc(a: string, b: string)
    requires |a| == |b| > 0
    ensures Shared(a, b) == Shared(a[..|a| - 1], b[..|b| - 1]) + (if a[|a| - 1] == b[|b| - 1] then [a[|a| - 1]] else [])
    decreases |a|
  {
    if |a| > 1 {
      SharedSnoc(a[1..], b[1..]);
      assert a[1..][..|a| - 2] == a[..|a| - 1][1..];
      assert b[1..][..|b| - 2] == b[..|b| - 1][1..];
    }
  }
}
