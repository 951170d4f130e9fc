/** Day 3: rectangular claims on a sheet of fabric. Part 1 counts the
    square inches covered by two or more claims; part 2 finds the claim
    that overlaps no other. */
module Day03 {
  import opened Common
  import opened Text

  /** A claim "#id @ x,y: widthxheight". */
  datatype Claim = Claim(id: nat, x: nat, y: nat, width: nat, height: nat)

  /** A square inch of fabric. */
  type Inch = (nat, nat)

  predicate Covers(cl: Claim, c: Inch)
  {
    cl.x <= c.0 < cl.x + cl.width && cl.y <= c.1 < cl.y + cl.height
  }

  // ---------------------------------------------------------------------
  // generator

  /** One claim line, split at blanks: the id after the leading '#', the
      corner before the trailing ':' split at ',', and the size split at
      'x'. A missing piece or a number that does not parse is fatal. */
  function ParseClaim(line: string): (r: Option<Claim>)
    ensures r.Some? ==> |SplitOn(line, " ")| >= 4 && |SplitOn(line, " ")[0]| > 0 &&
                        ParseNat(SplitOn(line, " ")[0][1..]) == Some(r.value.id)
    ensures r.Some? ==> var size := SplitOn(SplitOn(line, " ")[3], "x");
                        |size| >= 2 && ParseNat(size[0]) == Some(r.value.width) &&
                        ParseNat(size[1]) == Some(r.value.height)
    ensures r.Some? ==> var piece := SplitOn(line, " ")[2];
                        |piece| > 0 && var corner := SplitOn(piece[..|piece| - 1], ",");
                        |corner| >= 2 && ParseNat(corner[0]) == Some(r.value.x) &&
                        ParseNat(corner[1]) == Some(r.value.y)
  {
    var parts := SplitOn(line, " ");
    if |parts| < 4 || |parts[0]| == 0 || |parts[2]| == 0 then None
    else
      var corner := SplitOn(parts[2][..|parts[2]| - 1], ",");
      var size := SplitOn(parts[3], "x");
      if |corner| < 2 || |size| < 2 then None
      else match (ParseNat(parts[0][1..]), ParseNat(corner[0]), ParseNat(corner[1]), ParseNat(size[0]), ParseNat(size[1]))
        case (Some(id), Some(x), Some(y), Some(w), Some(h)) => Some(Claim(id, x, y, w, h))
        case _ => None
  }

  /** `generator`: one claim per line; a line that is not a claim is
      fatal. */
  function Generator(input: string): (r: Option<seq<Claim>>)
    ensures r.Some? ==> |r.value| == |Lines(input)| &&
                        forall k :: 0 <= k < |Lines(input)| ==> ParseClaim(Lines(input)[k]) == Some(r.value[k])
    ensures r.None? <==> exists k :: 0 <= k < |Lines(input)| && ParseClaim(Lines(input)[k]).None?
  {
    ParseAll(Lines(input), ParseClaim)
  }

  /** The line a claim is written as. */
  function ShowClaim(cl: Claim): string
  {
    JoinWith(["#" + ShowNat(cl.id), "@",
              JoinWith([ShowNat(cl.x), ShowNat(cl.y)], ",") + ":",
              JoinWith([ShowNat(cl.width), ShowNat(cl.height)], "x")], " ")
  }

  /** A numeral holds no separator. */
  lemma DigitsFree(s: string, c: char)
    requires AllDigits(s) && !IsDigit(c)
    ensures c !in s
  {
  }

  /** A claim written out parses back. */
  lemma ParseShowClaim(cl: Claim)
    ensures ParseClaim(ShowClaim(cl)) == Some(cl)
  {
    var id, x, y, w, h := ShowNat(cl.id), ShowNat(cl.x), ShowNat(cl.y), ShowNat(cl.width), ShowNat(cl.height);
    DigitsFree(id, ' '); DigitsFree(x, ' '); DigitsFree(y, ' '); DigitsFree(w, ' '); DigitsFree(h, ' ');
    DigitsFree(x, ','); DigitsFree(y, ',');
    DigitsFree(w, 'x'); DigitsFree(h, 'x');
    var corner := JoinWith([x, y], ",");
    var size := JoinWith([w, h], "x");
    var parts := ["#" + id, "@", corner + ":", size];
    assert ' ' !in corner by {
      assert [x, y][1..] == [y] && JoinWith([y], ",") == y;
      assert corner == x + "," + y;
    }
    assert ' ' !in size by {
      assert [w, h][1..] == [h] && JoinWith([h], "x") == h;
      assert size == w + "x" + h;
    }
    assert ' ' !in "#" + id;
    assert forall p | p in parts :: ' ' !in p;
    SplitJoinRoundTrip(parts, ' ');
    assert (corner + ":")[..|corner + ":"| - 1] == corner;
    SplitJoinRoundTrip([x, y], ',');
    SplitJoinRoundTrip([w, h], 'x');
    assert ("#" + id)[1..] == id;
    NatRoundTrip(cl.id); NatRoundTrip(cl.x); NatRoundTrip(cl.y); NatRoundTrip(cl.width); NatRoundTrip(cl.height);
  }

  // ---------------------------------------------------------------------
  // iterate_coords

  /** The inches (a, y), ..., (a, y + n - 1). */
  function Column(a: nat, y: nat, n: nat): (r: seq<Inch>)
    ensures |r| == n
  {
    if n == 0 then [] else Column(a, y, n - 1) + [(a, y + n - 1)]
  }

  /** The inches of the first `n` columns of the claim, column by column. */
  function CellsUpTo(cl: Claim, n: nat): seq<Inch>
  {
    if n == 0 then [] else CellsUpTo(cl, n - 1) + Column(cl.x + n - 1, cl.y, cl.height)
  }

  lemma {:induction false} CellsUpToLength(cl: Claim, n: nat)
    ensures |CellsUpTo(cl, n)| == n * cl.height
  {
    if n > 0 {
      CellsUpToLength(cl, n - 1);
      assert (n - 1) * cl.height + cl.height == n * cl.height;
    }
  }

  /** `Claim::iterate_coords`: x from `x` to `x + width`, and for each
      x, y from `y` to `y + height`. */
  function Cells(cl: Claim): seq<Inch>
  {
    CellsUpTo(cl, cl.width)
  }

  /** How often `c` occurs in `s`. */
  function Occurrences(s: seq<Inch>, c: Inch): nat
  {
    if s == [] then 0 else Occurrences(s[..|s| - 1], c) + if s[|s| - 1] == c then 1 else 0
  }
  lemma {:induction false} OccurrencesAppend(a: seq<Inch>, b: seq<Inch>, c: Inch)
    ensures Occurrences(a + b, c) == Occurrences(a, c) + Occurrences(b, c)
    decreases |b|
  {
    if b == [] {
      assert a + b == a;
    } else {
      var n := |b| - 1;
      assert (a + b)[..|a + b| - 1] == a + b[..n];
      assert (a + b)[|a + b| - 1] == b[n];
      OccurrencesAppend(a, b[..n], c);
    }
  }
  /** The count is the multiplicity in the multiset of `s`. */
  lemma {:induction false} OccurrencesMultiset(s: seq<Inch>, c: Inch)
    ensures Occurrences(s, c) == multiset(s)[c]
    decreases |s|
  {
    if s != [] {
      var n := |s| - 1;
      OccurrencesMultiset(s[..n], c);
      assert s == s[..n] + [s[n]];
      assert multiset(s) == multiset(s[..n]) + multiset{s[n]};
    }
  }
  lemma {:induction false} ColumnCount(a: nat, y: nat, n: nat, c: Inch)
    ensures Occurrences(Column(a, y, n), c) == if c.0 == a && y <= c.1 < y + n then 1 else 0
  {
    if n > 0 {
      ColumnCount(a, y, n - 1, c);
      OccurrencesAppend(Column(a, y, n - 1), [(a, y + n - 1)], c);
      assert Occurrences([(a, y + n - 1)], c) == if c == (a, y + n - 1) then 1 else 0 by {
        assert [(a, y + n - 1)][..0] == [];
      }
    }
  }
  /** The first `n` columns hold each of their inches once. */
  lemma {:induction false} CellsUpToCount(cl: Claim, n: nat, c: Inch)
    ensures Occurrences(CellsUpTo(cl, n), c) ==
            if cl.x <= c.0 < cl.x + n && cl.y <= c.1 < cl.y + cl.height then 1 else 0
  {
    if n > 0 {
      CellsUpToCount(cl, n - 1, c);
      ColumnCount(cl.x + n - 1, cl.y, cl.height, c);
      OccurrencesAppend(CellsUpTo(cl, n - 1), Column(cl.x + n - 1, cl.y, cl.height), c);
    }
  }

  /** The claim's inches are exactly the ones it covers, each once, and
      there are width times height of them. */
  lemma CellsExact(cl: Claim, c: Inch)
    ensures |Cells(cl)| == cl.width * cl.height
    ensures multiset(Cells(cl))[c] == if Covers(cl, c) then 1 else 0
    ensures c in Cells(cl) <==> Covers(cl, c)
  {
    CellsUpToCount(cl, cl.width, c);
    OccurrencesMultiset(Cells(cl), c);
    CellsUpToLength(cl, cl.width);
  }

  // ---------------------------------------------------------------------
  // count_coords

  /** The inches of every claim, claim by claim. */
  function AllCells(claims: seq<Claim>): seq<Inch>
  {
    if claims == [] then [] else AllCells(claims[..|claims| - 1]) + Cells(claims[|claims| - 1])
  }

  /** The number of claims covering an inch. */
  function Coverage(claims: seq<Claim>, c: Inch): (n: nat)
    ensures n <= |claims|
  {
    if claims == [] then 0
    else Coverage(claims[..|claims| - 1], c) + (if Covers(claims[|claims| - 1], c) then 1 else 0)
  }

  /** The counter map after a sequence of increments. */
  function Tally(cells: seq<Inch>): map<Inch, nat>
  {
    if cells == [] then map[]
    else
      var m := Tally(cells[..|cells| - 1]);
      var c := cells[|cells| - 1];
      m[c := if c in m then m[c] + 1 else 1]
  }

  /** The counter holds every inch seen, with the number of times seen. */
  lemma {:induction false} TallyIsMultiset(cells: seq<Inch>, c: Inch)
    ensures c in Tally(cells) <==> multiset(cells)[c] > 0
    ensures c in Tally(cells) ==> Tally(cells)[c] == multiset(cells)[c]
  {
    if cells != [] {
      TallyIsMultiset(cells[..|cells| - 1], c);
      assert cells == cells[..|cells| - 1] + [cells[|cells| - 1]];
    }
  }

  lemma {:induction false} AllCellsCoverage(claims: seq<Claim>, c: Inch)
    ensures multiset(AllCells(claims))[c] == Coverage(claims, c)
  {
    if claims != [] {
      AllCellsCoverage(claims[..|claims| - 1], c);
      CellsExact(claims[|claims| - 1], c);
    }
  }

  /** `count_coords` as a value. */
  function Counts(claims: seq<Claim>): map<Inch, nat>
  {
    Tally(AllCells(claims))
  }

  /** The counter holds exactly the covered inches, each with the number
      of claims covering it. */
  lemma CountsCoverage(claims: seq<Claim>, c: Inch)
    ensures c in Counts(claims) <==> Coverage(claims, c) > 0
    ensures c in Counts(claims) ==> Counts(claims)[c] == Coverage(claims, c)
  {
    TallyIsMultiset(AllCells(claims), c);
    AllCellsCoverage(claims, c);
  }

  /** `count_coords`: one increment per inch of every claim. */
  method CountCoords(claims: seq<Claim>) returns (res: map<Inch, nat>)
    ensures res == Counts(claims)
  {
    var cells := AllCells(claims);
    res := map[];
    for i := 0 to |cells|
      invariant res == Tally(cells[..i])
    {
      var c := cells[i];
      assert cells[..i + 1][..i] == cells[..i];
      if c in res {
        res := res[c := res[c] + 1];
      } else {
        res := res[c := 1];
      }
    }
    assert cells[..|cells|] == cells;
  }

  // ---------------------------------------------------------------------
  // part 1

  /** The inches whose count is above 1. */
  function Overlapped(claims: seq<Claim>): set<Inch>
  {
    var counts := Counts(claims);
    set c | c in counts && counts[c] > 1
  }

  /** `solve_part1`: the number of counts above 1. */
  function Part1(claims: seq<Claim>): (r: nat)
    ensures r == |Overlapped(claims)|
    ensures forall c :: c in Overlapped(claims) <==> Coverage(claims, c) >= 2
  {
    OverlappedIsCovered(claims);
    |Overlapped(claims)|
  }

  lemma OverlappedIsCovered(claims: seq<Claim>)
    ensures forall c :: c in Overlapped(claims) <==> Coverage(claims, c) >= 2
  {
    forall c: Inch
      ensures c in Overlapped(claims) <==> Coverage(claims, c) >= 2
    {
      OverlappedMeaning(claims, c);
    }
  }

  /** An inch is counted in part 1 exactly when two or more claims cover
      it. */
  lemma OverlappedMeaning(claims: seq<Claim>, c: Inch)
    ensures c in Overlapped(claims) <==> Coverage(claims, c) >= 2
  {
    CountsCoverage(claims, c);
  }

  /** The three claims of the example overlap in four inches. */
  lemma SamplePart1(claims: seq<Claim>)
    requires claims == [Claim(1, 1, 3, 4, 4), Claim(2, 3, 1, 4, 4), Claim(3, 5, 5, 2, 2)]
    ensures Part1(claims) == 4
  {
    var expected: set<Inch> := {(3, 3), (3, 4), (4, 3), (4, 4)};
    forall c: Inch
      ensures c in Overlapped(claims) <==> c in expected
    {
      OverlappedMeaning(claims, c);
      assert claims[..2][..1] == [claims[0]] && claims[..2] == [claims[0], claims[1]];
      assert [claims[0]][..0] == [];
      assert Coverage([claims[0]], c) == if Covers(claims[0], c) then 1 else 0;
      assert Coverage(claims[..2], c) == Coverage([claims[0]], c) + (if Covers(claims[1], c) then 1 else 0);
      assert Coverage(claims, c) ==
             (if Covers(claims[0], c) then 1 else 0) + (if Covers(claims[1], c) then 1 else 0) +
             (if Covers(claims[2], c) then 1 else 0);
    }
    assert Overlapped(claims) == expected;
  }

  // ---------------------------------------------------------------------
  // part 2

  /** Every inch of the claim has count at most 1 (exactly 1, as the
      claim itself counts it). */
  predicate Intact(counts: map<Inch, nat>, cl: Claim)
  {
    forall i :: 0 <= i < |Cells(cl)| ==> Cells(cl)[i] in counts && counts[Cells(cl)[i]] <= 1
  }

  /** The id of the first intact claim from index `k` on. */
  function FirstIntact(claims: seq<Claim>, counts: map<Inch, nat>, k: nat): (r: Option<nat>)
    requires k <= |claims|
    decreases |claims| - k
  {
    if k == |claims| then None
    else if Intact(counts, claims[k]) then Some(claims[k].id)
    else FirstIntact(claims, counts, k + 1)
  }

  /** `solve_part2`: the first claim all of whose counts are 1; none is
      fatal. */
  function Part2(claims: seq<Claim>): (r: Option<nat>)
    ensures r.None? <==> forall i :: 0 <= i < |claims| ==> OverlapsOther(claims, i)
    ensures r.Some? ==> exists i :: 0 <= i < |claims| && r.value == claims[i].id && !OverlapsOther(claims, i) &&
                                    forall i' :: 0 <= i' < i ==> OverlapsOther(claims, i')
  {
    FirstIntactMeaning(claims, Counts(claims), 0);
    AllIntactMeaning(claims);
    FirstIntact(claims, Counts(claims), 0)
  }

  /** Claim `i` overlaps some other claim. */
  ghost predicate OverlapsOther(claims: seq<Claim>, i: nat)
    requires i < |claims|
  {
    exists j :: 0 <= j < |claims| && j != i && Overlap(claims[i], claims[j])
  }

  lemma AllIntactMeaning(claims: seq<Claim>)
    ensures forall k :: 0 <= k < |claims| ==> (Intact(Counts(claims), claims[k]) <==> !OverlapsOther(claims, k))
  {
    forall k | 0 <= k < |claims|
      ensures Intact(Counts(claims), claims[k]) <==> !OverlapsOther(claims, k)
    {
      IntactMeaning(claims, k);
    }
  }

  /** An inch of claim `k` has count 1 exactly when no other claim
      covers it. */
  lemma {:induction false} CoverageOne(claims: seq<Claim>, k: nat, c: Inch)
    requires k < |claims| && Covers(claims[k], c)
    ensures Coverage(claims, c) >= 1
    ensures Coverage(claims, c) == 1 <==> forall j :: 0 <= j < |claims| && j != k ==> !Covers(claims[j], c)
  {
    var init := claims[..|claims| - 1];
    if k < |claims| - 1 {
      CoverageOne(init, k, c);
      assert forall j :: 0 <= j < |init| ==> init[j] == claims[j];
    } else {
      CoverageZero(init, c);
      assert forall j :: 0 <= j < |init| ==> init[j] == claims[j];
    }
  }

  lemma {:induction false} CoverageZero(claims: seq<Claim>, c: Inch)
    ensures Coverage(claims, c) == 0 <==> forall j :: 0 <= j < |claims| ==> !Covers(claims[j], c)
  {
    if claims != [] {
      var init := claims[..|claims| - 1];
      CoverageZero(init, c);
      assert forall j :: 0 <= j < |init| ==> init[j] == claims[j];
    }
  }

  /** Two claims overlap when some inch is covered by both. */
  ghost predicate Overlap(a: Claim, b: Claim)
  {
    exists c: Inch :: Covers(a, c) && Covers(b, c)
  }

  /** A claim is intact exactly when it overlaps no other claim. */
  lemma IntactMeaning(claims: seq<Claim>, k: nat)
    requires k < |claims|
    ensures Intact(Counts(claims), claims[k]) <==>
            forall j :: 0 <= j < |claims| && j != k ==> !Overlap(claims[k], claims[j])
  {
    var cl := claims[k];
    var counts := Counts(claims);
    if Intact(counts, cl) {
      forall j | 0 <= j < |claims| && j != k
        ensures !Overlap(cl, claims[j])
      {
        if Overlap(cl, claims[j]) {
          var c: Inch :| Covers(cl, c) && Covers(claims[j], c);
          CellsExact(cl, c);
          var i :| 0 <= i < |Cells(cl)| && Cells(cl)[i] == c;
          CountsCoverage(claims, c);
          CoverageOne(claims, k, c);
          assert false;
        }
      }
    } else {
      var i :| 0 <= i < |Cells(cl)| && !(Cells(cl)[i] in counts && counts[Cells(cl)[i]] <= 1);
      var c := Cells(cl)[i];
      CellsExact(cl, c);
      CountsCoverage(claims, c);
      CoverageOne(claims, k, c);
      var j :| 0 <= j < |claims| && j != k && Covers(claims[j], c);
      assert Overlap(cl, claims[j]);
    }
  }

  /** The answer of part 2: the id of the first claim that overlaps no
      other; none when every claim overlaps another. */
  lemma {:induction false} FirstIntactMeaning(claims: seq<Claim>, counts: map<Inch, nat>, k: nat)
    requires k <= |claims|
    ensures var r := FirstIntact(claims, counts, k);
            (r.None? <==> forall i :: k <= i < |claims| ==> !Intact(counts, claims[i])) &&
            (r.Some? ==> exists i :: k <= i < |claims| && r.value == claims[i].id &&
                                     Intact(counts, claims[i]) &&
                                     forall i' :: k <= i' < i ==> !Intact(counts, claims[i']))
    decreases |claims| - k
  {
    if k < |claims| {
      if Intact(counts, claims[k]) {
        assert FirstIntact(claims, counts, k) == Some(claims[k].id);
      } else {
        FirstIntactMeaning(claims, counts, k + 1);
        assert FirstIntact(claims, counts, k) == FirstIntact(claims, counts, k + 1);
        var r := FirstIntact(claims, counts, k + 1);
        if r.Some? {
          var i :| k + 1 <= i < |claims| && r.value == claims[i].id && Intact(counts, claims[i]) &&
                   forall i' :: k + 1 <= i' < i ==> !Intact(counts, claims[i']);
          assert forall i' :: k <= i' < i ==> !Intact(counts, claims[i']);
        }
      }
    }
  }

  /** `solve_part2`: the labelled loop over the claims, leaving a claim
      as soon as one of its inches has a count above 1. */
  method SolvePart2(claims: seq<Claim>) returns (r: Option<nat>)
    ensures r == Part2(claims)
  {
    var counts := CountCoords(claims);
    for k := 0 to |claims|
      invariant FirstIntact(claims, counts, k) == Part2(claims)
    {
      var cells := Cells(claims[k]);
      var clean := true;
      for i := 0 to |cells|
        invariant clean <==> forall i' :: 0 <= i' < i ==> cells[i'] in counts && counts[cells[i']] <= 1
      {
        if cells[i] !in counts || counts[cells[i]] > 1 {
          clean := false;
          break;
        }
      }
      if clean {
        return Some(claims[k].id);
      }
    }
    return None;
  }
}
