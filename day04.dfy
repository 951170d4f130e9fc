/** Day 4: the guards' sleep log. The lines are sorted (their timestamps
    sort as text), then replayed: a "Guard" line changes the guard on duty,
    "falls asleep" notes the minute, and "wakes up" credits the minutes in
    between to the guard, in total and minute by minute. Part 1 multiplies
    the sleepiest guard by their most slept minute; part 2 the guard and
    minute of the largest per-minute count. */
module Day04 {
  import opened Common
  import opened Text
  import opened Sorting

  // ---------------------------------------------------------------------
  // sorting the lines

  /** `str`'s `Ord`: lexicographic by character. */
  predicate TextLe(a: string, b: string)
  {
    if a == [] then true
    else if b == [] then false
    else if a[0] != b[0] then a[0] < b[0]
    else TextLe(a[1..], b[1..])
  }

  lemma {:induction false} TextLeTotal(a: string, b: string)
    ensures TextLe(a, b) || TextLe(b, a)
  {
    if a != [] && b != [] && a[0] == b[0] {
      TextLeTotal(a[1..], b[1..]);
    }
  }

  lemma {:induction false} TextLeTransitive(a: string, b: string, c: string)
    requires TextLe(a, b) && TextLe(b, c)
    ensures TextLe(a, c)
  {
    if a != [] && b != [] && c != [] && a[0] == b[0] && b[0] == c[0] {
      TextLeTransitive(a[1..], b[1..], c[1..]);
    }
  }

  lemma TextLePreorder()
    ensures TotalPreorder(TextLe)
  {
    forall a, b ensures TextLe(a, b) || TextLe(b, a) {
      TextLeTotal(a, b);
    }
    forall a, b, c | TextLe(a, b) && TextLe(b, c) ensures TextLe(a, c) {
      TextLeTransitive(a, b, c);
    }
  }

  /** `lines.sort()`: the lines in order, a permutation of the input's. */
  function SortedLines(input: string): (r: seq<string>)
    ensures multiset(r) == multiset(Lines(input))
    ensures SortedBy(r, TextLe)
  {
    TextLePreorder();
    SortBySorted(Lines(input), TextLe);
    SortByPermutation(Lines(input), TextLe);
    SortBy(Lines(input), TextLe)
  }

  // ---------------------------------------------------------------------
  // parsing

  /** What a line of the log says. */
  datatype Event = Guard(id: nat) | Falls(minute: nat) | Wakes(minute: nat)

  /** The timestamp "[1518-11-05 00:55] " before the words. */
  const WordsOffset: nat := 19

  /** The timestamp up to the minutes, "[1518-11-05 00:". */
  const MinutesOffset: nat := 15

  /** `parse_minutes`: the two characters of the minutes as a `u8`. */
  function ParseMinutes(line: string): (r: Option<nat>)
    ensures r.Some? ==> r.value < 100
  {
    if |line| < MinutesOffset + 2 then None
    else
      var s := line[MinutesOffset..MinutesOffset + 2];
      TwoDigitsBelow100(s);
      ParseNat(s)
  }

  lemma TwoDigitsBelow100(s: string)
    requires |s| == 2
    ensures ParseNat(s).Some? ==> ParseNat(s).value < 100
  {
    if ParseNat(s).Some? {
      if s[0] == '+' {
        var t := s[1..];
        assert t[..|t| - 1] == [];
        assert DigitsValue(t) == DigitValue(t[0]);
        assert ParseNat(s) == ParseDigits(t);
      } else {
        assert s[..1][..0] == [];
        assert s[..1][0] == s[0];
        assert DigitsValue(s[..1]) == DigitValue(s[0]);
        assert ParseNat(s).value == DigitValue(s[0]) * 10 + DigitValue(s[1]);
      }
    }
  }

  /** One line: the first word after the timestamp decides; a guard's
      number follows the '#' of the second word and must fit a `u16`. Any
      other first word, a short line or a bad number is fatal. */
  function ParseEvent(line: string): (r: Option<Event>)
    ensures r.Some? ==> |line| >= WordsOffset
    ensures r.Some? && r.value.Guard? ==> r.value.id < 0x1_0000
    ensures r.Some? && !r.value.Guard? ==> Some(r.value.minute) == ParseMinutes(line)
  {
    if |line| < WordsOffset then None
    else
      var words := SplitOn(line[WordsOffset..], " ");
      if words[0] == "Guard" then
        if |words| < 2 || |words[1]| == 0 then None
        else match ParseNat(words[1][1..])
          case Some(id) => if id < 0x1_0000 then Some(Guard(id)) else None
          case None => None
      else if words[0] == "falls" then
        match ParseMinutes(line)
        case Some(m) => Some(Falls(m))
        case None => None
      else if words[0] == "wakes" then
        match ParseMinutes(line)
        case Some(m) => Some(Wakes(m))
        case None => None
      else None
  }

  // ---------------------------------------------------------------------
  // the log-processing loop (hash map variants)

  /** The loop's state: the guard on duty, the minute they fell asleep,
      the minutes slept per guard and the naps per guard and minute. */
  datatype Log = Log(guard: nat, start: nat, totals: map<nat, nat>, counts: map<(nat, nat), nat>)

  const Initial: Log := Log(0, 0, map[], map[])

  /** A map entry, 0 when absent (`unwrap_or(&0)`). */
  function Get(counts: map<(nat, nat), nat>, g: nat, m: nat): nat
  {
    if (g, m) in counts then counts[(g, m)] else 0
  }

  function Total(totals: map<nat, nat>, g: nat): nat
  {
    if g in totals then totals[g] else 0
  }

  /** The inner loop: one increment for each minute in `start..end`. */
  function CountMinutes(counts: map<(nat, nat), nat>, g: nat, start: nat, end: nat): (r: map<(nat, nat), nat>)
    ensures forall k :: k in r <==> k in counts || (k.0 == g && start <= k.1 < end)
    decreases end
  {
    if end <= start then counts
    else
      var c := CountMinutes(counts, g, start, end - 1);
      c[(g, end - 1) := Get(c, g, end - 1) + 1]
  }

  /** Each minute of the nap counts once more, every other entry stays. */
  lemma {:induction false} CountMinutesGet(counts: map<(nat, nat), nat>, g: nat, start: nat, end: nat, g': nat, m: nat)
    ensures Get(CountMinutes(counts, g, start, end), g', m) ==
            Get(counts, g', m) + (if g' == g && start <= m < end then 1 else 0)
    decreases end
  {
    if end > start {
      CountMinutesGet(counts, g, start, end - 1, g', m);
    }
  }

  /** One event: a "wakes" line before the nap's start underflows the
      `u8` subtraction, which is fatal. */
  function Apply(log: Log, e: Event): (r: Option<Log>)
    ensures e.Wakes? ==> (r.None? <==> e.minute < log.start)
    ensures r.Some? && e.Wakes? ==>
              r.value.totals == log.totals[log.guard := Total(log.totals, log.guard) + (e.minute - log.start)] &&
              r.value.guard == log.guard && r.value.start == log.start
    ensures r.Some? && e.Guard? ==> r.value == log.(guard := e.id)
    ensures r.Some? && e.Falls? ==> r.value == log.(start := e.minute)
  {
    match e
    case Guard(id) => Some(log.(guard := id))
    case Falls(m) => Some(log.(start := m))
    case Wakes(end) =>
      if end < log.start then None
      else
        var sleep := end - log.start;
        Some(log.(totals := log.totals[log.guard := Total(log.totals, log.guard) + sleep],
                  counts := CountMinutes(log.counts, log.guard, log.start, end)))
  }

  /** The loop over the lines from a given state; a line that does not
      parse, or an event that fails, is fatal. */
  function Run(log: Log, lines: seq<string>): Option<Log>
    decreases |lines|
  {
    if lines == [] then Some(log)
    else match ParseEvent(lines[0])
      case None => None
      case Some(e) =>
        match Apply(log, e)
        case None => None
        case Some(next) => Run(next, lines[1..])
  }

  /** The loop body for one line, with the inner minute loop. */
  method Step(log: Log, line: string) returns (r: Option<Log>)
    ensures r == match ParseEvent(line) case None => None case Some(e) => Apply(log, e)
  {
    var e := ParseEvent(line);
    if e.None? {
      return None;
    }
    match e.value {
      case Guard(id) =>
        return Some(log.(guard := id));
      case Falls(m) =>
        return Some(log.(start := m));
      case Wakes(end) =>
        if end < log.start {
          return None;
        }
        var next := Nap(log, end);
        return Some(next);
    }
  }

  /** A "wakes" line after the nap's start. */
  method Nap(log: Log, end: nat) returns (r: Log)
    requires log.start <= end
    ensures Some(r) == Apply(log, Wakes(end))
  {
    var totals := log.totals[log.guard := Total(log.totals, log.guard) + (end - log.start)];
    var counts := CountNap(log.counts, log.guard, log.start, end);
    return log.(totals := totals, counts := counts);
  }

  /** The minute loop of a nap on its own. */
  method CountNap(counts0: map<(nat, nat), nat>, g: nat, start: nat, end: nat) returns (counts: map<(nat, nat), nat>)
    requires start <= end
    ensures counts == CountMinutes(counts0, g, start, end)
  {
    counts := counts0;
    for minute := start to end
      invariant counts == CountMinutes(counts0, g, start, minute)
    {
      counts := counts[(g, minute) := Get(counts, g, minute) + 1];
    }
  }


  /** The loop over the sorted lines. */
  method Process(lines: seq<string>) returns (r: Option<Log>)
    ensures r == Run(Initial, lines)
  {
    var log := Initial;
    for i := 0 to |lines|
      invariant Run(Initial, lines) == Run(log, lines[i..])
    {
      assert lines[i..][1..] == lines[i + 1..];
      var next := Step(log, lines[i]);
      if next.None? {
        return None;
      }
      log := next.value;
    }
    return Some(log);
  }

  // ---------------------------------------------------------------------
  // the totals are the per-minute counts summed

  /** The naps of guard `g` over the minutes below `n`. */
  function SumMinutes(counts: map<(nat, nat), nat>, g: nat, n: nat): nat
  {
    if n == 0 then 0 else SumMinutes(counts, g, n - 1) + Get(counts, g, n - 1)
  }

  /** A nap within the minutes below `n` adds its length to the sum. */
  lemma {:induction false} SumMinutesNap(counts: map<(nat, nat), nat>, g: nat, start: nat, end: nat, g': nat, n: nat)
    requires start <= end
    ensures SumMinutes(CountMinutes(counts, g, start, end), g', n) ==
            SumMinutes(counts, g', n) + (if g' == g then Between(start, end, n) else 0)
  {
    if n > 0 {
      SumMinutesNap(counts, g, start, end, g', n - 1);
      CountMinutesGet(counts, g, start, end, g', n - 1);
    }
  }

  /** The number of minutes below `n` in `start..end`. */
  function Between(start: nat, end: nat, n: nat): nat
  {
    if n == 0 then 0 else Between(start, end, n - 1) + (if start <= n - 1 < end then 1 else 0)
  }

  lemma {:induction false} BetweenAll(start: nat, end: nat, n: nat)
    requires start <= end <= n
    ensures Between(start, end, n) == end - start
  {
    if n > end {
      BetweenAll(start, end, n - 1);
    } else if n > start {
      BetweenAll(start, end - 1, n - 1);
      BetweenShrink(start, end, n - 1);
    } else {
      BetweenNone(start, end, n);
    }
  }

  lemma {:induction false} BetweenShrink(start: nat, end: nat, n: nat)
    requires n < end
    ensures Between(start, end, n) == Between(start, end - 1, n)
  {
    if n > 0 {
      BetweenShrink(start, end, n - 1);
    }
  }

  lemma {:induction false} BetweenNone(start: nat, end: nat, n: nat)
    requires n <= start
    ensures Between(start, end, n) == 0
  {
    if n > 0 {
      BetweenNone(start, end, n - 1);
    }
  }

  /** The state keeps its minutes below 100 (two digits), and each guard's
      total is the sum of their per-minute counts. */
  ghost predicate Consistent(log: Log)
  {
    log.start < 100 &&
    (forall g :: Total(log.totals, g) == SumMinutes(log.counts, g, 100))
  }

  lemma ApplyConsistent(log: Log, e: Event)
    requires Consistent(log)
    requires e.Falls? || e.Wakes? ==> e.minute < 100
    ensures Apply(log, e).Some? ==> Consistent(Apply(log, e).value)
  {
    if e.Wakes? && Apply(log, e).Some? {
      var r := Apply(log, e).value;
      forall g ensures Total(r.totals, g) == SumMinutes(r.counts, g, 100) {
        SumMinutesNap(log.counts, log.guard, log.start, e.minute, g, 100);
        BetweenAll(log.start, e.minute, 100);
      }
    }
  }

  /** The minutes a guard slept in total are their per-minute counts
      summed, after any prefix of a log. */
  lemma {:induction false} RunConsistent(log: Log, lines: seq<string>)
    requires Consistent(log)
    ensures Run(log, lines).Some? ==> Consistent(Run(log, lines).value)
    decreases |lines|
  {
    if lines != [] {
      var e := ParseEvent(lines[0]);
      if e.Some? {
        ApplyConsistent(log, e.value);
        if Apply(log, e.value).Some? {
          RunConsistent(Apply(log, e.value).value, lines[1..]);
        }
      }
    }
  }

  lemma InitialConsistent()
    ensures Consistent(Initial)
  {
    forall g ensures Total(Initial.totals, g) == SumMinutes(Initial.counts, g, 100) {
      SumMinutesEmpty(g, 100);
    }
  }

  lemma {:induction false} SumMinutesEmpty(g: nat, n: nat)
    ensures SumMinutes(map[], g, n) == 0
  {
    if n > 0 {
      SumMinutesEmpty(g, n - 1);
    }
  }

  // ---------------------------------------------------------------------
  // part 2's loop (hash map variant): no subtraction, so nothing underflows

  /** Part 2's event step. It keeps no totals, so a "wakes" line before the
      nap's start only walks the empty range `start..end`: it counts no
      minute and is not fatal. */
  function Tally(log: Log, e: Event): (r: Log)
    ensures r.totals == log.totals
    ensures e.Wakes? && e.minute <= log.start ==> r == log
    ensures Apply(log, e).Some? ==>
              r.guard == Apply(log, e).value.guard && r.start == Apply(log, e).value.start &&
              r.counts == Apply(log, e).value.counts
  {
    match e
    case Guard(id) => log.(guard := id)
    case Falls(m) => log.(start := m)
    case Wakes(end) => log.(counts := CountMinutes(log.counts, log.guard, log.start, end))
  }

  /** Part 2's loop over the lines; only a line that does not parse is
      fatal. */
  function TallyRun(log: Log, lines: seq<string>): Option<Log>
    decreases |lines|
  {
    if lines == [] then Some(log)
    else match ParseEvent(lines[0])
      case None => None
      case Some(e) => TallyRun(Tally(log, e), lines[1..])
  }

  /** Part 2's loop fails exactly when some line does not parse. */
  lemma {:induction false} TallyRunFails(log: Log, lines: seq<string>)
    ensures TallyRun(log, lines).None? <==> exists i :: 0 <= i < |lines| && ParseEvent(lines[i]).None?
    decreases |lines|
  {
    if lines != [] && ParseEvent(lines[0]).Some? {
      var rest := lines[1..];
      TallyRunFails(Tally(log, ParseEvent(lines[0]).value), rest);
      if exists i :: 0 <= i < |lines| && ParseEvent(lines[i]).None? {
        var i :| 0 <= i < |lines| && ParseEvent(lines[i]).None?;
        assert rest[i - 1] == lines[i];
      }
      if exists i :: 0 <= i < |rest| && ParseEvent(rest[i]).None? {
        var i :| 0 <= i < |rest| && ParseEvent(rest[i]).None?;
        assert lines[i + 1] == rest[i];
      }
    }
  }

  /** Two states that agree on all that part 2 reads. */
  predicate SameTally(a: Log, b: Log)
  {
    a.guard == b.guard && a.start == b.start && a.counts == b.counts
  }

  /** Whenever part 1's loop gets through the log, part 2's does too, with
      the same per-minute counts: the two differ only on the logs part 1
      rejects. */
  lemma {:induction false} TallyRunAgrees(log: Log, tally: Log, lines: seq<string>)
    requires SameTally(log, tally)
    ensures Run(log, lines).Some? ==>
              TallyRun(tally, lines).Some? && SameTally(Run(log, lines).value, TallyRun(tally, lines).value)
    decreases |lines|
  {
    if lines != [] {
      var e := ParseEvent(lines[0]);
      if e.Some? && Apply(log, e.value).Some? {
        assert SameTally(Apply(log, e.value).value, Tally(tally, e.value));
        TallyRunAgrees(Apply(log, e.value).value, Tally(tally, e.value), lines[1..]);
      }
    }
  }

  /** The loop body of part 2 for one line. */
  method TallyStep(log: Log, line: string) returns (r: Option<Log>)
    ensures r == match ParseEvent(line) case None => None case Some(e) => Some(Tally(log, e))
  {
    var e := ParseEvent(line);
    if e.None? {
      return None;
    }
    match e.value {
      case Guard(id) =>
        return Some(log.(guard := id));
      case Falls(m) =>
        return Some(log.(start := m));
      case Wakes(end) =>
        var counts := log.counts;
        if log.start <= end {
          counts := CountNap(log.counts, log.guard, log.start, end);
        }
        return Some(log.(counts := counts));
    }
  }

  /** Part 2's loop over the sorted lines. */
  method TallyProcess(lines: seq<string>) returns (r: Option<Log>)
    ensures r == TallyRun(Initial, lines)
  {
    var log := Initial;
    for i := 0 to |lines|
      invariant TallyRun(Initial, lines) == TallyRun(log, lines[i..])
    {
      assert lines[i..][1..] == lines[i + 1..];
      var next := TallyStep(log, lines[i]);
      if next.None? {
        return None;
      }
      log := next.value;
    }
    return Some(log);
  }

  /** Part 2's replay of the whole log in timestamp order. */
  function TallyReplay(input: string): Option<Log>
  {
    TallyRun(Initial, SortedLines(input))
  }

  method TallyReplayLog(input: string) returns (r: Option<Log>)
    ensures r == TallyReplay(input)
  {
    r := TallyProcess(SortedLines(input));
  }

  /** Part 2 replays every log part 1 replays, to the same counts, and
      fails only on a line that does not parse. */
  lemma TallyReplayAgrees(input: string)
    ensures Replay(input).Some? ==>
              TallyReplay(input).Some? && TallyReplay(input).value.counts == Replay(input).value.counts
    ensures TallyReplay(input).None? <==>
              exists i :: 0 <= i < |SortedLines(input)| && ParseEvent(SortedLines(input)[i]).None?
  {
    TallyRunAgrees(Initial, Initial, SortedLines(input));
    TallyRunFails(Initial, SortedLines(input));
  }

  // ---------------------------------------------------------------------
  // the answers

  /** `(0..60).max_by_key(...)` over a guard's counts: the last minute
      below `n` with the largest count. */
  function BestMinute(counts: map<(nat, nat), nat>, g: nat, n: nat): (m: nat)
    requires n >= 1
    ensures m < n
    ensures forall k :: 0 <= k < n ==> Get(counts, g, k) <= Get(counts, g, m)
    ensures forall k :: m < k < n ==> Get(counts, g, k) < Get(counts, g, m)
  {
    if n == 1 then 0
    else
      var b := BestMinute(counts, g, n - 1);
      if Get(counts, g, n - 1) >= Get(counts, g, b) then n - 1 else b
  }

  /** The answers' product of a guard's number and a minute. */
  function Times(a: nat, b: nat): nat
  {
    a * b
  }

  /** A guard with the most minutes asleep. */
  predicate Sleepiest(totals: map<nat, nat>, g: nat)
  {
    g in totals && forall g' :: g' in totals ==> totals[g'] <= totals[g]
  }

  /** What part 1 may answer for a processed log: some sleepiest guard
      (the hash map's order picks which) times their best minute. */
  ghost predicate Part1Answer(log: Log, answer: nat)
  {
    exists g: nat :: Sleepiest(log.totals, g) && answer == Times(g, BestMinute(log.counts, g, 60))
  }

  lemma Part1AnswerOf(log: Log, g: nat)
    requires Sleepiest(log.totals, g)
    ensures Part1Answer(log, Times(g, BestMinute(log.counts, g, 60)))
  {
  }

  /** What part 2 may answer: guard times minute of some largest count. */
  ghost predicate Part2Answer(log: Log, answer: nat)
  {
    exists k :: k in log.counts && (forall k' :: k' in log.counts ==> log.counts[k'] <= log.counts[k]) &&
                answer == Times(k.0, k.1)
  }

  /** The whole log replayed in timestamp order. */
  function Replay(input: string): Option<Log>
  {
    Run(Initial, SortedLines(input))
  }

  /** Sorting and the loop, as both parts begin. */
  method ReplayLog(input: string) returns (r: Option<Log>)
    ensures r == Replay(input)
  {
    r := Process(SortedLines(input));
  }

  /** `max_by_key` over the guards' totals, in whatever order the keys
      come. */
  method SleepiestGuard(totals: map<nat, nat>) returns (g: nat)
    requires |totals| > 0
    ensures Sleepiest(totals, g)
  {
    var keys := totals.Keys;
    g :| g in keys;
    keys := keys - {g};
    while keys != {}
      invariant keys <= totals.Keys && g in totals
      invariant forall g' :: g' in totals && g' !in keys ==> totals[g'] <= totals[g]
      decreases |keys|
    {
      var next :| next in keys;
      if totals[next] >= totals[g] {
        g := next;
      }
      keys := keys - {next};
    }
  }

  /** `max_by_key` over the minutes of one guard. */
  method FindBestMinute(counts: map<(nat, nat), nat>, g: nat) returns (best: nat)
    ensures best == BestMinute(counts, g, 60)
  {
    best := 0;
    for m := 1 to 60
      invariant best == BestMinute(counts, g, m)
    {
      var c := if (g, m) in counts then counts[(g, m)] else 0;
      if c >= Get(counts, g, best) {
        best := m;
      }
    }
  }

  /** `solve_part1` (hash map variant): sort, replay, then the sleepiest
      guard times their best minute. No line at all asleep leaves no guard
      to pick, which is fatal. */
  method SolvePart1(input: string) returns (r: Option<nat>)
    ensures r.Some? <==> Replay(input).Some? && |Replay(input).value.totals| > 0
    ensures r.Some? ==> Part1Answer(Replay(input).value, r.value)
  {
    var log := ReplayLog(input);
    if log.None? || |log.value.totals| == 0 {
      return None;
    }
    var g := SleepiestGuard(log.value.totals);
    var minute := FindBestMinute(log.value.counts, g);
    Part1AnswerOf(log.value, g);
    return Some(Times(g, minute));
  }

  /** `solve_part2` (hash map variant): guard times minute of a largest
      per-minute count; no minute counted at all is fatal. */
  method SolvePart2(input: string) returns (r: Option<nat>)
    ensures r.Some? <==> TallyReplay(input).Some? && |TallyReplay(input).value.counts| > 0
    ensures r.Some? ==> Part2Answer(TallyReplay(input).value, r.value)
  {
    var log := TallyReplayLog(input);
    if log.None? || |log.value.counts| == 0 {
      return None;
    }
    var best := LargestCount(log.value.counts);
    return Some(Times(best.0, best.1));
  }

  /** `max_by_key` over the (guard, minute) counts. */
  method LargestCount(counts: map<(nat, nat), nat>) returns (best: (nat, nat))
    requires |counts| > 0
    ensures best in counts && forall k :: k in counts ==> counts[k] <= counts[best]
  {
    var keys := counts.Keys;
    best :| best in keys;
    keys := keys - {best};
    while keys != {}
      invariant keys <= counts.Keys && best in counts
      invariant forall k :: k in counts && k !in keys ==> counts[k] <= counts[best]
      decreases |keys|
    {
      var next :| next in keys;
      if counts[next] >= counts[best] {
        best := next;
      }
      keys := keys - {next};
    }
  }

  // ---------------------------------------------------------------------
  // the vector variants

  /** The state of `solve_part1_vec` / `solve_part2_vec`: per guard, the
      total and a vector of 60 per-minute counts (part 2's variant keeps
      only the vector). */
  datatype VecLog = VecLog(guard: nat, start: nat, entries: map<nat, (nat, seq<nat>)>)

  const VecInitial: VecLog := VecLog(0, 0, map[])

  function Zeros(n: nat): (s: seq<nat>)
    ensures |s| == n && forall k :: 0 <= k < n ==> s[k] == 0
  {
    if n == 0 then [] else Zeros(n - 1) + [0]
  }

  /** The inner loop on the vector: one increment per minute of
      `start..end`; a minute past the vector's end is fatal. */
  function AddMinutes(v: seq<nat>, start: nat, end: nat): (r: Option<seq<nat>>)
    ensures r.Some? <==> end <= start || end <= |v|
    ensures r.Some? ==> |r.value| == |v| &&
                        forall m :: 0 <= m < |v| ==> r.value[m] == v[m] + (if start <= m < end then 1 else 0)
    decreases end
  {
    if end <= start then Some(v)
    else match AddMinutes(v, start, end - 1)
      case None => None
      case Some(w) => if end - 1 < |w| then Some(w[end - 1 := w[end - 1] + 1]) else None
  }

  function VecApply(log: VecLog, e: Event): Option<VecLog>
  {
    match e
    case Guard(id) => Some(log.(guard := id))
    case Falls(m) => Some(log.(start := m))
    case Wakes(end) =>
      if end < log.start then None
      else
        var entry := if log.guard in log.entries then log.entries[log.guard] else (0, Zeros(60));
        match AddMinutes(entry.1, log.start, end)
        case None => None
        case Some(v) => Some(log.(entries := log.entries[log.guard := (entry.0 + (end - log.start), v)]))
  }

  function VecRun(log: VecLog, lines: seq<string>): Option<VecLog>
    decreases |lines|
  {
    if lines == [] then Some(log)
    else match ParseEvent(lines[0])
      case None => None
      case Some(e) =>
        match VecApply(log, e)
        case None => None
        case Some(next) => VecRun(next, lines[1..])
  }

  /** The two representations hold the same information: the same
      guards, the same totals, and the vector entry of a minute is the
      hash map's count for it; no count lies past minute 59. */
  ghost predicate Agrees(log: Log, v: VecLog)
  {
    CountsAgree(log, v) &&
    (forall g :: g in log.totals <==> g in v.entries) &&
    (forall g :: g in v.entries ==> v.entries[g].0 == log.totals[g])
  }

  /** The per-minute part of that agreement, which is all part 2 keeps:
      a guard may have a vector of zeros but no map count. */
  ghost predicate CountsAgree(log: Log, v: VecLog)
  {
    log.guard == v.guard && log.start == v.start &&
    (forall g :: g in v.entries ==> |v.entries[g].1| == 60) &&
    (forall g, m :: g in v.entries && 0 <= m < 60 ==> v.entries[g].1[m] == Get(log.counts, g, m)) &&
    (forall g, m :: g !in v.entries ==> Get(log.counts, g, m) == 0) &&
    (forall k :: k in log.counts ==> k.1 < 60 && log.counts[k] > 0)
  }

  lemma VecApplyAgrees(log: Log, v: VecLog, e: Event)
    requires Agrees(log, v)
    ensures VecApply(v, e).Some? ==> Apply(log, e).Some? && Agrees(Apply(log, e).value, VecApply(v, e).value)
  {
    if e.Wakes? && VecApply(v, e).Some? {
      VecWakesAgrees(log, v, e.minute);
    }
  }

  /** A nap on the vector and on the map agree once both have run. */
  lemma VecWakesAgrees(log: Log, v: VecLog, end: nat)
    requires Agrees(log, v) && VecApply(v, Wakes(end)).Some?
    ensures Apply(log, Wakes(end)).Some? && Agrees(Apply(log, Wakes(end)).value, VecApply(v, Wakes(end)).value)
  {
    var r := Apply(log, Wakes(end)).value;
    var w := VecApply(v, Wakes(end)).value;
    forall g, m | 0 <= m < 60 && g in w.entries
      ensures w.entries[g].1[m] == Get(r.counts, g, m)
    {
      VecWakesEntry(log, v, end, g, m);
    }
    forall g, m | g !in w.entries
      ensures Get(r.counts, g, m) == 0
    {
      CountMinutesGet(log.counts, log.guard, log.start, end, g, m);
    }
    forall k | k in r.counts
      ensures r.counts[k] > 0
    {
      CountMinutesGet(log.counts, log.guard, log.start, end, k.0, k.1);
    }
  }

  /** One entry of the vector after a nap is the map's count after it. */
  lemma VecWakesEntry(log: Log, v: VecLog, end: nat, g: nat, m: nat)
    requires Agrees(log, v) && VecApply(v, Wakes(end)).Some? && m < 60
    requires g in VecApply(v, Wakes(end)).value.entries
    ensures Apply(log, Wakes(end)).Some?
    ensures m < |VecApply(v, Wakes(end)).value.entries[g].1|
    ensures VecApply(v, Wakes(end)).value.entries[g].1[m] == Get(Apply(log, Wakes(end)).value.counts, g, m)
  {
    CountMinutesGet(log.counts, log.guard, log.start, end, g, m);
  }

  /** Whenever a vector variant gets through the log, the hash map
      variant does too, with agreeing state: the two compute the same
      totals and per-minute counts. */
  lemma {:induction false} VecRunAgrees(log: Log, v: VecLog, lines: seq<string>)
    requires Agrees(log, v)
    ensures VecRun(v, lines).Some? ==> Run(log, lines).Some? && Agrees(Run(log, lines).value, VecRun(v, lines).value)
    decreases |lines|
  {
    if lines != [] {
      var e := ParseEvent(lines[0]);
      if e.Some? {
        VecApplyAgrees(log, v, e.value);
        if VecApply(v, e.value).Some? {
          VecRunAgrees(Apply(log, e.value).value, VecApply(v, e.value).value, lines[1..]);
        }
      }
    }
  }

  lemma InitialAgrees()
    ensures Agrees(Initial, VecInitial)
  {
  }

  /** The loop body of the vector variants. */
  method VecStep(log: VecLog, line: string) returns (r: Option<VecLog>)
    ensures r == match ParseEvent(line) case None => None case Some(e) => VecApply(log, e)
  {
    var e := ParseEvent(line);
    if e.None? {
      return None;
    }
    match e.value {
      case Guard(id) =>
        return Some(log.(guard := id));
      case Falls(m) =>
        return Some(log.(start := m));
      case Wakes(end) =>
        r := VecWakes(log, end);
    }
  }

  /** A guard wakes up: each minute asleep is counted in the guard's
      vector. */
  method VecWakes(log: VecLog, end: nat) returns (r: Option<VecLog>)
    ensures r == VecApply(log, Wakes(end))
  {
    if end < log.start {
      return None;
    }
    var entry := if log.guard in log.entries then log.entries[log.guard] else (0, Zeros(60));
    var total := entry.0 + (end - log.start);
    var perMinute := entry.1;
    for minute := log.start to end
      invariant AddMinutes(entry.1, log.start, minute) == Some(perMinute)
    {
      if minute >= |perMinute| {
        AddMinutesFails(entry.1, log.start, minute + 1, end);
        return None;
      }
      perMinute := perMinute[minute := perMinute[minute] + 1];
    }
    return Some(log.(entries := log.entries[log.guard := (total, perMinute)]));
  }

  lemma {:induction false} AddMinutesFails(v: seq<nat>, start: nat, bad: nat, end: nat)
    requires start < bad <= end && AddMinutes(v, start, bad).None?
    ensures AddMinutes(v, start, end).None?
  {
  }

  /** The loop over the sorted lines, vector variant. */
  method VecProcess(lines: seq<string>) returns (r: Option<VecLog>)
    ensures r == VecRun(VecInitial, lines)
  {
    var log := VecInitial;
    for i := 0 to |lines|
      invariant VecRun(VecInitial, lines) == VecRun(log, lines[i..])
    {
      assert lines[i..][1..] == lines[i + 1..];
      var next := VecStep(log, lines[i]);
      if next.None? {
        return None;
      }
      log := next.value;
    }
    return Some(log);
  }

  /** The whole log replayed in timestamp order, vector variant. */
  function VecReplay(input: string): Option<VecLog>
  {
    VecRun(VecInitial, SortedLines(input))
  }

  method VecReplayLog(input: string) returns (r: Option<VecLog>)
    ensures r == VecReplay(input)
  {
    r := VecProcess(SortedLines(input));
  }

  /** A vector replay that gets through agrees with the hash map one. */
  lemma VecReplayAgrees(input: string)
    ensures VecReplay(input).Some? ==> Replay(input).Some? && Agrees(Replay(input).value, VecReplay(input).value)
  {
    InitialAgrees();
    VecRunAgrees(Initial, VecInitial, SortedLines(input));
  }

  /** `solve_part1_vec`: the guard with the largest total, then the last
      index of the largest entry of their vector; it answers as part 1
      does. */
  method VecSolvePart1(input: string) returns (r: Option<nat>)
    ensures r.Some? <==> VecReplay(input).Some? && |VecReplay(input).value.entries| > 0
    ensures r.Some? ==> Replay(input).Some? && Part1Answer(Replay(input).value, r.value)
  {
    var v := VecReplayLog(input);
    if v.None? || |v.value.entries| == 0 {
      return None;
    }
    VecReplayAgrees(input);
    ghost var log := Replay(input).value;
    var entries := v.value.entries;
    var g := VecSleepiest(entries);
    assert Sleepiest(log.totals, g);
    var best := VecBestMinute(log.counts, g, entries[g].1);
    Part1AnswerOf(log, g);
    return Some(Times(g, best));
  }

  /** `max_by_key` on the guards' totals: a guard no other guard beats. */
  method VecSleepiest(entries: map<nat, (nat, seq<nat>)>) returns (g: nat)
    requires |entries| > 0
    ensures g in entries && forall g' :: g' in entries ==> entries[g'].0 <= entries[g].0
  {
    var keys := entries.Keys;
    g :| g in keys;
    keys := keys - {g};
    while keys != {}
      invariant keys <= entries.Keys && g in entries
      invariant forall g' :: g' in entries && g' !in keys ==> entries[g'].0 <= entries[g].0
      decreases |keys|
    {
      var next :| next in keys;
      if entries[next].0 >= entries[g].0 {
        g := next;
      }
      keys := keys - {next};
    }
  }

  /** `max_by_key` over a guard's vector of minutes: the last minute with
      the largest count. */
  method VecBestMinute(ghost counts: map<(nat, nat), nat>, g: nat, minutes: seq<nat>) returns (best: nat)
    requires |minutes| == 60 && forall m :: 0 <= m < 60 ==> minutes[m] == Get(counts, g, m)
    ensures best == BestMinute(counts, g, 60)
  {
    best := 0;
    for m := 1 to 60
      invariant best == BestMinute(counts, g, m)
    {
      if minutes[m] >= minutes[best] {
        best := m;
      }
    }
  }

  /** A guard and minute whose vector entry no other entry exceeds. */
  ghost predicate VecLargest(v: VecLog, g: nat, m: nat)
  {
    g in v.entries && m < 60 && |v.entries[g].1| == 60 &&
    forall g', m' :: g' in v.entries && 0 <= m' < |v.entries[g'].1| ==> v.entries[g'].1[m'] <= v.entries[g].1[m]
  }

  // ---------------------------------------------------------------------
  // part 2's loop, vector variant

  /** The vector of the guard on duty, or a fresh one of 60 zeros
      (`or_insert_with`). */
  function GuardEntry(log: VecLog): (nat, seq<nat>)
  {
    if log.guard in log.entries then log.entries[log.guard] else (0, Zeros(60))
  }

  /** Part 2's event step on the vectors: a "wakes" line creates the
      guard's vector even for an empty nap, and counting a minute past the
      vector's end is fatal. */
  function VecTally(log: VecLog, e: Event): (r: Option<VecLog>)
    ensures r.None? <==> e.Wakes? && log.start < e.minute && |GuardEntry(log).1| < e.minute
    ensures r.Some? && e.Wakes? ==> log.guard in r.value.entries
  {
    match e
    case Guard(id) => Some(log.(guard := id))
    case Falls(m) => Some(log.(start := m))
    case Wakes(end) =>
      var entry := GuardEntry(log);
      match AddMinutes(entry.1, log.start, end)
      case None => None
      case Some(v) => Some(log.(entries := log.entries[log.guard := (entry.0, v)]))
  }

  function VecTallyRun(log: VecLog, lines: seq<string>): Option<VecLog>
    decreases |lines|
  {
    if lines == [] then Some(log)
    else match ParseEvent(lines[0])
      case None => None
      case Some(e) =>
        match VecTally(log, e)
        case None => None
        case Some(next) => VecTallyRun(next, lines[1..])
  }

  /** One entry of a vector after a nap is the map's count after it. */
  lemma VecTallyWakesEntry(log: Log, v: VecLog, end: nat, g: nat, m: nat)
    requires CountsAgree(log, v) && VecTally(v, Wakes(end)).Some? && m < 60
    requires g in VecTally(v, Wakes(end)).value.entries
    ensures m < |VecTally(v, Wakes(end)).value.entries[g].1|
    ensures VecTally(v, Wakes(end)).value.entries[g].1[m] == Get(Tally(log, Wakes(end)).counts, g, m)
  {
    CountMinutesGet(log.counts, log.guard, log.start, end, g, m);
  }

  /** A step of part 2 on the vectors that succeeds agrees with the step
      on the map. */
  lemma VecTallyAgrees(log: Log, v: VecLog, e: Event)
    requires CountsAgree(log, v)
    ensures VecTally(v, e).Some? ==> CountsAgree(Tally(log, e), VecTally(v, e).value)
  {
    if e.Wakes? && VecTally(v, e).Some? {
      var end := e.minute;
      var r := Tally(log, e);
      var w := VecTally(v, e).value;
      forall g, m | 0 <= m < 60 && g in w.entries
        ensures w.entries[g].1[m] == Get(r.counts, g, m)
      {
        VecTallyWakesEntry(log, v, end, g, m);
      }
      forall g, m | g !in w.entries
        ensures Get(r.counts, g, m) == 0
      {
        CountMinutesGet(log.counts, log.guard, log.start, end, g, m);
      }
      forall k | k in r.counts
        ensures k.1 < 60 && r.counts[k] > 0
      {
        CountMinutesGet(log.counts, log.guard, log.start, end, k.0, k.1);
      }
    }
  }

  /** Whenever part 2's vector loop gets through the log, the map loop
      does too, with agreeing counts. */
  lemma {:induction false} VecTallyRunAgrees(log: Log, v: VecLog, lines: seq<string>)
    requires CountsAgree(log, v)
    ensures VecTallyRun(v, lines).Some? ==>
              TallyRun(log, lines).Some? && CountsAgree(TallyRun(log, lines).value, VecTallyRun(v, lines).value)
    decreases |lines|
  {
    if lines != [] {
      var e := ParseEvent(lines[0]);
      if e.Some? {
        VecTallyAgrees(log, v, e.value);
        if VecTally(v, e.value).Some? {
          VecTallyRunAgrees(Tally(log, e.value), VecTally(v, e.value).value, lines[1..]);
        }
      }
    }
  }

  /** The loop body of `solve_part2_vec`. */
  method VecTallyStep(log: VecLog, line: string) returns (r: Option<VecLog>)
    ensures r == match ParseEvent(line) case None => None case Some(e) => VecTally(log, e)
  {
    var e := ParseEvent(line);
    if e.None? {
      return None;
    }
    match e.value {
      case Guard(id) =>
        return Some(log.(guard := id));
      case Falls(m) =>
        return Some(log.(start := m));
      case Wakes(end) =>
        r := VecTallyWakes(log, end);
    }
  }

  /** A guard wakes up: the guard's vector, created if need be, counts
      each minute of `start..end`. */
  method VecTallyWakes(log: VecLog, end: nat) returns (r: Option<VecLog>)
    ensures r == VecTally(log, Wakes(end))
  {
    var entry := GuardEntry(log);
    var perMinute := entry.1;
    if log.start < end {
      for minute := log.start to end
        invariant AddMinutes(entry.1, log.start, minute) == Some(perMinute)
      {
        if minute >= |perMinute| {
          AddMinutesFails(entry.1, log.start, minute + 1, end);
          return None;
        }
        perMinute := perMinute[minute := perMinute[minute] + 1];
      }
    }
    return Some(log.(entries := log.entries[log.guard := (entry.0, perMinute)]));
  }

  method VecTallyProcess(lines: seq<string>) returns (r: Option<VecLog>)
    ensures r == VecTallyRun(VecInitial, lines)
  {
    var log := VecInitial;
    for i := 0 to |lines|
      invariant VecTallyRun(VecInitial, lines) == VecTallyRun(log, lines[i..])
    {
      assert lines[i..][1..] == lines[i + 1..];
      var next := VecTallyStep(log, lines[i]);
      if next.None? {
        return None;
      }
      log := next.value;
    }
    return Some(log);
  }

  /** Part 2's replay in timestamp order, vector variant. */
  function VecTallyReplay(input: string): Option<VecLog>
  {
    VecTallyRun(VecInitial, SortedLines(input))
  }

  method VecTallyReplayLog(input: string) returns (r: Option<VecLog>)
    ensures r == VecTallyReplay(input)
  {
    r := VecTallyProcess(SortedLines(input));
  }

  /** A vector replay of part 2 that gets through agrees with the map
      replay of part 2. */
  lemma VecTallyReplayAgrees(input: string)
    ensures VecTallyReplay(input).Some? ==>
              TallyReplay(input).Some? && CountsAgree(TallyReplay(input).value, VecTallyReplay(input).value)
  {
    InitialAgrees();
    VecTallyRunAgrees(Initial, VecInitial, SortedLines(input));
  }

  /** `solve_part2_vec`: the largest entry over all guards' vectors; when
      any minute was counted, it answers as the hash map variant does. */
  method VecSolvePart2(input: string) returns (r: Option<nat>)
    ensures r.Some? <==> VecTallyReplay(input).Some? && |VecTallyReplay(input).value.entries| > 0
    ensures r.Some? ==> exists g: nat, m: nat :: VecLargest(VecTallyReplay(input).value, g, m) && r.value == Times(g, m)
    ensures r.Some? ==> TallyReplay(input).Some?
    ensures r.Some? && |TallyReplay(input).value.counts| > 0 ==> Part2Answer(TallyReplay(input).value, r.value)
  {
    var v := VecTallyReplayLog(input);
    if v.None? || |v.value.entries| == 0 {
      return None;
    }
    VecTallyReplayAgrees(input);
    var best := LargestEntry(v.value);
    ghost var log := TallyReplay(input).value;
    if |log.counts| > 0 {
      VecLargestCounted(log, v.value, best.0, best.1);
    }
    return Some(Times(best.0, best.1));
  }

  /** The nested loops of `solve_part2_vec` over guards and minutes. */
  method LargestEntry(v: VecLog) returns (best: (nat, nat))
    requires |v.entries| > 0
    requires forall g :: g in v.entries ==> |v.entries[g].1| == 60
    ensures VecLargest(v, best.0, best.1)
  {
    var entries := v.entries;
    var keys := entries.Keys;
    var g0 :| g0 in keys;
    best := (g0, 0);
    while keys != {}
      invariant keys <= entries.Keys && best.0 in entries && best.1 < 60
      invariant forall g', m' :: g' in entries && g' !in keys && 0 <= m' < |entries[g'].1| ==>
                  entries[g'].1[m'] <= entries[best.0].1[best.1]
      decreases |keys|
    {
      var g :| g in keys;
      var minutes := entries[g].1;
      for m := 0 to 60
        invariant best.0 in entries && best.1 < 60
        invariant forall g', m' :: g' in entries && g' !in keys && 0 <= m' < |entries[g'].1| ==>
                    entries[g'].1[m'] <= entries[best.0].1[best.1]
        invariant forall m' :: 0 <= m' < m ==> minutes[m'] <= entries[best.0].1[best.1]
      {
        if minutes[m] >= entries[best.0].1[best.1] {
          best := (g, m);
        }
      }
      keys := keys - {g};
    }
  }

  /** When some nap was counted, the vectors' largest entry is a largest
      hash map count. */
  lemma VecLargestCounted(log: Log, v: VecLog, g: nat, m: nat)
    requires CountsAgree(log, v) && VecLargest(v, g, m) && |log.counts| > 0
    ensures Part2Answer(log, Times(g, m))
  {
    var k :| k in log.counts;
    assert Get(log.counts, k.0, k.1) == log.counts[k];
    assert k.0 in v.entries;
    assert v.entries[k.0].1[k.1] == log.counts[k];
    forall k' | k' in log.counts
      ensures log.counts[k'] <= Get(log.counts, g, m)
    {
      assert Get(log.counts, k'.0, k'.1) == log.counts[k'];
      assert k'.0 in v.entries;
    }
    assert (g, m) in log.counts;
  }
}
