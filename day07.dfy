/** Day 7: steps named 'A' to 'Z' with "X must be finished before Y"
    instructions. Part 1 lists the steps in the order they are done when
    the lowest-lettered available step always goes first; part 2 lets a
    number of workers do the steps in parallel, step `i` taking
    `i + 1 + base` seconds, and reports how long everything takes. */
module Day07 {
  import opened Common
  import opened Text

  /** One instruction, as step indices ('A' is 0): `dependsOn` must be
      finished before `step`. Both are bytes in the source. */
  datatype Instruction = Instruction(step: nat, dependsOn: nat)

  /** `"Step ".len()` and `"Step Y must be finished before step ".len()`. */
  const Prefix1: nat := 5
  const Prefix2: nat := 36

  // ---------------------------------------------------------------------
  // generator

  /** One line: the bytes at the two fixed offsets, less 'A'. A line too
      short for either offset, or a byte below 'A' there, is fatal. */
  function ParseInstruction(line: string): (r: Option<Instruction>)
    ensures r.Some? <==> |line| > Prefix2 && line[Prefix1] >= 'A' && line[Prefix2] >= 'A'
    ensures r.Some? ==> r.value.dependsOn + 'A' as int == line[Prefix1] as int &&
                        r.value.step + 'A' as int == line[Prefix2] as int
  {
    if |line| <= Prefix2 || line[Prefix1] < 'A' || line[Prefix2] < 'A' then None
    else Some(Instruction(line[Prefix2] as int - 'A' as int, line[Prefix1] as int - 'A' as int))
  }

  /** `generator`: one instruction per line. */
  function Generator(input: string): (r: Option<seq<Instruction>>)
    ensures r.Some? ==> |r.value| == |Lines(input)| &&
                        forall k :: 0 <= k < |Lines(input)| ==> ParseInstruction(Lines(input)[k]) == Some(r.value[k])
    ensures r.None? <==> exists k :: 0 <= k < |Lines(input)| && ParseInstruction(Lines(input)[k]).None?
  {
    ParseAll(Lines(input), ParseInstruction)
  }

  /** The instruction line that names `dependsOn` and `step`. */
  function InstructionLine(dependsOn: char, step: char): string
  {
    "Step " + [dependsOn] + " must be finished before step " + [step] + " can begin."
  }

  /** Reading an instruction line gives back the two letters. */
  lemma ParseInstructionLine(dependsOn: char, step: char)
    requires 'A' <= dependsOn <= 'Z' && 'A' <= step <= 'Z'
    ensures ParseInstruction(InstructionLine(dependsOn, step)) ==
            Some(Instruction(step as int - 'A' as int, dependsOn as int - 'A' as int))
  {
    var line := InstructionLine(dependsOn, step);
    assert line[Prefix1] == dependsOn && line[Prefix2] == step;
  }

  // ---------------------------------------------------------------------
  // setup shared by both parts

  /** The largest step index mentioned, as either side of an instruction;
      0 when there are no instructions (the `Max` accumulator's extreme
      for an unsigned byte). */
  function Highest(insts: seq<Instruction>): (h: nat)
    ensures forall k :: 0 <= k < |insts| ==> insts[k].step <= h && insts[k].dependsOn <= h
    ensures h == 0 || exists k :: 0 <= k < |insts| && (insts[k].step == h || insts[k].dependsOn == h)
  {
    if insts == [] then 0
    else
      var front := insts[..|insts| - 1];
      var last := insts[|insts| - 1];
      var h := Highest(front);
      assert forall k :: 0 <= k < |front| ==> front[k] == insts[k];
      var m := if last.step > h then last.step else h;
      if last.dependsOn > m then last.dependsOn else m
  }

  /** `vec![vec![]; 26]`. */
  function EmptyTable(): (t: seq<seq<nat>>)
    ensures |t| == 26 && forall s :: 0 <= s < 26 ==> t[s] == []
  {
    seq(26, _ => [])
  }

  /** `depends_on`: for each of the 26 letters the list of its
      prerequisites, in input order. A step past 'Z' indexes past the
      table, which is fatal. */
  function Dependencies(insts: seq<Instruction>): (r: Option<seq<seq<nat>>>)
    ensures r.Some? <==> forall k :: 0 <= k < |insts| ==> insts[k].step < 26
    ensures r.Some? ==> |r.value| == 26
    ensures r.Some? ==> forall s, d :: 0 <= s < 26 && d in r.value[s] <==>
                          0 <= s < 26 && Instruction(s, d) in insts
  {
    if insts == [] then Some(EmptyTable())
    else
      var front := insts[..|insts| - 1];
      var last := insts[|insts| - 1];
      assert forall k :: 0 <= k < |front| ==> front[k] == insts[k];
      assert insts == front + [last];
      match Dependencies(front)
      case None => None
      case Some(deps) =>
        if last.step >= 26 then None
        else Some(deps[last.step := deps[last.step] + [last.dependsOn]])
  }

  /** The loop over the instructions that fills `depends_on` and the
      highest step. */
  method Setup(insts: seq<Instruction>) returns (deps: Option<seq<seq<nat>>>, highest: nat)
    ensures deps == Dependencies(insts) && highest == Highest(insts)
  {
    var table := EmptyTable();
    highest := 0;
    for k := 0 to |insts|
      invariant Dependencies(insts[..k]) == Some(table)
      invariant highest == Highest(insts[..k])
    {
      var inst := insts[k];
      SetupStep(insts, k);
      if inst.step > highest {
        highest := inst.step;
      }
      if inst.dependsOn > highest {
        highest := inst.dependsOn;
      }
      if inst.step >= 26 {
        assert Dependencies(insts).None?;
        return None, Highest(insts);
      }
      table := table[inst.step := table[inst.step] + [inst.dependsOn]];
    }
    assert insts[..|insts|] == insts;
    deps := Some(table);
  }

  /** One more instruction read: the table and the highest step grow as
      the loop body of `Setup` makes them. */
  lemma SetupStep(insts: seq<Instruction>, k: nat)
    requires k < |insts|
    ensures var inst := insts[k];
            var h := Highest(insts[..k]);
            var m := if inst.step > h then inst.step else h;
            Highest(insts[..k + 1]) == (if inst.dependsOn > m then inst.dependsOn else m)
    ensures var inst := insts[k];
            Dependencies(insts[..k + 1]) ==
              match Dependencies(insts[..k])
              case None => None
              case Some(deps) => if inst.step >= 26 then None else Some(deps[inst.step := deps[inst.step] + [inst.dependsOn]])
  {
    assert insts[..k + 1][..k] == insts[..k];
  }

  /** Every prerequisite named in the table is within the step range. */
  ghost predicate Bounded(deps: seq<seq<nat>>, n: nat)
  {
    |deps| == 26 && forall s, d :: 0 <= s < 26 && d in deps[s] ==> d < n
  }

  lemma DependenciesBounded(insts: seq<Instruction>)
    requires Dependencies(insts).Some?
    ensures Bounded(Dependencies(insts).value, Highest(insts) + 1)
  {
    var deps := Dependencies(insts).value;
    forall s, d | 0 <= s < 26 && d in deps[s] ensures d < Highest(insts) + 1 {
      var k :| 0 <= k < |insts| && insts[k] == Instruction(s, d);
    }
  }

  // ---------------------------------------------------------------------
  // part 1

  /** The number of steps not done yet. */
  function Pending(done: seq<bool>): (n: nat)
    ensures n <= |done|
  {
    if done == [] then 0 else Pending(done[..|done| - 1]) + (if done[|done| - 1] then 0 else 1)
  }

  lemma {:induction false} PendingUpdate(done: seq<bool>, s: nat)
    requires s < |done| && !done[s]
    ensures Pending(done[s := true]) == Pending(done) - 1
    decreases |done|
  {
    var n := |done| - 1;
    var after := done[s := true];
    assert after[..n] == if s < n then done[..n][s := true] else done[..n];
    if s < n {
      PendingUpdate(done[..n], s);
    }
  }

  lemma {:induction false} PendingZero(done: seq<bool>)
    requires Pending(done) == 0
    ensures forall j :: 0 <= j < |done| ==> done[j]
    decreases |done|
  {
    if done != [] {
      PendingZero(done[..|done| - 1]);
      assert forall j :: 0 <= j < |done| - 1 ==> done[..|done| - 1][j] == done[j];
    }
  }

  lemma {:induction false} PendingAllFalse(n: nat)
    ensures Pending(seq(n, _ => false)) == n
  {
    if n > 0 {
      PendingAllFalse(n - 1);
      assert seq(n, _ => false)[..n - 1] == seq(n - 1, _ => false);
    }
  }

  /** All prerequisites of a step are done. */
  predicate AllDone(prereqs: seq<nat>, done: seq<bool>)
  {
    forall d :: d in prereqs ==> d < |done| && done[d]
  }

  /** A step that may be done now: not done yet, inside the table, and
      every prerequisite done. */
  predicate Available(deps: seq<seq<nat>>, done: seq<bool>, j: nat)
    requires |deps| == 26
  {
    j < |done| && !done[j] && j < 26 && AllDone(deps[j], done)
  }

  /** The outcome of one scan over the steps. */
  datatype Scan = Ready(step: nat) | Stuck | PastTable

  /** The scan from step `i` upwards: the first step not done whose
      prerequisites are all done. Reaching a step past 'Z' that is not done
      looks up the table out of bounds. */
  function FirstReady(deps: seq<seq<nat>>, done: seq<bool>, i: nat): (r: Scan)
    requires Bounded(deps, |done|)
    ensures r.Ready? ==> i <= r.step && Available(deps, done, r.step)
    ensures r.Ready? ==> forall j :: i <= j < r.step ==> !Available(deps, done, j)
    ensures r.Stuck? ==> forall j :: i <= j < |done| ==> done[j] || (j < 26 && !AllDone(deps[j], done))
    ensures r.PastTable? ==> exists j :: i <= j < |done| && j >= 26 && !done[j]
    decreases |done| - i
  {
    if i >= |done| then Stuck
    else if done[i] then FirstReady(deps, done, i + 1)
    else if i >= 26 then PastTable
    else if AllDone(deps[i], done) then Ready(i)
    else FirstReady(deps, done, i + 1)
  }

  /** The scan loop `for i in 0..=highest` with its `continue 'outer`. */
  method FindReady(deps: seq<seq<nat>>, done: seq<bool>) returns (r: Scan)
    requires Bounded(deps, |done|)
    ensures r == FirstReady(deps, done, 0)
  {
    var i := 0;
    while i < |done|
      invariant i <= |done|
      invariant FirstReady(deps, done, i) == FirstReady(deps, done, 0)
    {
      if !done[i] {
        if i >= 26 {
          return PastTable;
        }
        var blocked := false;
        for k := 0 to |deps[i]|
          invariant blocked <==> !AllDone(deps[i][..k], done)
        {
          var d := deps[i][k];
          assert d in deps[i];
          assert deps[i][..k + 1] == deps[i][..k] + [d];
          assert forall x :: x in deps[i][..k + 1] <==> x in deps[i][..k] || x == d;
          if !done[d] {
            blocked := true;
          }
        }
        assert deps[i][..|deps[i]|] == deps[i];
        if !blocked {
          return Ready(i);
        }
      }
      i := i + 1;
    }
    return Stuck;
  }

  /** The steps done from here on: the lowest available step each round,
      until every step is done. No available step means the source's
      outer loop spins forever; a step past the table is fatal. Either way
      there is no answer. */
  function Order(deps: seq<seq<nat>>, done: seq<bool>, res: seq<nat>): (r: Option<seq<nat>>)
    requires Bounded(deps, |done|)
    requires |res| + Pending(done) == |done|
    ensures r.Some? ==> |r.value| == |done| && r.value[..|res|] == res
    decreases Pending(done)
  {
    if |res| >= |done| then Some(res)
    else
      match FirstReady(deps, done, 0)
      case Ready(s) =>
        PendingUpdate(done, s);
        Order(deps, done[s := true], res + [s])
      case _ => None
  }

  /** The step indices of part 1. */
  function Part1Steps(insts: seq<Instruction>): Option<seq<nat>>
  {
    match Dependencies(insts)
    case None => None
    case Some(deps) =>
      var n := Highest(insts) + 1;
      DependenciesBounded(insts);
      PendingAllFalse(n);
      Order(deps, seq(n, _ => false), [])
  }

  function StepName(s: nat): char
    requires s < 26
  {
    ('A' as int + s) as char
  }

  /** The letters of the steps, `(i as u8 + b'A') as char` each. */
  function Names(steps: seq<nat>): (r: string)
    requires forall k :: 0 <= k < |steps| ==> steps[k] < 26
    ensures |r| == |steps| && forall k :: 0 <= k < |steps| ==> 'A' <= r[k] <= 'Z' && r[k] as int - 'A' as int == steps[k]
  {
    if steps == [] then [] else [StepName(steps[0])] + Names(steps[1..])
  }

  /** `solve_part1`: the letters of the steps in the order they are done. */
  function Part1(insts: seq<Instruction>): (r: Option<string>)
    ensures r.Some? <==> Part1Steps(insts).Some?
  {
    match Part1Steps(insts)
    case None => None
    case Some(steps) =>
      Part1StepsInTable(insts);
      Some(Names(steps))
  }

  /** `solve_part1`: the loop that does one available step per round. */
  method SolvePart1(insts: seq<Instruction>) returns (r: Option<string>)
    ensures r == Part1(insts)
  {
    var deps, highest := Setup(insts);
    if deps.None? {
      return None;
    }
    var table := deps.value;
    DependenciesBounded(insts);
    var done := seq(highest + 1, _ => false);
    PendingAllFalse(highest + 1);
    var res: seq<nat> := [];
    while |res| <= highest
      invariant |done| == highest + 1 && |res| + Pending(done) == |done|
      invariant Order(table, done, res) == Part1Steps(insts)
      decreases Pending(done)
    {
      var found := FindReady(table, done);
      if !found.Ready? {
        return None;
      }
      PendingUpdate(done, found.step);
      done := done[found.step := true];
      res := res + [found.step];
    }
    Part1StepsInTable(insts);
    return Some(Names(res));
  }

  /** No duplicates. */
  predicate Distinct(s: seq<nat>)
  {
    forall i, j :: 0 <= i < j < |s| ==> s[i] != s[j]
  }

  /** What holds of the steps done so far: `done` marks exactly them, each
      appears once, each came after all its prerequisites, and each was
      the lowest available step when it was picked. */
  ghost predicate OrderInv(deps: seq<seq<nat>>, done: seq<bool>, res: seq<nat>)
    requires |deps| == 26
  {
    (forall j :: 0 <= j < |done| ==> (done[j] <==> j in res)) &&
    (forall k :: 0 <= k < |res| ==> res[k] < |done| && res[k] < 26) &&
    Distinct(res) &&
    (forall k :: 0 <= k < |res| ==> PickedAt(deps, |done|, res, k))
  }

  /** Step `res[k]` was available when picked, after `res[..k]`, and no
      lower step was. */
  ghost predicate PickedAt(deps: seq<seq<nat>>, n: nat, res: seq<nat>, k: nat)
    requires |deps| == 26 && k < |res| && res[k] < 26
  {
    (forall d :: d in deps[res[k]] ==> d in res[..k]) &&
    (forall j :: 0 <= j < res[k] ==> j in res[..k] || exists d :: d in deps[j] && d !in res[..k])
  }

  lemma PickKeepsInv(deps: seq<seq<nat>>, done: seq<bool>, res: seq<nat>, s: nat)
    requires Bounded(deps, |done|) && OrderInv(deps, done, res)
    requires FirstReady(deps, done, 0) == Ready(s)
    ensures OrderInv(deps, done[s := true], res + [s])
  {
    var done' := done[s := true];
    var res' := res + [s];
    assert s !in res;
    forall k | 0 <= k < |res'|
      ensures PickedAt(deps, |done'|, res', k)
    {
      if k < |res| {
        PickedBefore(deps, |done|, res, s, k);
      } else {
        PickedLast(deps, done, res, s);
      }
    }
  }

  /** Appending a step leaves what held of the earlier picks. */
  lemma PickedBefore(deps: seq<seq<nat>>, n: nat, res: seq<nat>, s: nat, k: nat)
    requires |deps| == 26 && k < |res| && res[k] < 26 && PickedAt(deps, n, res, k)
    ensures PickedAt(deps, n, res + [s], k)
  {
    assert (res + [s])[..k] == res[..k];
  }

  /** The lowest available step, appended, was picked as `PickedAt` says. */
  lemma PickedLast(deps: seq<seq<nat>>, done: seq<bool>, res: seq<nat>, s: nat)
    requires Bounded(deps, |done|) && OrderInv(deps, done, res)
    requires Available(deps, done, s) && forall j :: 0 <= j < s ==> !Available(deps, done, j)
    ensures PickedAt(deps, |done|, res + [s], |res|)
  {
    assert (res + [s])[..|res|] == res;
    forall j | 0 <= j < s
      ensures j in res || exists d :: d in deps[j] && d !in res
    {
      assert !Available(deps, done, j);
      if j !in res {
        assert !done[j];
        var d :| d in deps[j] && !(d < |done| && done[d]);
      }
    }
  }

  lemma {:induction false} OrderCorrect(deps: seq<seq<nat>>, done: seq<bool>, res: seq<nat>)
    requires Bounded(deps, |done|) && |res| + Pending(done) == |done|
    requires OrderInv(deps, done, res)
    requires Order(deps, done, res).Some?
    ensures |Order(deps, done, res).value| == |done|
    ensures OrderInv(deps, seq(|done|, _ => true), Order(deps, done, res).value)
    decreases Pending(done)
  {
    if |res| >= |done| {
      PendingZero(done);
      assert done == seq(|done|, _ => true);
    } else {
      var s := FirstReady(deps, done, 0).step;
      PendingUpdate(done, s);
      PickKeepsInv(deps, done, res, s);
      OrderCorrect(deps, done[s := true], res + [s]);
    }
  }

  /** Part 1 lists every step from 'A' to the highest one exactly once;
      each step comes after all of its prerequisites; and each is the
      lowest-lettered step available at its turn. */
  lemma Part1Correct(insts: seq<Instruction>)
    requires Part1Steps(insts).Some?
    ensures var steps := Part1Steps(insts).value;
            var deps := Dependencies(insts).value;
            |steps| == Highest(insts) + 1 && Distinct(steps) &&
            (forall j :: 0 <= j <= Highest(insts) ==> j in steps) &&
            (forall k :: 0 <= k < |steps| ==> steps[k] < 26 && PickedAt(deps, |steps|, steps, k))
  {
    var deps := Dependencies(insts).value;
    var n := Highest(insts) + 1;
    DependenciesBounded(insts);
    PendingAllFalse(n);
    var none := seq(n, _ => false);
    var all := seq(n, _ => true);
    assert OrderInv(deps, none, []);
    assert Part1Steps(insts) == Order(deps, none, []);
    OrderCorrect(deps, none, []);
    var steps := Order(deps, none, []).value;
    forall j | 0 <= j < n
      ensures j in steps
    {
      assert all[j];
    }
  }

  lemma Part1StepsInTable(insts: seq<Instruction>)
    requires Part1Steps(insts).Some?
    ensures forall k :: 0 <= k < |Part1Steps(insts).value| ==> Part1Steps(insts).value[k] < 26
  {
    Part1Correct(insts);
  }

  // ---------------------------------------------------------------------
  // part 2

  /** Every step in progress is distinct, within the step range, has work
      left, and had all its prerequisites finished; at most `workers` are
      in progress. */
  ghost predicate Busy(deps: seq<seq<nat>>, work: seq<nat>, under: seq<nat>, workers: nat)
  {
    |deps| == 26 && Distinct(under) && |under| <= workers &&
    forall k :: 0 <= k < |under| ==>
      under[k] < |work| && under[k] < 26 && work[under[k]] > 0 &&
      forall d :: d in deps[under[k]] ==> d < |work| && work[d] == 0
  }

  /** One second of work: every step in progress loses a unit, and the
      steps that are finished leave the queue (`filter` with the
      decrement inside). */
  function Advance(work: seq<nat>, under: seq<nat>): (r: (seq<nat>, seq<nat>))
    requires Distinct(under) && forall k :: 0 <= k < |under| ==> under[k] < |work| && work[under[k]] > 0
    ensures |r.0| == |work|
    ensures forall j :: 0 <= j < |work| ==> r.0[j] as int == if j in under then work[j] as int - 1 else work[j]
    ensures forall j :: j in r.1 <==> j in under && work[j] > 1
    ensures Distinct(r.1) && |r.1| <= |under|
    decreases |under|
  {
    if under == [] then (work, [])
    else
      var s := under[0];
      var w := work[s := work[s] - 1];
      assert forall k :: 0 <= k < |under[1..]| ==> under[1..][k] != s;
      var (w', u') := Advance(w, under[1..]);
      assert s !in under[1..] && s !in u';
      assert forall j :: j in under <==> j == s || j in under[1..];
      (w', if w[s] > 0 then [s] + u' else u')
  }

  /** The search for work from step `i` on: each step with work left, not
      in progress and with every prerequisite finished joins the queue,
      until the queue holds `workers` steps. Reaching a step past 'Z'
      that still has work looks up the table out of bounds. */
  function Assign(deps: seq<seq<nat>>, workers: nat, work: seq<nat>, under: seq<nat>, i: nat): (r: Option<seq<nat>>)
    requires Bounded(deps, |work|) && Busy(deps, work, under, workers)
    ensures r.Some? ==> Busy(deps, work, r.value, workers) && under <= r.value
    ensures r.Some? ==> forall j :: (i <= j < |work| && work[j] > 0 && j !in r.value && j < 26 &&
                          |r.value| < workers) ==> exists d :: d in deps[j] && work[d] > 0
    decreases |work| - i
  {
    if i >= |work| || |under| == workers then Some(under)
    else if work[i] > 0 && i !in under then
      if i >= 26 then None
      else if forall d :: d in deps[i] ==> work[d] == 0 then
        var r := Assign(deps, workers, work, under + [i], i + 1);
        assert r.Some? ==> r.value[|under|] == i;
        r
      else Assign(deps, workers, work, under, i + 1)
    else Assign(deps, workers, work, under, i + 1)
  }

  /** The loop `'search_for_work`. */
  method SearchForWork(deps: seq<seq<nat>>, workers: nat, work: seq<nat>, under0: seq<nat>)
    returns (r: Option<seq<nat>>)
    requires Bounded(deps, |work|) && Busy(deps, work, under0, workers)
    ensures r == Assign(deps, workers, work, under0, 0)
  {
    var under: seq<nat> := under0;
    var i := 0;
    while i < |work|
      invariant i <= |work| && Busy(deps, work, under, workers)
      invariant Assign(deps, workers, work, under, i) == Assign(deps, workers, work, under0, 0)
    {
      if |under| == workers {
        break;
      }
      if work[i] > 0 && i !in under {
        if i >= 26 {
          return None;
        }
        var blocked := AnyUnfinished(deps[i], work);
        if !blocked {
          under := under + [i];
        }
      }
      i := i + 1;
    }
    return Some(under);
  }

  /** The scan over one step's prerequisites: is any of them still
      unfinished? */
  method AnyUnfinished(ds: seq<nat>, work: seq<nat>) returns (blocked: bool)
    requires forall d :: d in ds ==> d < |work|
    ensures blocked <==> exists d :: d in ds && work[d] > 0
  {
    blocked := false;
    for k := 0 to |ds|
      invariant blocked <==> exists m :: 0 <= m < k && ds[m] < |work| && work[ds[m]] > 0
    {
      assert ds[k] in ds;
      if work[ds[k]] > 0 {
        blocked := true;
      }
    }
    assert blocked ==> exists d :: d in ds && work[d] > 0;
  }

  /** A second of work keeps the queue's invariant: finished steps leave
      it, and a prerequisite once finished stays finished. */
  lemma AdvanceKeepsBusy(deps: seq<seq<nat>>, work: seq<nat>, under: seq<nat>, workers: nat)
    requires Busy(deps, work, under, workers)
    ensures Busy(deps, Advance(work, under).0, Advance(work, under).1, workers)
  {
    var (work', under') := Advance(work, under);
    forall k | 0 <= k < |under'|
      ensures under'[k] < |work'| && under'[k] < 26 && work'[under'[k]] > 0
      ensures forall d :: d in deps[under'[k]] ==> d < |work'| && work'[d] == 0
    {
      var s := under'[k];
      assert s in under;
      var m :| 0 <= m < |under| && under[m] == s;
      forall d | d in deps[s] ensures d < |work'| && work'[d] == 0 {
        assert work[d] == 0;
        assert d !in under;
      }
    }
  }

  /** All work is finished. */
  predicate Finished(work: seq<nat>)
  {
    forall j :: 0 <= j < |work| ==> work[j] == 0
  }

  /** The work left over all steps. */
  function TotalWork(work: seq<nat>): nat
  {
    if work == [] then 0 else TotalWork(work[..|work| - 1]) + work[|work| - 1]
  }

  lemma {:induction false} TotalWorkAdvance(work: seq<nat>, work': seq<nat>, under: seq<nat>)
    requires |work'| == |work|
    requires forall j :: 0 <= j < |work| ==> work'[j] as int == if j in under then work[j] as int - 1 else work[j]
    requires forall j :: j in under ==> j < |work| && work[j] > 0
    ensures TotalWork(work') <= TotalWork(work)
    ensures under != [] ==> TotalWork(work') < TotalWork(work)
    decreases |work|
  {
    if under != [] {
      assert under[0] in under;
    }
    if work != [] {
      var n := |work| - 1;
      var front := FrontPart(under, n);
      TotalWorkAdvance(work[..n], work'[..n], front);
      assert TotalWork(work) == TotalWork(work[..n]) + work[n];
      assert TotalWork(work') == TotalWork(work'[..n]) + work'[n];
      assert work'[n] as int == if n in under then work[n] as int - 1 else work[n];
      if under != [] {
        var u := under[0];
        if u < n {
          assert u in front;
          assert TotalWork(work'[..n]) < TotalWork(work[..n]);
        } else {
          assert u in under;
          assert u == n && n in under;
          assert work'[n] < work[n];
        }
      }
    }
  }

  /** The members of `under` below `n`. */
  function FrontPart(under: seq<nat>, n: nat): (r: seq<nat>)
    ensures forall j :: j in r <==> j in under && j < n
  {
    if under == [] then []
    else if under[0] < n then [under[0]] + FrontPart(under[1..], n)
    else FrontPart(under[1..], n)
  }

  lemma TotalWorkPositive(work: seq<nat>)
    requires !Finished(work)
    ensures TotalWork(work) > 0
  {
    var j :| 0 <= j < |work| && work[j] > 0;
    TotalWorkAtLeast(work, j);
  }

  lemma {:induction false} TotalWorkAtLeast(work: seq<nat>, j: nat)
    requires j < |work|
    ensures TotalWork(work) >= work[j]
    decreases |work|
  {
    if j < |work| - 1 {
      TotalWorkAtLeast(work[..|work| - 1], j);
    }
  }

  /** The measure that one round of work lowers. */
  function Measure(work: seq<nat>, under: seq<nat>): nat
  {
    2 * TotalWork(work) + (if under == [] then 1 else 0)
  }

  /** One second while work is left: the steps in progress advance, then
      free workers pick up available steps. A round in which nothing is in
      progress and nothing can start while work is left repeats forever
      in the source; there is no answer then. */
  function Round(deps: seq<seq<nat>>, workers: nat, work: seq<nat>, under: seq<nat>): (r: Option<(seq<nat>, seq<nat>)>)
    requires Bounded(deps, |work|) && Busy(deps, work, under, workers) && !Finished(work)
    ensures r.Some? ==> |r.value.0| == |work| && Busy(deps, r.value.0, r.value.1, workers)
    ensures r.Some? ==> Measure(r.value.0, r.value.1) < Measure(work, under)
  {
    var (work', under') := Advance(work, under);
    TotalWorkAdvance(work, work', under);
    AdvanceKeepsBusy(deps, work, under, workers);
    match Assign(deps, workers, work', under', 0)
    case None => None
    case Some(next) =>
      if next == [] && !Finished(work') then None
      else
        assert next == [] && under == [] ==> TotalWork(work) > 0 by {
          if next == [] && under == [] {
            TotalWorkPositive(work);
          }
        }
        Some((work', next))
  }

  /** The seconds the workers need from this state on, counting the
      current one as `time`. */
  function Schedule(deps: seq<seq<nat>>, workers: nat, work: seq<nat>, under: seq<nat>, time: nat): (r: Option<nat>)
    requires Bounded(deps, |work|) && Busy(deps, work, under, workers)
    requires time > 0 || !Finished(work)
    ensures r.Some? ==> r.value + 1 >= time + (if Finished(work) then 0 else 1)
    decreases Measure(work, under)
  {
    if Finished(work) then Some(time - 1)
    else
      match Round(deps, workers, work, under)
      case None => None
      case Some((work', under')) => Schedule(deps, workers, work', under', time + 1)
  }

  /** The body of the `while` loop of `solve_part2_impl`. */
  method WorkOneSecond(deps: seq<seq<nat>>, workers: nat, work: seq<nat>, under: seq<nat>)
    returns (r: Option<(seq<nat>, seq<nat>)>)
    requires Bounded(deps, |work|) && Busy(deps, work, under, workers) && !Finished(work)
    ensures r == Round(deps, workers, work, under)
  {
    var (work', under') := Advance(work, under);
    AdvanceKeepsBusy(deps, work, under, workers);
    var next := SearchForWork(deps, workers, work', under');
    if next.None? || (next.value == [] && !Finished(work')) {
      return None;
    }
    return Some((work', next.value));
  }

  /** `(0..=highest).map(|i| i as u8 + 1 + base_step_cost)`: step `i`
      takes `i + 1 + base` units. A value past 255 overflows the byte,
      which is fatal. */
  function InitialWork(n: nat, base: nat): (r: Option<seq<nat>>)
    ensures r.Some? <==> n == 0 || n + base <= 255
    ensures r.Some? ==> |r.value| == n && forall i :: 0 <= i < n ==> r.value[i] == i + 1 + base
  {
    if n > 0 && n + base > 255 then None
    else Some(seq(n, i => i + 1 + base))
  }

  /** `solve_part2_impl`: how long `workers` workers need when step `i`
      takes `i + 1 + base` seconds. */
  function Part2Impl(insts: seq<Instruction>, workers: nat, base: nat): (r: Option<nat>)
    ensures Dependencies(insts).None? ==> r.None?
    ensures r.Some? ==> Highest(insts) + 1 + base <= 255
  {
    match (Dependencies(insts), InitialWork(Highest(insts) + 1, base))
    case (Some(deps), Some(work)) =>
      DependenciesBounded(insts);
      assert work[0] > 0;
      Schedule(deps, workers, work, [], 0)
    case _ => None
  }

  /** `solve_part2`: fifteen workers, sixty seconds base cost. */
  function Part2(insts: seq<Instruction>): (r: Option<nat>)
    ensures r.Some? ==> Highest(insts) <= 194
  {
    Part2Impl(insts, 15, 60)
  }

  /** `solve_part2_impl`: the table and the work per step, then the
      rounds. */
  method SolvePart2Impl(insts: seq<Instruction>, workers: nat, base: nat) returns (r: Option<nat>)
    ensures r == Part2Impl(insts, workers, base)
  {
    var deps, highest := Setup(insts);
    var initial := InitialWork(highest + 1, base);
    if deps.None? || initial.None? {
      assert Part2Impl(insts, workers, base) == None;
      return None;
    }
    Part2Start(insts, workers, base);
    r := WorkUntilDone(deps.value, workers, initial.value);
  }

  /** Before the first second nobody works and step A has work left. */
  lemma Part2Start(insts: seq<Instruction>, workers: nat, base: nat)
    requires Dependencies(insts).Some? && InitialWork(Highest(insts) + 1, base).Some?
    ensures var deps := Dependencies(insts).value;
            var work := InitialWork(Highest(insts) + 1, base).value;
            Bounded(deps, |work|) && Busy(deps, work, [], workers) && !Finished(work) &&
            Part2Impl(insts, workers, base) == Schedule(deps, workers, work, [], 0)
  {
    var work := InitialWork(Highest(insts) + 1, base).value;
    DependenciesBounded(insts);
    assert work[0] > 0;
  }

  /** The `while` loop of `solve_part2_impl`, one second per round,
      answering the seconds spent less one. */
  method WorkUntilDone(table: seq<seq<nat>>, workers: nat, initial: seq<nat>) returns (r: Option<nat>)
    requires Bounded(table, |initial|) && Busy(table, initial, [], workers) && !Finished(initial)
    ensures r == Schedule(table, workers, initial, [], 0)
  {
    var work := initial;
    var under: seq<nat> := [];
    var time := 0;
    while !Finished(work)
      invariant Bounded(table, |work|) && Busy(table, work, under, workers)
      invariant time > 0 || !Finished(work)
      invariant Schedule(table, workers, work, under, time) == Schedule(table, workers, initial, [], 0)
      decreases Measure(work, under)
    {
      time := time + 1;
      var next := WorkOneSecond(table, workers, work, under);
      if next.None? {
        return None;
      }
      work, under := next.value.0, next.value.1;
    }
    return Some(time - 1);
  }
}
