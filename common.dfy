/** Small shared vocabulary: the optional value that stands for Rust's
    `Option` (and for a panic where a solver has no answer), and the sums,
    maxima and minima the solvers take over sequences of integers. */
module Common {

  datatype Option<T> = None | Some(value: T)

  /** A prefix one longer is the prefix with the next element appended. */
  lemma TakeSnoc<T>(s: seq<T>, i: nat)
    requires i < |s|
    ensures s[..i + 1] == s[..i] + [s[i]]
  {
  }

  /** Concatenation is associative. */
  lemma Assoc<T>(u: seq<T>, v: seq<T>, w: seq<T>)
    ensures (u + v) + w == u + (v + w)
  {
  }

  lemma ConsAssoc<T>(x: T, u: seq<T>, v: seq<T>)
    ensures [x] + (u + v) == ([x] + u) + v
  {
  }

  /** A non-empty sequence is its first element followed by the rest. */
  lemma SplitFirst<T>(s: seq<T>)
    requires s != []
    ensures [s[0]] + s[1..] == s
  {
  }

  /** A non-empty sequence is its front with its last element appended. */
  lemma SplitLast<T>(s: seq<T>)
    requires s != []
    ensures s[..|s| - 1] + [s[|s| - 1]] == s
  {
  }

  /** A sequence is the part before `i`, its element at `i` and the rest. */
  lemma SplitAround<T>(s: seq<T>, i: nat, v: T)
    requires i < |s|
    ensures s == s[..i] + [s[i]] + s[i + 1..]
    ensures s[i := v] == s[..i] + [v] + s[i + 1..]
  {
  }

  /** Sum of a sequence, folded from the left like `Iterator::sum`. */
  function Sum(s: seq<int>): int
  {
    if s == [] then 0 else Sum(s[..|s| - 1]) + s[|s| - 1]
  }

  lemma {:induction false} SumAppend(a: seq<int>, b: seq<int>)
    ensures Sum(a + b) == Sum(a) + Sum(b)
    decreases |b|
  {
    if b == [] {
      assert a + b == a;
    } else {
      assert (a + b)[..|a + b| - 1] == a + b[..|b| - 1];
      SumAppend(a, b[..|b| - 1]);
    }
  }

  /** Raising one element raises the sum by the same amount. */
  lemma SumUpdate(s: seq<int>, i: nat, d: int)
    requires i < |s|
    ensures Sum(s[i := s[i] + d]) == Sum(s) + d
  {
    var front, back := s[..i], s[i + 1..];
    SplitAround(s, i, s[i] + d);
    assert Sum([s[i]]) == s[i] && Sum([s[i] + d]) == s[i] + d;
    SumAppend(front + [s[i]], back);
    SumAppend(front, [s[i]]);
    SumAppend(front + [s[i] + d], back);
    SumAppend(front, [s[i] + d]);
  }

  /** Inserting an element adds it to the sum. */
  lemma SumInsert(s: seq<int>, i: nat, x: int)
    requires i <= |s|
    ensures Sum(s[..i] + [x] + s[i..]) == Sum(s) + x
  {
    assert s == s[..i] + s[i..];
    SumAppend(s[..i], s[i..]);
    SumAppend(s[..i] + [x], s[i..]);
    SumAppend(s[..i], [x]);
  }

  /** Removing an element takes it off the sum. */
  lemma SumRemove(s: seq<int>, i: nat)
    requires i < |s|
    ensures Sum(s[..i] + s[i + 1..]) == Sum(s) - s[i]
  {
    var front, back := s[..i], s[i + 1..];
    SplitAround(s, i, s[i]);
    assert Sum([s[i]]) == s[i];
    SumAppend(front + [s[i]], back);
    SumAppend(front, [s[i]]);
    SumAppend(front, back);
  }

  lemma SumNonNegative(s: seq<int>)
    requires forall k :: 0 <= k < |s| ==> s[k] >= 0
    ensures Sum(s) >= 0
  {
    if s != [] {
      SumNonNegative(s[..|s| - 1]);
    }
  }

  /** The largest element (`Iterator::max`, which needs a non-empty input). */
  function Max(s: seq<int>): (m: int)
    requires |s| > 0
    ensures m in s
    ensures forall k :: 0 <= k < |s| ==> s[k] <= m
  {
    if |s| == 1 then s[0]
    else
      var m := Max(s[..|s| - 1]);
      assert forall k :: 0 <= k < |s| - 1 ==> s[..|s| - 1][k] == s[k];
      if s[|s| - 1] > m then s[|s| - 1] else m
  }

  /** The smallest element (`Iterator::min`, which needs a non-empty input). */
  function Min(s: seq<int>): (m: int)
    requires |s| > 0
    ensures m in s
    ensures forall k :: 0 <= k < |s| ==> m <= s[k]
  {
    if |s| == 1 then s[0]
    else
      var m := Min(s[..|s| - 1]);
      assert forall k :: 0 <= k < |s| - 1 ==> s[..|s| - 1][k] == s[k];
      if s[|s| - 1] < m then s[|s| - 1] else m
  }
}
