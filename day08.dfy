/** Day 8: a licence file is a tree written as a flat list of numbers. A
    node is a child count, a metadata count, the children one after the
    other, and then the metadata entries. Part 1 adds up every metadata
    entry; part 2 computes a node value in which metadata entries of an
    inner node index its children. */
module Day08 {
  import opened Common
  import opened Text

  datatype Node = Node(children: seq<Node>, metadata: seq<nat>)

  // ---------------------------------------------------------------------
  // generator

  /** The numbers of the words of one line, split at single blanks; a word
      that is not a number (an empty word included) is fatal. */
  function ParseWords(words: seq<string>): (r: Option<seq<nat>>)
    ensures r.Some? ==> |r.value| == |words|
    ensures r.Some? <==> forall k :: 0 <= k < |words| ==> ParseNat(words[k]).Some?
  {
    if words == [] then Some([])
    else
      match (ParseNat(words[0]), ParseWords(words[1..]))
      case (Some(n), Some(ns)) => Some([n] + ns)
      case _ =>
        assert forall k :: 1 <= k < |words| ==> words[k] == words[1..][k - 1];
        None
  }

  function ParseLines(lines: seq<string>): (r: Option<seq<nat>>)
    ensures r.Some? <==> forall k :: 0 <= k < |lines| ==> ParseWords(SplitOn(lines[k], " ")).Some?
  {
    if lines == [] then Some([])
    else
      match (ParseWords(SplitOn(lines[0], " ")), ParseLines(lines[1..]))
      case (Some(ns), Some(ms)) => Some(ns + ms)
      case _ => None
  }

  /** `generator`: every line split at blanks, every word parsed, all in
      one list. */
  function Generator(input: string): (r: Option<seq<nat>>)
    ensures r.Some? <==> forall k :: 0 <= k < |Lines(input)| ==> ParseWords(SplitOn(Lines(input)[k], " ")).Some?
  {
    ParseLines(Lines(input))
  }

  /** The numbers as one line, separated by single blanks. */
  function ShowWords(ns: seq<nat>): (ws: seq<string>)
    ensures |ws| == |ns|
    ensures forall k :: 0 <= k < |ws| ==> ws[k] == ShowNat(ns[k])
  {
    if ns == [] then [] else [ShowNat(ns[0])] + ShowWords(ns[1..])
  }

  lemma {:induction false} ParseShowWords(ns: seq<nat>)
    ensures ParseWords(ShowWords(ns)) == Some(ns)
    decreases |ns|
  {
    if ns != [] {
      ParseShowWords(ns[1..]);
      NatRoundTrip(ns[0]);
      assert ShowWords(ns)[1..] == ShowWords(ns[1..]);
      SplitFirst(ns);
    }
  }

  /** Writing a non-empty list on one line and reading it back gives the
      list. (An empty list gives an empty line, whose single empty word does
      not parse.) */
  lemma GeneratorRoundTrip(ns: seq<nat>)
    requires ns != []
    ensures Generator(JoinWith(ShowWords(ns), " ") + "\n") == Some(ns)
  {
    var ws := ShowWords(ns);
    var line := JoinWith(ws, " ");
    forall w | w in ws ensures ' ' !in w {
      var k :| 0 <= k < |ws| && ws[k] == w;
      assert forall i :: 0 <= i < |w| ==> IsDigit(w[i]);
    }
    SplitJoinRoundTrip(ws, ' ');
    ParseShowWords(ns);
    assert forall l | l in [line] :: '\n' !in l by {
      NoLineFeedInJoin(ws);
    }
    LinesRoundTrip([line]);
    assert Unlines([line]) == line + "\n";
    assert ParseLines([line][1..]) == Some([]);
    assert ns + [] == ns;
    assert ParseLines([line]) == Some(ns);
  }

  lemma {:induction false} NoLineFeedInJoin(ws: seq<string>)
    requires forall k :: 0 <= k < |ws| ==> AllDigits(ws[k])
    ensures '\n' !in JoinWith(ws, " ")
    decreases |ws|
  {
    if |ws| == 1 {
      assert forall i :: 0 <= i < |ws[0]| ==> IsDigit(ws[0][i]);
    } else if |ws| > 1 {
      NoLineFeedInJoin(ws[1..]);
      assert forall i :: 0 <= i < |ws[0]| ==> IsDigit(ws[0][i]);
    }
  }

  // ---------------------------------------------------------------------
  // parse_node

  /** `parse_node`: the node at the front of `input` and the numbers after
      it. A missing header is fatal (`unwrap` on an exhausted iterator);
      `take` hands out fewer metadata entries when the input ends early. */
  function ParseNode(input: seq<nat>): (r: Option<(Node, seq<nat>)>)
    ensures r.Some? ==> |r.value.1| < |input| && r.value.1 == input[|input| - |r.value.1|..]
    decreases |input|, 0
  {
    if |input| < 2 then None
    else
      var childCount := input[0];
      var metadataCount := input[1];
      match ParseChildren(childCount, input[2..])
      case None => None
      case Some((children, rest)) =>
        var taken := if metadataCount <= |rest| then metadataCount else |rest|;
        Some((Node(children, rest[..taken]), rest[taken..]))
  }

  /** `count` nodes one after the other. */
  function ParseChildren(count: nat, input: seq<nat>): (r: Option<(seq<Node>, seq<nat>)>)
    ensures r.Some? ==> |r.value.0| == count
    ensures r.Some? ==> |r.value.1| <= |input| && r.value.1 == input[|input| - |r.value.1|..]
    decreases |input|, 1, count
  {
    if count == 0 then Some(([], input))
    else
      match ParseNode(input)
      case None => None
      case Some((child, rest)) =>
        match ParseChildren(count - 1, rest)
        case None => None
        case Some((siblings, rest')) =>
          SuffixOfSuffix(input, rest, rest');
          Some(([child] + siblings, rest'))
  }

  /** A tail of a tail of `a` is a tail of `a`. */
  lemma SuffixOfSuffix(a: seq<nat>, b: seq<nat>, c: seq<nat>)
    requires |b| <= |a| && b == a[|a| - |b|..]
    requires |c| <= |b| && c == b[|b| - |c|..]
    ensures |c| <= |a| && c == a[|a| - |c|..]
  {
  }

  /** The numbers a node is written as. */
  function Serialize(n: Node): seq<nat>
    decreases n, 1
  {
    [|n.children|, |n.metadata|] + SerializeAll(n.children) + n.metadata
  }

  function SerializeAll(ns: seq<Node>): seq<nat>
    decreases ns, 0
  {
    if ns == [] then [] else Serialize(ns[0]) + SerializeAll(ns[1..])
  }

  /** Parsing reads back what `Serialize` writes, leaving whatever follows
      it untouched. */
  lemma {:induction false} ParseSerialize(n: Node, rest: seq<nat>)
    ensures ParseNode(Serialize(n) + rest) == Some((n, rest))
    decreases n, 1
  {
    var input := Serialize(n) + rest;
    var after := n.metadata + rest;
    assert input[2..] == SerializeAll(n.children) + after;
    ParseSerializeAll(n.children, after);
    assert after[..|n.metadata|] == n.metadata && after[|n.metadata|..] == rest;
  }

  lemma {:induction false} ParseSerializeAll(ns: seq<Node>, rest: seq<nat>)
    ensures ParseChildren(|ns|, SerializeAll(ns) + rest) == Some((ns, rest))
    decreases ns, 0
  {
    if ns != [] {
      var head, others := ns[0], ns[1..];
      var tail := SerializeAll(others) + rest;
      ParseSerialize(head, tail);
      ParseSerializeAll(others, rest);
      ParseChildrenCons(|ns|, Serialize(head) + tail, head, tail, others, rest);
      assert SerializeAll(ns) + rest == Serialize(head) + tail by {
        assert SerializeAll(ns) == Serialize(head) + SerializeAll(others);
        Assoc(Serialize(head), SerializeAll(others), rest);
      }
      SplitFirst(ns);
    }
  }

  /** Reading one more node in front of its siblings. */
  lemma ParseChildrenCons(count: nat, input: seq<nat>, child: Node, rest: seq<nat>, siblings: seq<Node>, rest': seq<nat>)
    requires count > 0 && ParseNode(input) == Some((child, rest))
    requires ParseChildren(count - 1, rest) == Some((siblings, rest'))
    ensures ParseChildren(count, input) == Some(([child] + siblings, rest'))
  {
  }

  // ---------------------------------------------------------------------
  // sum

  /** `Node::sum`: the node's own metadata plus its children's sums. */
  function NodeSum(n: Node): (r: int)
    ensures r == Sum(AllMetadata(n))
    decreases n, 1
  {
    SumAppend(AllMetadataOf(n.children), n.metadata);
    Sum(n.metadata) + ChildrenSum(n.children)
  }

  /** The children's sums together: every metadata entry below them. */
  function ChildrenSum(ns: seq<Node>): (r: int)
    ensures r == Sum(AllMetadataOf(ns))
    decreases ns, 0
  {
    if ns == [] then 0
    else
      SumAppend(AllMetadata(ns[0]), AllMetadataOf(ns[1..]));
      NodeSum(ns[0]) + ChildrenSum(ns[1..])
  }

  /** Every metadata entry of the tree, in the order they are written. */
  function AllMetadata(n: Node): seq<nat>
    decreases n, 1
  {
    AllMetadataOf(n.children) + n.metadata
  }

  function AllMetadataOf(ns: seq<Node>): seq<nat>
    decreases ns, 0
  {
    if ns == [] then [] else AllMetadata(ns[0]) + AllMetadataOf(ns[1..])
  }

  // ---------------------------------------------------------------------
  // value

  /** `Node::value`: a leaf is worth its sum; an inner node is worth the
      values of the children its metadata entries name. */
  function Value(n: Node): (r: int)
    ensures r >= 0
    decreases n, 2
  {
    if n.children == [] then
      SumNonNegative(AllMetadata(n));
      NodeSum(n)
    else MetadataValue(n.children, n.metadata)
  }

  /** The values the entries of `metadata` name, added up; never
      negative. */
  function MetadataValue(children: seq<Node>, metadata: seq<nat>): (r: int)
    ensures r >= 0
    decreases children, 1, |metadata|
  {
    if metadata == [] then 0
    else MetadataValue(children, metadata[..|metadata| - 1]) + Reference(children, metadata[|metadata| - 1])
  }

  /** One entry: 0 and entries past the last child name nothing; entry
      `k` names child `k - 1`. */
  function Reference(children: seq<Node>, index: nat): (r: int)
    ensures r >= 0
    ensures index == 0 || index > |children| ==> r == 0
    decreases children, 0
  {
    if index == 0 then 0
    else if index - 1 < |children| then Value(children[index - 1])
    else 0
  }

  /** How often `k` occurs among the entries. */
  function Occurrences(metadata: seq<nat>, k: nat): nat
  {
    multiset(metadata)[k]
  }

  /** Each of the first `j` children's values, weighted by how often an
      entry names it. */
  function Weighted(children: seq<Node>, metadata: seq<nat>, j: nat): int
    requires j <= |children|
  {
    if j == 0 then 0
    else Weighted(children, metadata, j - 1) + Occurrences(metadata, j) * Value(children[j - 1])
  }

  lemma {:induction false} WeightedSnoc(children: seq<Node>, metadata: seq<nat>, x: nat, j: nat)
    requires j <= |children|
    ensures Weighted(children, metadata + [x], j) ==
            Weighted(children, metadata, j) + (if 1 <= x <= j then Value(children[x - 1]) else 0)
  {
    assert multiset(metadata + [x]) == multiset(metadata) + multiset{x};
    if j > 0 {
      WeightedSnoc(children, metadata, x, j - 1);
    }
  }

  lemma {:induction false} MetadataValueWeighted(children: seq<Node>, metadata: seq<nat>)
    ensures MetadataValue(children, metadata) == Weighted(children, metadata, |children|)
    decreases |metadata|
  {
    if metadata == [] {
      ZeroWeights(children, |children|);
    } else {
      var front := metadata[..|metadata| - 1];
      var x := metadata[|metadata| - 1];
      MetadataValueWeighted(children, front);
      WeightedSnoc(children, front, x, |children|);
      assert front + [x] == metadata;
    }
  }

  lemma {:induction false} ZeroWeights(children: seq<Node>, j: nat)
    requires j <= |children|
    ensures Weighted(children, [], j) == 0
  {
    if j > 0 {
      ZeroWeights(children, j - 1);
    }
  }

  /** The value of an inner node: child `k` (1-based) counts once for
      every entry equal to `k`; entries 0 and entries past the last child
      count for nothing. */
  lemma ValueWeighted(n: Node)
    requires n.children != []
    ensures Value(n) == Weighted(n.children, n.metadata, |n.children|)
  {
    MetadataValueWeighted(n.children, n.metadata);
  }

  // ---------------------------------------------------------------------
  // solvers

  /** `solve_part1`: the sum of the tree at the front of the numbers. */
  function Part1(input: seq<nat>): (r: Option<int>)
    ensures r.Some? <==> ParseNode(input).Some?
    ensures r.Some? ==> r.value == Sum(AllMetadata(ParseNode(input).value.0))
  {
    match ParseNode(input)
    case None => None
    case Some((root, _)) =>
      Some(NodeSum(root))
  }

  /** `solve_part2`: the value of the tree at the front of the numbers. */
  function Part2(input: seq<nat>): (r: Option<int>)
    ensures r.Some? <==> ParseNode(input).Some?
    ensures r.Some? ==> r.value >= 0
  {
    match ParseNode(input)
    case None => None
    case Some((root, _)) =>
      Some(Value(root))
  }

  // ---------------------------------------------------------------------
  // the sample

  /** The sample tree: A has children B (metadata 10 11 12) and C, which
      has child D (metadata 99); C's metadata is 2, A's is 1 1 2. */
  function SampleTree(): Node
  {
    Node([Node([], [10, 11, 12]), Node([Node([], [99])], [2])], [1, 1, 2])
  }

  lemma SampleSerialized(input: seq<nat>)
    requires input == [2, 3, 0, 3, 10, 11, 12, 1, 1, 0, 1, 99, 2, 1, 1, 2]
    ensures Serialize(SampleTree()) == input
  {
    var d := Node([], [99]);
    var b := Node([], [10, 11, 12]);
    var c := Node([d], [2]);
    assert Serialize(b) == [0, 3, 10, 11, 12];
    assert Serialize(d) == [0, 1, 99];
    assert SerializeAll([d]) == [0, 1, 99];
    assert Serialize(c) == [1, 1, 0, 1, 99, 2];
    assert [b, c][1..] == [c];
    assert SerializeAll([c]) == Serialize(c) + [];
    assert SerializeAll([b, c]) == [0, 3, 10, 11, 12] + [1, 1, 0, 1, 99, 2];
  }

  /** The sample has metadata sum 138 and root value 66. */
  lemma Sample(input: seq<nat>)
    requires input == [2, 3, 0, 3, 10, 11, 12, 1, 1, 0, 1, 99, 2, 1, 1, 2]
    ensures Part1(input) == Some(138)
    ensures Part2(input) == Some(66)
  {
    SampleParses(input);
    SampleSum();
    SampleValue();
  }

  lemma SampleParses(input: seq<nat>)
    requires input == [2, 3, 0, 3, 10, 11, 12, 1, 1, 0, 1, 99, 2, 1, 1, 2]
    ensures ParseNode(input) == Some((SampleTree(), []))
  {
    SampleSerialized(input);
    ParseSerialize(SampleTree(), []);
    assert input + [] == input;
  }

  lemma SampleSum()
    ensures NodeSum(SampleTree()) == 138
  {
    var d := Node([], [99]);
    var b := Node([], [10, 11, 12]);
    var c := Node([d], [2]);
    assert Sum([10, 11, 12]) == 33 by {
      assert [10, 11, 12][..2] == [10, 11] && [10, 11][..1] == [10] && [10][..0] == [];
    }
    assert NodeSum(b) == 33;
    assert Sum([99]) == 99 by {
      assert [99][..0] == [];
    }
    assert NodeSum(d) == 99;
    assert Sum([2]) == 2 by {
      assert [2][..0] == [];
    }
    assert [d][1..] == [];
    assert ChildrenSum([d]) == 99;
    assert NodeSum(c) == 101;
    assert Sum([1, 1, 2]) == 4 by {
      assert [1, 1, 2][..2] == [1, 1] && [1, 1][..1] == [1] && [1][..0] == [];
    }
    assert [b, c][1..] == [c] && [c][1..] == [];
    assert ChildrenSum([b, c]) == 134;
    assert SampleTree() == Node([b, c], [1, 1, 2]);
  }

  lemma SampleValue()
    ensures Value(SampleTree()) == 66
  {
    var d := Node([], [99]);
    var b := Node([], [10, 11, 12]);
    var c := Node([d], [2]);
    assert Sum([10, 11, 12]) == 33 by {
      assert [10, 11, 12][..2] == [10, 11] && [10, 11][..1] == [10] && [10][..0] == [];
    }
    assert Value(b) == 33;
    assert [2][..0] == [];
    assert MetadataValue([d], [2]) == 0;
    assert Value(c) == 0;
    assert [1, 1, 2][..2] == [1, 1] && [1, 1][..1] == [1] && [1][..0] == [];
    assert MetadataValue([b, c], [1]) == 33;
    assert MetadataValue([b, c], [1, 1]) == 66;
    assert Reference([b, c], 2) == 0;
    assert MetadataValue([b, c], [1, 1, 2]) == 66;
    assert SampleTree() == Node([b, c], [1, 1, 2]);
  }
}
