/** The pieces of Rust's `str` API that the puzzle parsers use, over `string`
    (a sequence of characters): `lines`, `split`, `trim`, `trim_end`, and
    `parse`/`format!` of decimal integers. Each comes with the law that
    relates it to its inverse. */
module Text {
  import opened Common

  /** ASCII whitespace, as `char::is_whitespace` sees it on ASCII text. */
  predicate IsWhitespace(c: char)
  {
    c == ' ' || c == '\t' || c == '\n' || c == '\r' || c == '\U{000B}' || c == '\U{000C}'
  }

  predicate IsDigit(c: char)
  {
    '0' <= c <= '9'
  }

  predicate AllDigits(s: string)
  {
    forall k :: 0 <= k < |s| ==> IsDigit(s[k])
  }

  // ---------------------------------------------------------------------
  // split / lines

  /** The pieces joined back together with `sep` between neighbours. */
  function JoinWith(parts: seq<string>, sep: string): string
  {
    if parts == [] then ""
    else if |parts| == 1 then parts[0]
    else parts[0] + sep + JoinWith(parts[1..], sep)
  }

  /** `str::split` with a non-empty pattern: the pieces between the
      non-overlapping occurrences of `pat`, found scanning from the left.
      There is always at least one piece, and joining the pieces with the
      pattern gives back the input. */
  function SplitOn(s: string, pat: string): (parts: seq<string>)
    requires |pat| > 0
    ensures |parts| >= 1
    ensures JoinWith(parts, pat) == s
    decreases |s|
  {
    if |s| < |pat| then [s]
    else if s[..|pat|] == pat then
      var rest := SplitOn(s[|pat|..], pat);
      assert s == pat + s[|pat|..];
      [""] + rest
    else
      var rest := SplitOn(s[1..], pat);
      assert s == [s[0]] + s[1..];
      assert ([[s[0]] + rest[0]] + rest[1..])[1..] == rest[1..];
      [[s[0]] + rest[0]] + rest[1..]
  }

  /** Splitting at a single character leaves that character in no piece. */
  lemma {:induction false} SplitOnCharFree(s: string, c: char)
    ensures forall p | p in SplitOn(s, [c]) :: c !in p
    decreases |s|
  {
    if |s| >= 1 {
      if s[..1] == [c] {
        SplitOnCharFree(s[1..], c);
      } else {
        SplitOnCharFree(s[1..], c);
        var rest := SplitOn(s[1..], [c]);
        assert rest[0] in rest;
        assert s[0] != c;
      }
    }
  }

  lemma {:induction false} SplitOnCharPrefix(p: string, c: char, t: string)
    requires c !in p
    ensures SplitOn(p + [c] + t, [c]) == [p] + SplitOn(t, [c])
    decreases |p|
  {
    var s := p + [c] + t;
    if p == [] {
      assert s[..1] == [c];
      assert s[1..] == t;
    } else {
      assert p[0] in p;
      assert s[..1] == [p[0]] && s[..1] != [c];
      assert s[1..] == p[1..] + [c] + t;
      SplitOnCharPrefix(p[1..], c, t);
      assert [s[0]] + p[1..] == p;
    }
  }

  lemma {:induction false} SplitOnCharWhole(p: string, c: char)
    requires c !in p
    ensures SplitOn(p, [c]) == [p]
    decreases |p|
  {
    if |p| >= 1 {
      assert p[0] in p;
      assert p[..1] == [p[0]] && p[..1] != [c];
      SplitOnCharWhole(p[1..], c);
      assert [p[0]] + p[1..] == p;
    }
  }

  /** Splitting at a character undoes joining pieces that do not contain it. */
  lemma {:induction false} SplitJoinRoundTrip(parts: seq<string>, c: char)
    requires |parts| >= 1
    requires forall p | p in parts :: c !in p
    ensures SplitOn(JoinWith(parts, [c]), [c]) == parts
    decreases |parts|
  {
    if |parts| == 1 {
      SplitOnCharWhole(parts[0], c);
    } else {
      assert parts[0] in parts;
      assert forall p | p in parts[1..] :: p in parts;
      SplitJoinRoundTrip(parts[1..], c);
      SplitOnCharPrefix(parts[0], c, JoinWith(parts[1..], [c]));
      assert [parts[0]] + parts[1..] == parts;
    }
  }

  /** `str::lines`: the pieces between line feeds, where a line feed at the
      very end does not open another (empty) line. */
  function Lines(s: string): (ls: seq<string>)
    ensures forall l | l in ls :: '\n' !in l
  {
    if s == [] then []
    else
      var parts := SplitOn(s, "\n");
      SplitOnCharFree(s, '\n');
      if parts[|parts| - 1] == "" then parts[..|parts| - 1] else parts
  }

  /** Every line followed by a line feed. */
  function Unlines(ls: seq<string>): string
  {
    if ls == [] then "" else ls[0] + "\n" + Unlines(ls[1..])
  }

  lemma {:induction false} UnlinesIsJoin(ls: seq<string>)
    ensures Unlines(ls) == JoinWith(ls + [""], "\n")
    decreases |ls|
  {
    if ls != [] {
      UnlinesIsJoin(ls[1..]);
      assert (ls + [""])[1..] == ls[1..] + [""];
    }
  }

  /** `lines` takes apart what `Unlines` puts together. */
  lemma LinesRoundTrip(ls: seq<string>)
    requires forall l | l in ls :: '\n' !in l
    ensures Lines(Unlines(ls)) == ls
  {
    UnlinesIsJoin(ls);
    if ls != [] {
      var parts := ls + [""];
      assert forall p | p in parts :: '\n' !in p;
      SplitJoinRoundTrip(parts, '\n');
      assert parts[..|parts| - 1] == ls;
    }
  }

  // ---------------------------------------------------------------------
  // trim

  /** `str::trim_start`: the input without its leading whitespace. */
  function TrimStart(s: string): (r: string)
    ensures |r| <= |s| && r == s[|s| - |r|..]
    ensures forall k :: 0 <= k < |s| - |r| ==> IsWhitespace(s[k])
    ensures r == [] || !IsWhitespace(r[0])
  {
    if s != [] && IsWhitespace(s[0]) then TrimStart(s[1..]) else s
  }

  /** `str::trim_end`: the input without its trailing whitespace. */
  function TrimEnd(s: string): (r: string)
    ensures |r| <= |s| && r == s[..|r|]
    ensures forall k :: |r| <= k < |s| ==> IsWhitespace(s[k])
    ensures r == [] || !IsWhitespace(r[|r| - 1])
  {
    if s != [] && IsWhitespace(s[|s| - 1]) then TrimEnd(s[..|s| - 1]) else s
  }

  /** `str::trim`: whitespace removed at both ends. */
  function Trim(s: string): string
  {
    TrimEnd(TrimStart(s))
  }

  // ---------------------------------------------------------------------
  // decimal integers

  function DigitValue(c: char): nat
    requires IsDigit(c)
  {
    (c as int) - ('0' as int)
  }

  /** Two digits with the same value are the same character. */
  lemma DigitValueInjective(c: char, d: char)
    requires IsDigit(c) && IsDigit(d) && DigitValue(c) == DigitValue(d)
    ensures c == d
  {
  }

  function DigitChar(d: nat): (c: char)
    requires d < 10
    ensures IsDigit(c) && DigitValue(c) == d
  {
    ((('0' as int) + d) as char)
  }

  /** The number a string of decimal digits denotes, most significant first. */
  function DigitsValue(s: string): nat
    requires AllDigits(s)
  {
    if s == [] then 0 else DigitsValue(s[..|s| - 1]) * 10 + DigitValue(s[|s| - 1])
  }

  function ParseDigits(s: string): Option<nat>
  {
    if |s| > 0 && AllDigits(s) then Some(DigitsValue(s)) else None
  }

  /** `str::parse` into an unsigned integer: an optional '+' and then one or
      more decimal digits, nothing else (no blanks, no '-'). */
  function ParseNat(s: string): (r: Option<nat>)
    ensures r.Some? <==> ((|s| > 0 && AllDigits(s)) || (|s| > 1 && s[0] == '+' && AllDigits(s[1..])))
  {
    if |s| > 0 && s[0] == '+' then ParseDigits(s[1..]) else ParseDigits(s)
  }

  /** `str::parse` into a signed integer: an optional '+' or '-' and then one
      or more decimal digits. */
  function ParseInt(s: string): (r: Option<int>)
    ensures r.Some? <==> ((|s| > 0 && AllDigits(s)) || (|s| > 1 && (s[0] == '+' || s[0] == '-') && AllDigits(s[1..])))
    ensures r.Some? && |s| > 0 && s[0] == '-' ==> r.value <= 0
    ensures r.Some? && |s| > 0 && s[0] != '-' ==> r.value >= 0
  {
    if |s| > 0 && s[0] == '-' then
      match ParseDigits(s[1..])
      case Some(n) => Some(-(n as int))
      case None => None
    else
      match ParseNat(s)
      case Some(n) => Some(n)
      case None => None
  }

  /** `format!("{}", n)` for a non-negative integer; `parse` reads it back. */
  function ShowNat(n: nat): (s: string)
    ensures |s| > 0 && AllDigits(s) && s[0] != '+' && s[0] != '-'
    ensures DigitsValue(s) == n
  {
    if n < 10 then [DigitChar(n)]
    else
      var s := ShowNat(n / 10) + [DigitChar(n % 10)];
      assert s[..|s| - 1] == ShowNat(n / 10);
      s
  }

  /** `format!("{}", i)`: a '-' in front of negative numbers. */
  function ShowInt(i: int): (s: string)
  {
    if i < 0 then "-" + ShowNat(-i) else ShowNat(i)
  }

  lemma NatRoundTrip(n: nat)
    ensures ParseNat(ShowNat(n)) == Some(n)
  {
  }

  lemma IntRoundTrip(i: int)
    ensures ParseInt(ShowInt(i)) == Some(i)
  {
    if i < 0 {
      assert ShowInt(i)[1..] == ShowNat(-i);
    }
  }

  // ---------------------------------------------------------------------
  // comma-separated pairs

  lemma ShowIntNoComma(i: int)
    ensures ',' !in ShowInt(i)
  {
    IntRoundTrip(i);
  }

  /** Splitting "a, b" when neither part holds a comma. */
  lemma {:induction false} SplitOnCommaSpace(a: string, b: string)
    requires ',' !in a && ',' !in b
    ensures SplitOn(a + ", " + b, ", ") == [a, b]
    decreases |a|
  {
    var s := a + ", " + b;
    if a == [] {
      assert s[..2] == ", " && s[2..] == b;
      SplitOnCommaFree(b);
    } else {
      assert s[..2] != ", " by {
        assert s[0] == a[0];
      }
      assert s[1..] == a[1..] + ", " + b;
      SplitOnCommaSpace(a[1..], b);
      assert [a[0]] + a[1..] == a;
    }
  }

  lemma {:induction false} SplitOnCommaFree(b: string)
    requires ',' !in b
    ensures SplitOn(b, ", ") == [b]
    decreases |b|
  {
    if |b| >= 2 {
      assert b[..2] != ", " by {
        assert b[0] in b;
      }
      assert forall c :: c in b[1..] ==> c in b;
      SplitOnCommaFree(b[1..]);
      assert [b[0]] + b[1..] == b;
    }
  }

  // ---------------------------------------------------------------------
  // one item per line

  /** `lines.map(parse).collect()` where a line that does not parse is
      fatal: every line parsed in order, or nothing. */
  function ParseAll<T>(lines: seq<string>, parse: string -> Option<T>): (r: Option<seq<T>>)
    ensures r.Some? ==> |r.value| == |lines| &&
                        forall k :: 0 <= k < |lines| ==> parse(lines[k]) == Some(r.value[k])
    ensures r.None? ==> exists k :: 0 <= k < |lines| && parse(lines[k]).None?
  {
    if lines == [] then Some([])
    else match (ParseAll(lines[..|lines| - 1], parse), parse(lines[|lines| - 1]))
      case (Some(items), Some(item)) =>
        assert forall k :: 0 <= k < |lines| - 1 ==> lines[..|lines| - 1][k] == lines[k];
        Some(items + [item])
      case (None, _) =>
        var k :| 0 <= k < |lines| - 1 && parse(lines[..|lines| - 1][k]).None?;
        assert lines[..|lines| - 1][k] == lines[k];
        None
      case (_, None) => None
  }
}
