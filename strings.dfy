/**
 * The Python string operations the pipeline relies on, over ASCII:
 * `lower`, `upper`, `strip`, `isalnum`, `in`, `split(sep)`, `sep.join`,
 * `replace`, `' '.join(s.split())`, `str(int)` and `f'{n:03d}'`.
 */
module Strs {
  import opened Common

  /** Python `str.isspace` restricted to ASCII. */
  predicate IsSpace(c: char)
  {
    c == ' ' || c == '\t' || c == '\n' || c == '\r' || c == '\U{000B}' || c == '\U{000C}'
    || ('\U{001C}' <= c <= '\U{001F}')
  }

  predicate IsDigit(c: char) { '0' <= c <= '9' }
  predicate IsUpperLetter(c: char) { 'A' <= c <= 'Z' }
  predicate IsLowerLetter(c: char) { 'a' <= c <= 'z' }

  /** Python `str.isalnum` restricted to ASCII letters and digits. */
  predicate IsAlnum(c: char) { IsDigit(c) || IsUpperLetter(c) || IsLowerLetter(c) }

  function LowerChar(c: char): (r: char)
    ensures IsUpperLetter(c) ==> IsLowerLetter(r)
    ensures !IsUpperLetter(c) ==> r == c
  {
    if IsUpperLetter(c) then (c as int + 32) as char else c
  }

  function UpperChar(c: char): (r: char)
    ensures IsLowerLetter(c) ==> IsUpperLetter(r)
    ensures !IsLowerLetter(c) ==> r == c
  {
    if IsLowerLetter(c) then (c as int - 32) as char else c
  }

  /** `s.lower()`: same length, no upper-case letter left, idempotent. */
  function Lower(s: string): (r: string)
    ensures |r| == |s|
    ensures forall i :: 0 <= i < |s| ==> r[i] == LowerChar(s[i])
  {
    seq(|s|, i requires 0 <= i < |s| => LowerChar(s[i]))
  }

  function Upper(s: string): (r: string)
    ensures |r| == |s|
    ensures forall i :: 0 <= i < |s| ==> r[i] == UpperChar(s[i])
  {
    seq(|s|, i requires 0 <= i < |s| => UpperChar(s[i]))
  }

  /** Lower-casing distributes over concatenation. */
  lemma LowerConcat(a: string, b: string)
    ensures Lower(a + b) == Lower(a) + Lower(b)
  {
  }

  lemma LowerIdempotent(s: string)
    ensures Lower(Lower(s)) == Lower(s)
    ensures forall i :: 0 <= i < |s| ==> !IsUpperLetter(Lower(s)[i])
  {
  }

  /** `s.lstrip()`. */
  function LStrip(s: string): (r: string)
    ensures |r| <= |s| && r == s[|s| - |r|..]
    ensures r == [] || !IsSpace(r[0])
    ensures forall i :: 0 <= i < |s| - |r| ==> IsSpace(s[i])
    decreases |s|
  {
    if |s| > 0 && IsSpace(s[0]) then LStrip(s[1..]) else s
  }

  /** `s.rstrip()`. */
  function RStrip(s: string): (r: string)
    ensures |r| <= |s| && r == s[..|r|]
    ensures r == [] || !IsSpace(r[|r| - 1])
    ensures forall i :: |r| <= i < |s| ==> IsSpace(s[i])
    decreases |s|
  {
    if |s| > 0 && IsSpace(s[|s| - 1]) then RStrip(s[..|s| - 1]) else s
  }

  /** `s.strip()`: a contiguous piece of `s` with no white space at either end. */
  function Strip(s: string): (r: string)
  {
    RStrip(LStrip(s))
  }

  /** Stripping twice is stripping once. */
  lemma StripIdempotent(s: string)
    ensures Strip(Strip(s)) == Strip(s)
  {
    StripEnds(s);
    StripFixed(Strip(s));
  }

  /** The stripped text neither starts nor ends with white space. */
  lemma StripEnds(s: string)
    ensures Strip(s) == [] || (!IsSpace(Strip(s)[0]) && !IsSpace(Strip(s)[|Strip(s)| - 1]))
  {
    var l := LStrip(s);
    var r := RStrip(l);
    assert Strip(s) == r;
    if r != [] {
      assert r[0] == l[..|r|][0] == l[0];
    }
  }

  /** The stripped text is the piece of `s` after its leading white space. */
  lemma StripSlice(s: string)
    ensures |Strip(s)| <= |LStrip(s)| <= |s|
    ensures forall i :: 0 <= i < |Strip(s)| ==> Strip(s)[i] == s[|s| - |LStrip(s)| + i]
  {
    var l := LStrip(s);
    var r := Strip(s);
    var k := |s| - |l|;
    assert r == RStrip(l);
    assert r == l[..|r|];
    assert l == s[k..];
    forall i | 0 <= i < |r| ensures r[i] == s[k + i] {
      assert r[i] == l[..|r|][i];
      assert l[i] == s[k..][i];
    }
  }

  /** The stripped text is empty exactly when `s` is all white space. */
  lemma StripBlank(s: string)
    ensures Strip(s) == [] <==> forall i :: 0 <= i < |s| ==> IsSpace(s[i])
  {
    var l := LStrip(s);
    var k := |s| - |l|;
    StripSlice(s);
    if Strip(s) != [] {
      assert Strip(s)[0] == s[k];
    } else {
      assert RStrip(l) == [];
      assert l == [];
    }
  }

  /** Text with no white space at either end is its own strip. */
  lemma StripFixed(r: string)
    requires r == [] || (!IsSpace(r[0]) && !IsSpace(r[|r| - 1]))
    ensures Strip(r) == r
  {
    assert LStrip(r) == r;
    assert RStrip(r) == r;
  }

  // ---------------------------------------------------------------------
  // Substring search, split and join

  /** `p` occurs in `s` starting at index `i`. */
  predicate OccursAt(s: string, p: string, i: int)
  {
    0 <= i && i + |p| <= |s| && s[i..i + |p|] == p
  }

  /** `s.find(p, from)`: the leftmost occurrence of `p` at or after `from`. */
  function IndexFrom(s: string, p: string, from: nat): (r: Option<nat>)
    requires from <= |s|
    ensures r.Some? ==> from <= r.value && OccursAt(s, p, r.value)
                        && forall j :: from <= j < r.value ==> !OccursAt(s, p, j)
    ensures r.None? ==> forall j :: from <= j <= |s| ==> !OccursAt(s, p, j)
    decreases |s| - from
  {
    if from + |p| > |s| then None
    else if s[from..from + |p|] == p then Some(from)
    else IndexFrom(s, p, from + 1)
  }

  /** Python's `p in s`. */
  predicate Contains(s: string, p: string)
  {
    IndexFrom(s, p, 0).Some?
  }

  lemma ContainsIff(s: string, p: string)
    ensures Contains(s, p) <==> exists i :: OccursAt(s, p, i)
  {
    if !Contains(s, p) {
      assert forall i :: !OccursAt(s, p, i) by {
        forall i ensures !OccursAt(s, p, i) {
          if 0 <= i <= |s| {
          }
        }
      }
    }
  }

  /** A string contains every infix it is built around. */
  lemma ContainsInfix(a: string, p: string, b: string)
    ensures Contains(a + p + b, p)
  {
    OccursInfix(a, p, b);
    ContainsIff(a + p + b, p);
  }

  /** `p` occurs at the start of `p + b`. */
  lemma OccursAtStart(p: string, b: string)
    ensures OccursAt(p + b, p, 0)
  {
    assert (p + b)[..|p|] == p;
  }

  /** `p` occurs in `a + p + b` right after `a`. */
  lemma OccursInfix(a: string, p: string, b: string)
    ensures OccursAt(a + p + b, p, |a|)
  {
    assert (a + p + b)[|a|..|a| + |p|] == p;
  }

  /** A string built from parts contains each of them. */
  lemma ContainsPart(parts: seq<string>, k: nat)
    requires k < |parts|
    ensures Contains(Concat(parts), parts[k])
  {
    ConcatAt(parts, k);
    ContainsInfix(Concat(parts[..k]), parts[k], Concat(parts[k + 1..]));
  }

  /** Text around an occurrence keeps it. */
  lemma ContainsWithin(a: string, s: string, b: string, p: string)
    requires Contains(s, p)
    ensures Contains(a + s + b, p)
  {
    ContainsIff(s, p);
    var i :| OccursAt(s, p, i);
    assert (a + s + b)[|a| + i..|a| + i + |p|] == s[i..i + |p|];
    assert OccursAt(a + s + b, p, |a| + i);
    ContainsIff(a + s + b, p);
  }

  /** A joined string contains each of its parts. */
  lemma {:induction false} JoinContains(parts: seq<string>, sep: string, k: nat)
    requires k < |parts|
    ensures Contains(Join(parts, sep), parts[k])
    decreases |parts|
  {
    if |parts| == 1 {
      ContainsInfix("", parts[0], "");
      assert "" + parts[0] + "" == Join(parts, sep);
    } else if k == 0 {
      ContainsInfix("", parts[0], sep + Join(parts[1..], sep));
      assert "" + parts[0] + (sep + Join(parts[1..], sep)) == Join(parts, sep);
    } else {
      JoinContains(parts[1..], sep, k - 1);
      ContainsWithin(parts[0] + sep, Join(parts[1..], sep), "", parts[k]);
      assert (parts[0] + sep) + Join(parts[1..], sep) + "" == Join(parts, sep);
    }
  }

  /** A pattern holding a character the text lacks occurs nowhere in it. */
  lemma NoOccurrence(s: string, p: string, c: char)
    requires c in p && c !in s
    ensures forall i :: !OccursAt(s, p, i)
    ensures !Contains(s, p)
  {
    var k :| 0 <= k < |p| && p[k] == c;
    forall i | 0 <= i && i + |p| <= |s| ensures !OccursAt(s, p, i) {
      assert s[i..i + |p|][k] == s[i + k];
      assert s[i + k] in s;
    }
    ContainsIff(s, p);
  }

  /** `s.split(sep)` for a non-empty separator (Python rejects the empty one). */
  function Split(s: string, sep: string): (r: seq<string>)
    requires |sep| > 0
    ensures |r| >= 1
    ensures Contains(s, sep) ==> |r| >= 2
    ensures forall k :: 0 <= k < |r| ==> |r[k]| <= |s|
    decreases |s|
  {
    match IndexFrom(s, sep, 0)
    case None => [s]
    case Some(i) => [s[..i]] + Split(s[i + |sep|..], sep)
  }

  /** Where the first `p` in `s` ends. */
  function EndOfFirst(s: string, p: string): (n: nat)
    requires Contains(s, p)
    ensures |p| <= n <= |s|
  {
    IndexFrom(s, p, 0).value + |p|
  }

  /** `s.startswith(p)`. */
  predicate StartsWith(s: string, p: string)
  {
    |p| <= |s| && s[..|p|] == p
  }

  /** A string that begins with `a` does not begin with a `b` that differs from `a` within both. */
  lemma DifferentStart(a: string, v: string, b: string, k: nat)
    requires k < |a| && k < |b| && a[k] != b[k]
    ensures !StartsWith(a + v, b)
  {
    assert (a + v)[k] == a[k];
  }

  /**
   * Lines grouped by heading, each line starting with its group's heading,
   * where headings differ in their first character: when one group is
   * empty, no line of all the groups starts with its heading.
   */
  lemma NoLineForHeading(groups: seq<seq<string>>, headings: seq<string>, i: nat)
    requires |groups| == |headings| && i < |headings|
    requires forall j :: 0 <= j < |headings| ==> |headings[j]| > 0
    requires forall j :: 0 <= j < |headings| && j != i ==> headings[j][0] != headings[i][0]
    requires forall j, l :: 0 <= j < |groups| && l in groups[j] ==> StartsWith(l, headings[j])
    requires groups[i] == []
    ensures forall l :: l in Concat(groups) ==> !StartsWith(l, headings[i])
  {
    forall l | l in Concat(groups) ensures !StartsWith(l, headings[i]) {
      ConcatMember(groups, l);
      var j :| 0 <= j < |groups| && l in groups[j];
      assert l[0] == headings[j][0];
    }
  }

  /** The text of `s` from `from` up to the next `p`, or to the end when there is none. */
  function UpTo(s: string, p: string, from: nat): (r: string)
    requires from <= |s|
  {
    match IndexFrom(s, p, from)
    case Some(j) => s[from..j]
    case None => s[from..]
  }

  /** Searching a suffix finds the same occurrence as searching the whole string from the suffix's start. */
  lemma {:induction false} IndexFromShift(s: string, p: string, k: nat, m: nat)
    requires k + m <= |s|
    ensures IndexFrom(s[k..], p, m).None? <==> IndexFrom(s, p, k + m).None?
    ensures IndexFrom(s[k..], p, m).Some? ==> IndexFrom(s[k..], p, m).value + k == IndexFrom(s, p, k + m).value
    decreases |s| - (k + m)
  {
    var t := s[k..];
    if m + |p| <= |t| {
      assert t[m..m + |p|] == s[k + m..k + m + |p|];
      if t[m..m + |p|] != p {
        IndexFromShift(s, p, k, m + 1);
      }
    }
  }

  /** The end of `UpTo(s, p, from)` in `s`. */
  function UpToEnd(s: string, p: string, from: nat): (e: nat)
    requires from <= |s|
    ensures from <= e <= |s| && UpTo(s, p, from) == s[from..e]
  {
    match IndexFrom(s, p, from)
    case Some(j) => j
    case None => |s|
  }

  /** The first piece of `s.split(sep)` is the text up to the first `sep`. */
  lemma SplitFirst(s: string, sep: string)
    requires |sep| > 0
    ensures Split(s, sep)[0] == UpTo(s, sep, 0)
  {
  }

  /** The text up to the next `p` is the same whether searched in a suffix or in the whole string. */
  lemma UpToShift(s: string, p: string, n: nat)
    requires n <= |s|
    ensures UpTo(s[n..], p, 0) == UpTo(s, p, n)
  {
    IndexFromShift(s, p, n, 0);
    var rest := s[n..];
    match IndexFrom(rest, p, 0)
    case None =>
      assert rest[0..] == s[n..];
    case Some(j) =>
      assert rest[0..j] == s[n..j + n];
  }

  /** When `sep` occurs, `s.split(sep)` is the text before it followed by the split of the rest. */
  lemma SplitUnfold(s: string, sep: string)
    requires |sep| > 0 && Contains(s, sep)
    ensures Split(s, sep) == [s[..IndexFrom(s, sep, 0).value]] + Split(s[EndOfFirst(s, sep)..], sep)
  {
  }

  /** When `sep` occurs, the last piece of `s.split(sep)` is the last piece of the split of the rest. */
  lemma SplitLastPiece(s: string, sep: string, n: nat)
    requires |sep| > 0 && Contains(s, sep) && n == EndOfFirst(s, sep)
    ensures Split(s, sep)[|Split(s, sep)| - 1] == Split(s[n..], sep)[|Split(s[n..], sep)| - 1]
  {
    SplitUnfold(s, sep);
    LastOfCons(s[..IndexFrom(s, sep, 0).value], Split(s[n..], sep));
  }

  /** When `sep` occurs, the second piece of `s.split(sep)` runs from the end of the first `sep` up to the next. */
  lemma SplitSecond(s: string, sep: string)
    requires |sep| > 0 && Contains(s, sep)
    ensures Split(s, sep)[1] == UpTo(s, sep, EndOfFirst(s, sep))
  {
    var n := EndOfFirst(s, sep);
    var rest := s[n..];
    SplitUnfold(s, sep);
    assert Split(s, sep)[1] == Split(rest, sep)[0];
    SplitFirst(rest, sep);
    UpToShift(s, sep, n);
  }

  /** `s.split(sep)` has a third piece exactly when `sep` occurs again after the end of its first occurrence. */
  lemma SplitThird(s: string, sep: string)
    requires |sep| > 0 && Contains(s, sep)
    ensures |Split(s, sep)| >= 3 <==> Contains(s[EndOfFirst(s, sep)..], sep)
  {
    var rest := s[EndOfFirst(s, sep)..];
    SplitUnfold(s, sep);
    assert |Split(s, sep)| == 1 + |Split(rest, sep)|;
    if !Contains(rest, sep) {
      assert Split(rest, sep) == [rest];
    }
  }

  /** The text up to the next separator holds no separator. */
  lemma UpToAbsent(s: string, p: string, from: nat)
    requires from <= |s| && |p| > 0
    ensures !Contains(UpTo(s, p, from), p)
  {
    var e := UpToEnd(s, p, from);
    var u := s[from..e];
    forall x | OccursAt(u, p, x) ensures false {
      assert s[from + x..from + x + |p|] == u[x..x + |p|];
      assert OccursAt(s, p, from + x);
    }
    ContainsIff(u, p);
  }

  /** An occurrence with none before it, at or after `from`, is the one the search finds. */
  lemma IndexFromIs(s: string, p: string, from: nat, x: nat)
    requires from <= x && OccursAt(s, p, x)
    requires forall j :: from <= j < x ==> !OccursAt(s, p, j)
    ensures IndexFrom(s, p, from) == Some(x)
  {
  }

  /** A string without `p` runs up to its end. */
  lemma UpToWhole(s: string, p: string)
    requires !Contains(s, p)
    ensures UpTo(s, p, 0) == s
  {
  }

  /** An occurrence in a slice is an occurrence in the whole string. */
  lemma OccursInSlice(s: string, p: string, n: nat, e: nat, x: int)
    requires n <= e <= |s| && OccursAt(s[n..e], p, x)
    ensures OccursAt(s, p, n + x)
  {
    var a := s[n..e][x..x + |p|];
    var b := s[n + x..n + x + |p|];
    forall i | 0 <= i < |p| ensures a[i] == b[i] {
      assert a[i] == s[n..e][x + i];
    }
    assert a == b;
  }

  /** An occurrence lying inside a slice is an occurrence in the slice. */
  lemma OccursIntoSlice(s: string, p: string, n: nat, e: nat, y: int)
    requires n <= y && y + |p| <= e <= |s| && OccursAt(s, p, y)
    ensures OccursAt(s[n..e], p, y - n)
  {
    var a := s[n..e][y - n..y - n + |p|];
    var b := s[y..y + |p|];
    forall i | 0 <= i < |p| ensures a[i] == b[i] {
      assert a[i] == s[n..e][y - n + i];
    }
    assert a == b;
  }

  /** An occurrence of `p` is an occurrence of every prefix of `p`. */
  lemma OccursPrefix(s: string, p: string, q: string, k: int)
    requires |q| <= |p| && p[..|q|] == q && OccursAt(s, p, k)
    ensures OccursAt(s, q, k)
  {
    assert s[k..k + |q|] == s[k..k + |p|][..|q|];
  }

  /** With no `q` from `n` on, where `q` begins `p`, neither cut shortens the rest of the text. */
  lemma UpToNestedNone(s: string, p: string, q: string, n: nat)
    requires n <= |s| && 0 < |q| <= |p| && p[..|q|] == q
    requires IndexFrom(s, q, n).None?
    ensures UpTo(UpTo(s, p, n), q, 0) == s[n..]
  {
    if IndexFrom(s, p, n).Some? {
      OccursPrefix(s, p, q, IndexFrom(s, p, n).value);
    }
    var u := s[n..|s|];
    assert UpTo(s, p, n) == u;
    forall x | 0 <= x <= |u| ensures !OccursAt(u, q, x) {
      if OccursAt(u, q, x) {
        OccursInSlice(s, q, n, |s|, x);
      }
    }
    ContainsIff(u, q);
    UpToWhole(u, q);
  }

  /** A slice from `n` holds no occurrence before the first one at or after `n` in the whole string. */
  lemma NoEarlierInSlice(s: string, q: string, n: nat, e: nat, j: nat)
    requires n <= j && n <= e <= |s| && forall y :: n <= y < j ==> !OccursAt(s, q, y)
    ensures forall x :: 0 <= x < j - n ==> !OccursAt(s[n..e], q, x)
  {
    forall x | 0 <= x < j - n ensures !OccursAt(s[n..e], q, x) {
      if OccursAt(s[n..e], q, x) {
        OccursInSlice(s, q, n, e, x);
      }
    }
  }

  /** A prefix of a slice is a slice. */
  lemma SlicePrefix(s: string, n: nat, e: nat, k: nat)
    requires n <= e <= |s| && k <= e - n
    ensures s[n..e][0..k] == s[n..n + k]
  {
    var a := s[n..e][0..k];
    var b := s[n..n + k];
    forall i | 0 <= i < k ensures a[i] == b[i] {
      assert a[i] == s[n..e][i];
    }
    assert a == b;
  }

  /** When the next `q` from `n` ends before the next `p`, where `q` begins `p`, the nested cut is at that `q`. */
  lemma UpToNestedCut(s: string, p: string, q: string, n: nat)
    requires n <= |s| && 0 < |q| <= |p| && p[..|q|] == q
    requires IndexFrom(s, q, n).Some? && IndexFrom(s, q, n).value + |q| <= UpToEnd(s, p, n)
    ensures UpTo(UpTo(s, p, n), q, 0) == s[n..IndexFrom(s, q, n).value]
  {
    var e := UpToEnd(s, p, n);
    var j := IndexFrom(s, q, n).value;
    OccursIntoSlice(s, q, n, e, j);
    NoEarlierInSlice(s, q, n, e, j);
    IndexFromIs(s[n..e], q, 0, j - n);
    SlicePrefix(s, n, e, j - n);
  }

  /** `s.split(p)[1].split(q)[0]`: the second piece of `s` cut at `p`, cut again at the next `q`. */
  lemma SecondPieceCut(s: string, p: string, q: string)
    requires |p| > 0 && |q| > 0 && Contains(s, p)
    ensures Split(Split(s, p)[1], q)[0] == UpTo(UpTo(s, p, EndOfFirst(s, p)), q, 0)
  {
    var n := EndOfFirst(s, p);
    var u := Split(s, p)[1];
    assert u == UpTo(s, p, n) by {
      SplitSecond(s, p);
    }
    assert Split(u, q)[0] == UpTo(u, q, 0) by {
      SplitFirst(u, q);
    }
  }

  /** `s.split(p)[1].split(p)[0]` is just the second piece: it holds no `p` to cut at. */
  lemma SecondPieceOnce(s: string, p: string)
    requires |p| > 0 && Contains(s, p)
    ensures Split(Split(s, p)[1], p)[0] == UpTo(s, p, EndOfFirst(s, p))
    ensures Split(s, p)[1] == UpTo(s, p, EndOfFirst(s, p))
  {
    var n := EndOfFirst(s, p);
    SecondPieceCut(s, p, p);
    SplitSecond(s, p);
    UpToAbsent(s, p, n);
    UpToWhole(UpTo(s, p, n), p);
  }

  /** `sep.join(parts)`. */
  function Join(parts: seq<string>, sep: string): (r: string)
    decreases |parts|
  {
    if |parts| == 0 then ""
    else if |parts| == 1 then parts[0]
    else parts[0] + sep + Join(parts[1..], sep)
  }

  /** Splitting on a separator and joining with it gives back the input. */
  lemma {:induction false} JoinSplit(s: string, sep: string)
    requires |sep| > 0
    ensures Join(Split(s, sep), sep) == s
    decreases |s|
  {
    var found := IndexFrom(s, sep, 0);
    if found.Some? {
      var i := found.value;
      var rest := s[i + |sep|..];
      var parts := Split(rest, sep);
      JoinSplit(rest, sep);
      assert Split(s, sep) == [s[..i]] + parts;
      JoinCons(s[..i], parts, sep);
      assert s[i..i + |sep|] == sep;
      SliceThree(s, i, i + |sep|);
    }
  }

  lemma SliceThree(s: string, i: nat, j: nat)
    requires i <= j <= |s|
    ensures s == s[..i] + s[i..j] + s[j..]
  {
  }

  lemma JoinCons(a: string, parts: seq<string>, sep: string)
    requires |parts| >= 1
    ensures Join([a] + parts, sep) == a + sep + Join(parts, sep)
  {
    assert ([a] + parts)[1..] == parts;
  }

  /** Splitting a joined list on a one-character separator that none of the parts contains gives back the parts. */
  lemma {:induction false} SplitJoin(parts: seq<string>, sep: string)
    requires |sep| == 1 && |parts| >= 1
    requires forall k :: 0 <= k < |parts| ==> sep[0] !in parts[k]
    ensures Split(Join(parts, sep), sep) == parts
    decreases |parts|
  {
    var s := Join(parts, sep);
    var p0 := parts[0];
    assert forall j :: 0 <= j < |p0| ==> !OccursAt(s, sep, j) by {
      forall j | 0 <= j < |p0| ensures !OccursAt(s, sep, j) {
        if |parts| > 1 { assert s[j] == p0[j]; } else { assert s[j] == p0[j]; }
        assert p0[j] in p0;
      }
    }
    if |parts| == 1 {
      assert IndexFrom(s, sep, 0).None?;
    } else {
      var tail := Join(parts[1..], sep);
      assert s == p0 + sep + tail;
      assert OccursAt(s, sep, |p0|) by {
        assert s[|p0|..|p0| + 1] == sep;
      }
      assert IndexFrom(s, sep, 0) == Some(|p0|);
      assert s[..|p0|] == p0;
      assert s[|p0| + 1..] == tail;
      SplitJoin(parts[1..], sep);
    }
  }

  /** `s.replace(pat, rep)`: every non-overlapping occurrence, left to right. */
  function Replace(s: string, pat: string, rep: string): (r: string)
    requires |pat| > 0
    decreases |s|
  {
    match IndexFrom(s, pat, 0)
    case None => s
    case Some(i) => s[..i] + rep + Replace(s[i + |pat|..], pat, rep)
  }

  /** Replacing is splitting on the pat text and joining with the rep one. */
  lemma {:induction false} ReplaceIsJoinSplit(s: string, pat: string, rep: string)
    requires |pat| > 0
    ensures Replace(s, pat, rep) == Join(Split(s, pat), rep)
    decreases |s|
  {
    match IndexFrom(s, pat, 0)
    case None =>
    case Some(i) =>
      var rest := s[i + |pat|..];
      ReplaceIsJoinSplit(rest, pat, rep);
      JoinCons(s[..i], Split(rest, pat), rep);
  }

  /** Text without the pat pattern is left unchanged, and afterwards the pattern is gone when the rep text cannot recreate it. */
  lemma ReplaceAbsent(s: string, pat: string, rep: string)
    requires |pat| > 0 && !Contains(s, pat)
    ensures Replace(s, pat, rep) == s
  {
  }

  // ---------------------------------------------------------------------
  // White-space splitting: `s.split()` and `' '.join(s.split())`

  /** Index of the first white-space character of `t`, or `|t|`. */
  function FirstSpace(t: string): (k: nat)
    ensures k <= |t|
    ensures forall i :: 0 <= i < k ==> !IsSpace(t[i])
    ensures k < |t| ==> IsSpace(t[k])
    decreases |t|
  {
    if t == [] then 0 else if IsSpace(t[0]) then 0 else 1 + FirstSpace(t[1..])
  }

  /** A word: non-empty and free of white space. */
  predicate IsWord(w: string)
  {
    w != [] && forall i :: 0 <= i < |w| ==> !IsSpace(w[i])
  }

  /** `s.split()`: the maximal runs of non-white-space characters. */
  function Words(s: string): (r: seq<string>)
    ensures forall k :: 0 <= k < |r| ==> IsWord(r[k])
    decreases |s|
  {
    var t := LStrip(s);
    if t == [] then []
    else
      var k := FirstSpace(t);
      FirstWord(t);
      var rest := Words(t[k..]);
      WordListCons(t[..k], rest);
      [t[..k]] + rest
  }

  /** The text before the first white space of a stripped text is a word. */
  lemma FirstWord(t: string)
    requires t != [] && !IsSpace(t[0])
    ensures 0 < FirstSpace(t) && IsWord(t[..FirstSpace(t)])
  {
    var w := t[..FirstSpace(t)];
    forall i | 0 <= i < |w| ensures !IsSpace(w[i]) {
      assert w[i] == t[i];
    }
  }

  /** A word in front of a list of words gives a list of words. */
  lemma WordListCons(w: string, ws: seq<string>)
    requires IsWord(w) && forall k :: 0 <= k < |ws| ==> IsWord(ws[k])
    ensures forall k :: 0 <= k < |[w] + ws| ==> IsWord(([w] + ws)[k])
  {
    forall k | 0 <= k < |[w] + ws| ensures IsWord(([w] + ws)[k]) {
      if k > 0 {
        assert ([w] + ws)[k] == ws[k - 1];
      }
    }
  }

  /** `' '.join(s.split())`. */
  function NormalizeSpaces(s: string): (r: string)
  {
    Join(Words(s), " ")
  }

  /** The only white space in a joined list of words is the single spaces between them. */
  lemma {:induction false} JoinWordsShape(ws: seq<string>)
    requires forall k :: 0 <= k < |ws| ==> IsWord(ws[k])
    ensures var r := Join(ws, " ");
      forall i :: 0 <= i < |r| && IsSpace(r[i]) ==>
        r[i] == ' ' && 0 < i < |r| - 1 && !IsSpace(r[i - 1]) && !IsSpace(r[i + 1])
    ensures ws != [] ==> Join(ws, " ") != [] && !IsSpace(Join(ws, " ")[0])
    decreases |ws|
  {
    if |ws| > 1 {
      JoinWordsShape(ws[1..]);
      var t := Join(ws[1..], " ");
      var r := Join(ws, " ");
      var w := ws[0];
      assert r == w + " " + t;
      forall i | 0 <= i < |r| && IsSpace(r[i])
        ensures r[i] == ' ' && 0 < i < |r| - 1 && !IsSpace(r[i - 1]) && !IsSpace(r[i + 1])
      {
        if i == |w| {
          assert r[i - 1] == w[|w| - 1];
          assert r[i + 1] == t[0];
        } else if i > |w| + 1 {
          assert r[i] == t[i - |w| - 1];
          assert r[i - 1] == t[i - 1 - |w| - 1];
          assert r[i + 1] == t[i + 1 - |w| - 1];
        }
      }
      assert r[0] == w[0];
    }
  }

  lemma NormalizeSpacesShape(s: string)
    ensures var r := NormalizeSpaces(s);
      forall i :: 0 <= i < |r| && IsSpace(r[i]) ==>
        r[i] == ' ' && 0 < i < |r| - 1 && !IsSpace(r[i - 1]) && !IsSpace(r[i + 1])
  {
    JoinWordsShape(Words(s));
  }

  lemma {:induction false} FirstSpaceOfPrefix(w: string, rest: string)
    requires forall i :: 0 <= i < |w| ==> !IsSpace(w[i])
    requires rest == [] || IsSpace(rest[0])
    ensures FirstSpace(w + rest) == |w|
    decreases |w|
  {
    if w == [] {
      assert w + rest == rest;
    } else {
      assert (w + rest)[1..] == w[1..] + rest;
      FirstSpaceOfPrefix(w[1..], rest);
    }
  }

  /** A word followed by white space (or nothing) is split off as the first word. */
  lemma WordsCons(w: string, t: string)
    requires IsWord(w) && (t == [] || IsSpace(t[0]))
    ensures Words(w + t) == [w] + Words(t)
  {
    var s := w + t;
    assert s[0] == w[0];
    assert LStrip(s) == s;
    FirstSpaceOfPrefix(w, t);
    assert s[..|w|] == w;
    assert s[|w|..] == t;
  }

  lemma WordsSkipSpace(t: string)
    ensures Words(" " + t) == Words(t)
  {
    assert (" " + t)[1..] == t;
    assert LStrip(" " + t) == LStrip(t);
  }

  /** Words of a space-joined list of words are that list. */
  lemma {:induction false} WordsOfJoin(ws: seq<string>)
    requires forall k :: 0 <= k < |ws| ==> IsWord(ws[k])
    ensures Words(Join(ws, " ")) == ws
    decreases |ws|
  {
    if |ws| == 1 {
      WordsCons(ws[0], "");
      assert ws[0] + "" == ws[0];
    } else if |ws| > 1 {
      var t := Join(ws[1..], " ");
      assert Join(ws, " ") == ws[0] + (" " + t);
      WordsCons(ws[0], " " + t);
      WordsSkipSpace(t);
      assert forall k :: 0 <= k < |ws[1..]| ==> IsWord(ws[1..][k]) by {
        forall k | 0 <= k < |ws[1..]| ensures IsWord(ws[1..][k]) {
          assert ws[1..][k] == ws[k + 1];
        }
      }
      WordsOfJoin(ws[1..]);
      assert Words(Join(ws, " ")) == [ws[0]] + ws[1..];
      HeadTail(ws);
    }
  }

  /** Normalising white space a second time changes nothing. */
  lemma NormalizeSpacesIdempotent(s: string)
    ensures NormalizeSpaces(NormalizeSpaces(s)) == NormalizeSpaces(s)
  {
    WordsOfJoin(Words(s));
  }

  // ---------------------------------------------------------------------
  // Decimal numerals

  function DigitChar(d: nat): (c: char)
    requires d < 10
    ensures IsDigit(c)
  {
    ('0' as int + d) as char
  }

  function DigitValue(c: char): (d: nat)
    requires IsDigit(c)
    ensures d < 10
  {
    c as int - '0' as int
  }

  /** The value of a string of decimal digits (most significant first). */
  function DigitsValue(s: string): (v: nat)
    requires forall i :: 0 <= i < |s| ==> IsDigit(s[i])
    decreases |s|
  {
    if s == [] then 0 else 10 * DigitsValue(s[..|s| - 1]) + DigitValue(s[|s| - 1])
  }

  /** `str(n)` for a non-negative integer. */
  function NatToString(n: nat): (r: string)
    ensures |r| >= 1
    ensures forall i :: 0 <= i < |r| ==> IsDigit(r[i])
    decreases n
  {
    if n < 10 then [DigitChar(n)] else NatToString(n / 10) + [DigitChar(n % 10)]
  }

  /** `str(n)` for any integer. */
  function IntToString(n: int): (r: string)
  {
    if n < 0 then "-" + NatToString(-n) else NatToString(n)
  }

  /** Reading back the digits of `str(n)` gives `n`. */
  lemma {:induction false} NatToStringRoundTrip(n: nat)
    ensures DigitsValue(NatToString(n)) == n
    decreases n
  {
    if n >= 10 {
      NatToStringRoundTrip(n / 10);
      var s := NatToString(n);
      assert s[..|s| - 1] == NatToString(n / 10);
    }
  }

  lemma NatToStringInjective(m: nat, n: nat)
    requires NatToString(m) == NatToString(n)
    ensures m == n
  {
    NatToStringRoundTrip(m);
    NatToStringRoundTrip(n);
  }

  /** Leading zeros do not change the value of a numeral. */
  lemma {:induction false} LeadingZeros(z: nat, s: string)
    requires forall i :: 0 <= i < |s| ==> IsDigit(s[i])
    ensures var t := seq(z, _ => '0') + s;
      (forall i :: 0 <= i < |t| ==> IsDigit(t[i])) && DigitsValue(t) == DigitsValue(s)
    decreases |s|
  {
    var zs := seq(z, _ => '0');
    var t := zs + s;
    if s == [] {
      assert t == zs;
      ZerosValue(z);
    } else {
      LeadingZeros(z, s[..|s| - 1]);
      assert t[..|t| - 1] == zs + s[..|s| - 1];
    }
  }

  lemma {:induction false} ZerosValue(z: nat)
    ensures DigitsValue(seq(z, _ => '0')) == 0
    decreases z
  {
    if z > 0 {
      ZerosValue(z - 1);
      assert seq(z, _ => '0')[..z - 1] == seq(z - 1, _ => '0');
    }
  }

  /** `f'{n:03d}'`: at least three digits, zero-padded on the left. */
  function Pad3(n: nat): (r: string)
  {
    var s := NatToString(n);
    if |s| < 3 then seq(3 - |s|, _ => '0') + s else s
  }

  lemma Pad3Spec(n: nat)
    ensures |Pad3(n)| == Max(3, |NatToString(n)|)
    ensures forall i :: 0 <= i < |Pad3(n)| ==> IsDigit(Pad3(n)[i])
    ensures DigitsValue(Pad3(n)) == n
  {
    var s := NatToString(n);
    NatToStringRoundTrip(n);
    if |s| < 3 {
      LeadingZeros(3 - |s|, s);
    }
  }

  // ---------------------------------------------------------------------
  // The regular expression `(\d{4})`: the first run of four digits

  predicate FourDigitsAt(s: string, i: int)
  {
    0 <= i && i + 4 <= |s| && IsDigit(s[i]) && IsDigit(s[i + 1]) && IsDigit(s[i + 2]) && IsDigit(s[i + 3])
  }

  /** Leftmost index `>= from` where four digits start. */
  function FourDigitsFrom(s: string, from: nat): (r: Option<nat>)
    requires from <= |s|
    ensures r.Some? ==> from <= r.value && FourDigitsAt(s, r.value)
                        && forall j :: from <= j < r.value ==> !FourDigitsAt(s, j)
    ensures r.None? ==> forall j :: from <= j ==> !FourDigitsAt(s, j)
    decreases |s| - from
  {
    if from + 4 > |s| then None
    else if FourDigitsAt(s, from) then Some(from)
    else FourDigitsFrom(s, from + 1)
  }

  /** `int(re.search(r'(\d{4})', s).group(1))`, or `None` when there is no match. */
  function FirstFourDigitNumber(s: string): (r: Option<int>)
    ensures r.Some? ==> 0 <= r.value <= 9999
    ensures r.None? <==> forall j :: !FourDigitsAt(s, j)
  {
    match FourDigitsFrom(s, 0)
    case None => None
    case Some(i) =>
      assert FourDigitsAt(s, i);
      var v := DigitsValue(s[i..i + 4]);
      FourDigitValueBound(s[i..i + 4]);
      Some(v)
  }

  lemma FourDigitValueBound(d: string)
    requires |d| == 4 && forall i :: 0 <= i < 4 ==> IsDigit(d[i])
    ensures DigitsValue(d) <= 9999
  {
    DigitsValueBound(d);
  }

  function Pow10(n: nat): (r: nat)
    ensures r >= 1
  {
    if n == 0 then 1 else 10 * Pow10(n - 1)
  }

  lemma {:induction false} DigitsValueBound(s: string)
    requires forall i :: 0 <= i < |s| ==> IsDigit(s[i])
    ensures DigitsValue(s) < Pow10(|s|)
    decreases |s|
  {
    if s != [] {
      DigitsValueBound(s[..|s| - 1]);
    }
  }

  /** A four-digit year written out is found again as the first four-digit number of any text that starts with it. */
  lemma YearRoundTrip(y: int, rest: string)
    requires 1000 <= y <= 9999
    ensures FirstFourDigitNumber(IntToString(y) + rest) == Some(y)
  {
    var ys := NatToString(y);
    NatToStringLength4(y);
    NatToStringRoundTrip(y);
    var s := ys + rest;
    assert FourDigitsAt(s, 0) by {
      assert s[..4] == ys;
    }
    assert FourDigitsFrom(s, 0) == Some(0);
    assert s[0..4] == ys;
  }

  lemma NatToStringLength4(y: nat)
    requires 1000 <= y <= 9999
    ensures |NatToString(y)| == 4
  {
    assert NatToString(y) == NatToString(y / 10) + [DigitChar(y % 10)];
    assert NatToString(y / 10) == NatToString(y / 100) + [DigitChar((y / 10) % 10)];
    assert NatToString(y / 100) == NatToString(y / 1000) + [DigitChar((y / 100) % 10)];
  }
}
