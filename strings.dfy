/**
 * The JavaScript string operations the log parser relies on
 * (`includes`, `indexOf`, `startsWith`, `split`, `padStart`), stated over `seq<char>`.
 */
module Strings {
  import opened Wrappers

  /** `pat` occurs in `s` starting at position `i`. */
  predicate OccursAt(s: string, pat: string, i: nat) {
    i + |pat| <= |s| && s[i..i + |pat|] == pat
  }

  /** `s.indexOf(pat, from)`: the first occurrence of `pat` at or after `from`. */
  function IndexOfFrom(s: string, pat: string, from: nat): (r: Option<nat>)
    decreases |s| + 1 - from
    ensures r.Some? ==> from <= r.value && r.value + |pat| <= |s|
  {
    if from > |s| then None
    else if OccursAt(s, pat, from) then Some(from)
    else IndexOfFrom(s, pat, from + 1)
  }

  /** `IndexOfFrom` finds the leftmost occurrence at or after `from`, and reports `None` only when there is none. */
  lemma {:induction false} IndexOfFromFinds(s: string, pat: string, from: nat)
    decreases |s| + 1 - from
    ensures var r := IndexOfFrom(s, pat, from);
            (r.Some? ==> from <= r.value && OccursAt(s, pat, r.value)
                         && forall j: nat :: from <= j < r.value ==> !OccursAt(s, pat, j))
            && (r.None? ==> forall j: nat :: from <= j ==> !OccursAt(s, pat, j))
  {
    if from <= |s| && !OccursAt(s, pat, from) {
      IndexOfFromFinds(s, pat, from + 1);
    }
  }

  /** `s.indexOf(pat)`. */
  function IndexOf(s: string, pat: string): Option<nat> {
    IndexOfFrom(s, pat, 0)
  }

  lemma IndexOfFinds(s: string, pat: string)
    ensures var r := IndexOf(s, pat);
            (r.Some? ==> OccursAt(s, pat, r.value) && forall j: nat :: j < r.value ==> !OccursAt(s, pat, j))
            && (r.None? ==> forall j: nat :: !OccursAt(s, pat, j))
  {
    IndexOfFromFinds(s, pat, 0);
  }

  /** `s.includes(pat)`. */
  function Contains(s: string, pat: string): bool {
    IndexOf(s, pat).Some?
  }

  /** `includes` holds exactly when the pattern occurs somewhere. */
  lemma ContainsIff(s: string, pat: string)
    ensures Contains(s, pat) <==> exists j: nat :: OccursAt(s, pat, j)
  {
    IndexOfFinds(s, pat);
  }

  /** An occurrence makes `includes` true. */
  lemma ContainsAt(s: string, pat: string, j: nat)
    requires OccursAt(s, pat, j)
    ensures Contains(s, pat)
  {
    ContainsIff(s, pat);
  }

  /** `s` has no character `c`. */
  predicate Lacks(s: string, c: char) {
    forall k :: 0 <= k < |s| ==> s[k] != c
  }

  lemma LacksConcat(a: string, b: string, c: char)
    requires Lacks(a, c) && Lacks(b, c)
    ensures Lacks(a + b, c)
  {
    forall k | 0 <= k < |a + b| ensures (a + b)[k] != c {
      if k >= |a| {
        assert (a + b)[k] == b[k - |a|];
      }
    }
  }

  /** A text without the character `c` does not contain the one-character pattern `[c]`. */
  lemma CharAbsent(s: string, c: char)
    requires Lacks(s, c)
    ensures !Contains(s, [c])
  {
    forall j: nat | OccursAt(s, [c], j) ensures s[j] == c {
      OccurrenceHead(s, [c], j);
    }
    ContainsIff(s, [c]);
  }

  /** An occurrence of `pat` at `j` puts the first character of `pat` at `j`. */
  lemma OccurrenceHead(s: string, pat: string, j: nat)
    requires pat != [] && OccursAt(s, pat, j)
    ensures s[j] == pat[0]
  {
    assert s[j..j + |pat|][0] == s[j];
  }

  /** A one-character pattern occurs exactly where that character is. */
  lemma OccursAtChar(s: string, c: char, k: nat)
    requires k < |s|
    ensures OccursAt(s, [c], k) <==> s[k] == c
  {
    assert s[k..k + 1] == [s[k]];
  }

  /** An occurrence of `x + y` is an occurrence of `x` followed by one of `y`. */
  lemma OccursSplit(s: string, x: string, y: string, i: nat)
    requires OccursAt(s, x + y, i)
    ensures OccursAt(s, x, i) && OccursAt(s, y, i + |x|)
  {
    assert s[i..i + |x|] == (x + y)[..|x|];
    assert s[i + |x|..i + |x| + |y|] == (x + y)[|x|..];
  }

  /** Regrouping a text made of five parts around its fourth. */
  lemma Regroup(a: string, b: string, c: string, d: string, e: string)
    ensures a + (b + (c + d)) + e == (a + b) + c + (d + e)
  {
    assert a + (b + (c + d)) == (a + b) + c + d;
  }

  /** An occurrence of `x` followed by one of `y` is an occurrence of `x + y`. */
  lemma OccursConcat(s: string, x: string, y: string, i: nat)
    requires OccursAt(s, x, i) && OccursAt(s, y, i + |x|)
    ensures OccursAt(s, x + y, i)
  {
    assert s[i..i + |x| + |y|] == s[i..i + |x|] + s[i + |x|..i + |x| + |y|];
  }

  /** The middle of `a + b + c` is an occurrence of `b`. */
  lemma OccursMiddle(a: string, b: string, c: string)
    ensures OccursAt(a + b + c, b, |a|)
  {
    assert (a + b + c)[|a|..|a| + |b|] == b;
  }

  /** `s.startsWith(prefix)`. */
  predicate StartsWith(s: string, prefix: string) {
    OccursAt(s, prefix, 0)
  }

  /** The inverse of `Split`: the parts glued back together with `sep` between them. */
  function Join(parts: seq<string>, sep: string): string {
    if |parts| == 0 then ""
    else if |parts| == 1 then parts[0]
    else parts[0] + sep + Join(parts[1..], sep)
  }

  /** An occurrence inside a prefix of `s` is an occurrence in `s`. */
  lemma OccursInPrefix(s: string, pat: string, n: nat, j: nat)
    requires n <= |s| && OccursAt(s[..n], pat, j)
    ensures OccursAt(s, pat, j)
  {
    assert s[..n][j..j + |pat|] == s[j..j + |pat|];
  }

  /**
   * `s.split(sep)` for a non-empty separator: the pieces between the
   * non-overlapping occurrences of `sep`, searched left to right.
   */
  function Split(s: string, sep: string): (parts: seq<string>)
    requires sep != ""
    decreases |s|
    ensures |parts| >= 1
  {
    IndexOfFinds(s, sep);
    match IndexOf(s, sep)
    case None => [s]
    case Some(i) => [s[..i]] + Split(s[i + |sep|..], sep)
  }

  /** Joining the pieces with the separator gives the text back. */
  lemma {:induction false} SplitJoin(s: string, sep: string)
    requires sep != ""
    decreases |s|
    ensures Join(Split(s, sep), sep) == s
  {
    IndexOfFinds(s, sep);
    match IndexOf(s, sep)
    case None =>
    case Some(i) =>
      var rest := s[i + |sep|..];
      SplitJoin(rest, sep);
      var parts := Split(s, sep);
      assert parts == [s[..i]] + Split(rest, sep);
      assert parts[0] == s[..i] && parts[1..] == Split(rest, sep);
      assert Join(parts, sep) == s[..i] + sep + rest;
      assert s[i..i + |sep|] == sep;
      assert s == s[..i] + sep + rest;
  }

  /** No piece contains the separator. */
  lemma {:induction false} SplitPiecesLackSeparator(s: string, sep: string)
    requires sep != ""
    decreases |s|
    ensures forall k :: 0 <= k < |Split(s, sep)| ==> !Contains(Split(s, sep)[k], sep)
  {
    IndexOfFinds(s, sep);
    match IndexOf(s, sep)
    case None =>
      ContainsIff(s, sep);
    case Some(i) =>
      var rest := s[i + |sep|..];
      SplitPiecesLackSeparator(rest, sep);
      forall j: nat | OccursAt(s[..i], sep, j) ensures OccursAt(s, sep, j) && j < i {
        OccursInPrefix(s, sep, i, j);
      }
      ContainsIff(s[..i], sep);
      assert Split(s, sep) == [s[..i]] + Split(rest, sep);
  }

  /** A text with no occurrence of the separator splits into itself alone. */
  lemma {:induction false} SplitWithoutSeparator(s: string, sep: string)
    requires sep != "" && !Contains(s, sep)
    ensures Split(s, sep) == [s]
  {
  }

  /** The number of occurrences of `c` in `s`. */
  function Count(s: string, c: char): nat {
    if s == [] then 0 else (if s[0] == c then 1 else 0) + Count(s[1..], c)
  }

  lemma {:induction false} CountAppend(a: string, b: string, c: char)
    ensures Count(a + b, c) == Count(a, c) + Count(b, c)
  {
    if a != [] {
      assert (a + b)[1..] == a[1..] + b;
      CountAppend(a[1..], b, c);
    } else {
      assert a + b == b;
    }
  }

  lemma {:induction false} CountAbsent(s: string, c: char)
    requires Lacks(s, c)
    ensures Count(s, c) == 0
  {
    if s != [] {
      CountAbsent(s[1..], c);
    }
  }

  /** Splitting on a single character yields one more piece than it has occurrences. */
  lemma {:induction false} SplitCharCount(s: string, c: char)
    ensures |Split(s, [c])| == Count(s, c) + 1
    decreases |s|
  {
    IndexOfFinds(s, [c]);
    match IndexOf(s, [c])
    case None =>
      forall k | 0 <= k < |s| ensures s[k] != c {
        assert !OccursAt(s, [c], k);
      }
      CountAbsent(s, c);
    case Some(i) =>
      assert s == s[..i] + [c] + s[i + 1..] by {
        assert s[i..i + 1] == [c];
      }
      forall k | 0 <= k < i ensures s[..i][k] != c {
        assert !OccursAt(s, [c], k);
      }
      CountAbsent(s[..i], c);
      CountAppend(s[..i] + [c], s[i + 1..], c);
      CountAppend(s[..i], [c], c);
      SplitCharCount(s[i + 1..], c);
  }

  /**
   * When the head `a` cannot start an occurrence of `sep` (it has no
   * character equal to the separator's first one), splitting
   * `a + sep + b` cuts exactly after `a`.
   */
  lemma {:induction false} SplitAfterHead(a: string, sep: string, b: string)
    requires sep != ""
    requires Lacks(a, sep[0])
    ensures Split(a + sep + b, sep) == [a] + Split(b, sep)
  {
    var s := a + sep + b;
    assert OccursAt(s, sep, |a|) by {
      assert s[|a|..|a| + |sep|] == sep;
    }
    forall j: nat | j < |a| ensures !OccursAt(s, sep, j) {
      assert s[j] == a[j];
    }
    IndexOfFinds(s, sep);
    assert IndexOf(s, sep) == Some(|a|);
    assert s[..|a|] == a;
    assert s[|a| + |sep|..] == b;
  }

  /** `s.padStart(width, fill)`. */
  function PadStart(s: string, width: nat, fill: char): (r: string)
    decreases width - |s|
    ensures |r| == if |s| >= width then |s| else width
    ensures r[|r| - |s|..] == s
    ensures forall k :: 0 <= k < |r| - |s| ==> r[k] == fill
  {
    if |s| >= width then s else PadStart([fill] + s, width, fill)
  }

  /** The characters matched by the regex class `\d`. */
  predicate IsDigit(c: char) {
    '0' <= c <= '9'
  }

  /**
   * The decimal value of a digit string, as the date parser reads a numeric
   * field; a non-digit character reads as 0 (such fields never reach it).
   */
  function DecimalValue(s: string): nat {
    if s == [] then 0
    else 10 * DecimalValue(s[..|s| - 1]) + (if IsDigit(s[|s| - 1]) then s[|s| - 1] as int - '0' as int else 0)
  }

  /** A leading `0` does not change a decimal value. */
  lemma {:induction false} LeadingZeroValue(s: string)
    decreases |s|
    ensures DecimalValue(['0'] + s) == DecimalValue(s)
  {
    if s != [] {
      assert (['0'] + s)[..|s|] == ['0'] + s[..|s| - 1];
      LeadingZeroValue(s[..|s| - 1]);
    } else {
      assert (['0'] + s)[..0] == [];
    }
  }

  /** Padding with `0` on the left keeps the decimal value. */
  lemma {:induction false} PadStartValue(s: string, width: nat)
    decreases width - |s|
    ensures DecimalValue(PadStart(s, width, '0')) == DecimalValue(s)
  {
    if |s| < width {
      LeadingZeroValue(s);
      PadStartValue(['0'] + s, width);
    }
  }
}
