/** The string operations of Python that the statement parser relies on:
    str.strip() with no argument, str.startswith, str.replace and str.join,
    plus str.split on one character, which serves as the inverse of a join. */
module Text {

  /** Python's str.isspace for one character: the characters that str.strip()
      with no argument removes. Besides ASCII blanks this includes the
      non-breaking space U+00A0 and the other Unicode space separators. */
  predicate IsSpace(c: char) {
    var n := c as int;
    (0x09 <= n <= 0x0D) || (0x1C <= n <= 0x20) || n == 0x85 || n == 0xA0 ||
    n == 0x1680 || (0x2000 <= n <= 0x200A) || n == 0x2028 || n == 0x2029 ||
    n == 0x202F || n == 0x205F || n == 0x3000
  }

  predicate AllSpace(s: string) {
    forall k :: 0 <= k < |s| ==> IsSpace(s[k])
  }

  /** Number of whitespace characters at the front of s. */
  function LeadingSpaces(s: string): (n: nat)
    ensures n <= |s|
    ensures n < |s| ==> !IsSpace(s[n])
  {
    if |s| > 0 && IsSpace(s[0]) then LeadingSpaces(s[1..]) + 1 else 0
  }

  /** Number of whitespace characters at the back of s. */
  function TrailingSpaces(s: string): (n: nat)
    ensures n <= |s|
    ensures n < |s| ==> !IsSpace(s[|s| - n - 1])
  {
    if |s| > 0 && IsSpace(s[|s| - 1]) then TrailingSpaces(s[..|s| - 1]) + 1 else 0
  }

  /** The characters LeadingSpaces counts are all whitespace. */
  lemma {:induction false} LeadingRun(s: string)
    ensures forall k :: 0 <= k < LeadingSpaces(s) ==> IsSpace(s[k])
    decreases |s|
  {
    if |s| > 0 && IsSpace(s[0]) {
      LeadingRun(s[1..]);
      forall k | 1 <= k < LeadingSpaces(s) ensures IsSpace(s[k]) {
        assert s[k] == s[1..][k - 1];
      }
    }
  }

  /** The characters TrailingSpaces counts are all whitespace. */
  lemma {:induction false} TrailingRun(s: string)
    ensures forall k :: |s| - TrailingSpaces(s) <= k < |s| ==> IsSpace(s[k])
    decreases |s|
  {
    if |s| > 0 && IsSpace(s[|s| - 1]) {
      var t := s[..|s| - 1];
      TrailingRun(t);
      forall k | |s| - TrailingSpaces(s) <= k < |s| - 1 ensures IsSpace(s[k]) {
        assert s[k] == t[k];
      }
    }
  }

  /** Python's s.strip(): s without its leading and trailing whitespace. */
  function Strip(s: string): (r: string)
    ensures |r| <= |s|
    ensures r == [] <==> AllSpace(s)
    ensures r != [] ==> !IsSpace(r[0]) && !IsSpace(r[|r| - 1])
  {
    var i := LeadingSpaces(s);
    var m := TrailingSpaces(s[i..]);
    StripCut(s, i, m);
    s[i..|s| - m]
  }

  /** The strip of s is the part of s after its leading whitespace. */
  lemma StripSlice(s: string)
    ensures LeadingSpaces(s) + |Strip(s)| <= |s|
    ensures Strip(s) == s[LeadingSpaces(s)..LeadingSpaces(s) + |Strip(s)|]
  {
  }

  /** Cutting the leading run and then the trailing run of what is left:
      whitespace before i and from |s| - m on. */
  lemma StripCut(s: string, i: nat, m: nat)
    requires i == LeadingSpaces(s) && m == TrailingSpaces(s[i..])
    ensures i <= |s| - m
    ensures forall k :: 0 <= k < i || |s| - m <= k < |s| ==> IsSpace(s[k])
    ensures i == |s| - m <==> AllSpace(s)
    ensures i < |s| - m ==> !IsSpace(s[i]) && !IsSpace(s[|s| - m - 1])
  {
    CutRuns(s, i, m);
    if i < |s| - m {
      CutEnd(s, i, m);
      assert !AllSpace(s) by { assert !IsSpace(s[i]); }
    } else {
      assert AllSpace(s) by {
        forall k | 0 <= k < |s| ensures IsSpace(s[k]) {
          assert k < i || |s| - m <= k;
        }
      }
    }
  }

  lemma CutRuns(s: string, i: nat, m: nat)
    requires i == LeadingSpaces(s) && m == TrailingSpaces(s[i..])
    ensures i <= |s| - m
    ensures forall k :: 0 <= k < i || |s| - m <= k < |s| ==> IsSpace(s[k])
  {
    var t := s[i..];
    LeadingRun(s);
    TrailingRun(t);
    forall k | |s| - m <= k < |s| ensures IsSpace(s[k]) {
      var j := k - i;
      assert |t| - TrailingSpaces(t) <= j < |t|;
      assert s[k] == t[j];
    }
  }

  lemma CutEnd(s: string, i: nat, m: nat)
    requires i <= |s| && m == TrailingSpaces(s[i..]) && i < |s| - m
    ensures !IsSpace(s[|s| - m - 1])
  {
    var t := s[i..];
    assert m < |t|;
    assert !IsSpace(t[|t| - m - 1]);
    assert s[|s| - m - 1] == t[|t| - m - 1];
  }

  /** Reference meaning of a trim: s[i..j] is what is left of s once the
      whitespace run before i and the one from j on are cut off, and it neither
      starts nor ends with whitespace. */
  ghost predicate TrimmedAt(s: string, i: int, j: int) {
    0 <= i <= j <= |s| && AllSpace(s[..i]) && AllSpace(s[j..]) &&
    (i < j ==> !IsSpace(s[i]) && !IsSpace(s[j - 1]))
  }

  /** Strip cuts s at the one place a trim can be made. */
  lemma StripIsTrim(s: string)
    ensures TrimmedAt(s, LeadingSpaces(s), LeadingSpaces(s) + |Strip(s)|)
  {
    var i := LeadingSpaces(s);
    var m := TrailingSpaces(s[i..]);
    StripCut(s, i, m);
    assert Strip(s) == s[i..|s| - m];
    assert AllSpace(s[..i]) by {
      forall k | 0 <= k < i ensures IsSpace(s[..i][k]) { assert s[..i][k] == s[k]; }
    }
    var u := s[|s| - m..];
    assert AllSpace(u) by {
      forall k | 0 <= k < m ensures IsSpace(u[k]) { assert u[k] == s[|s| - m + k]; }
    }
  }

  /** Any trim of s is the one Strip makes. */
  lemma StripUnique(s: string, i: int, j: int)
    requires TrimmedAt(s, i, j)
    ensures Strip(s) == s[i..j]
  {
    var n := LeadingSpaces(s);
    var r := Strip(s);
    StripIsTrim(s);
    if i == j {
      assert forall k :: 0 <= k < |s| ==> (k < i ==> s[..i][k - 0] == s[k]) && (k >= j ==> s[j..][k - j] == s[k]);
      assert AllSpace(s);
    } else {
      // The first non-space character of s is at i, the last at j - 1.
      assert n == i;
      assert r != [] by {
        assert !AllSpace(s) by { assert !IsSpace(s[i]); }
      }
      var e := n + |r|;
      assert e == j;
    }
  }

  /** Stripping twice is stripping once. */
  lemma StripIdempotent(s: string)
    ensures Strip(Strip(s)) == Strip(s)
  {
    var r := Strip(s);
    assert r[..0] == [] && r[|r|..] == [];
    StripUnique(r, 0, |r|);
  }

  /** A whitespace character appended to s does not change its strip. */
  lemma StripTrailingSpace(s: string, c: char)
    requires IsSpace(c)
    ensures Strip(s + [c]) == Strip(s)
  {
    var i := LeadingSpaces(s);
    var j := i + |Strip(s)|;
    StripIsTrim(s);
    var s' := s + [c];
    assert s'[..i] == s[..i];
    assert s'[j..] == s[j..] + [c];
    assert s'[i..j] == s[i..j];
    StripUnique(s', i, j);
  }

  /** Stripping only removes characters. */
  lemma StripOmits(s: string, c: char)
    requires c !in s
    ensures c !in Strip(s)
  {
    var i := LeadingSpaces(s);
    var r := Strip(s);
    StripSlice(s);
    assert forall k :: 0 <= k < |r| ==> r[k] == s[i + k];
  }

  /** Python's s.startswith(p). */
  predicate StartsWith(s: string, p: string) {
    |p| <= |s| && s[..|p|] == p
  }

  /** pat occurs in s starting at index i. */
  ghost predicate OccursAt(s: string, pat: string, i: int) {
    0 <= i && i + |pat| <= |s| && s[i..i + |pat|] == pat
  }

  /** Python's s.replace(pat, rep) for a non-empty pat: scans s from the left
      and replaces every non-overlapping occurrence of pat by rep. */
  function ReplaceAll(s: string, pat: string, rep: string): string
    requires pat != []
    decreases |s|
  {
    if |s| < |pat| then s
    else if StartsWith(s, pat) then rep + ReplaceAll(s[|pat|..], pat, rep)
    else [s[0]] + ReplaceAll(s[1..], pat, rep)
  }

  /** Without an occurrence of pat, replacing leaves s as it is. */
  lemma {:induction false} ReplaceAllNoMatch(s: string, pat: string, rep: string)
    requires pat != []
    requires forall i :: !OccursAt(s, pat, i)
    ensures ReplaceAll(s, pat, rep) == s
    decreases |s|
  {
    if |s| >= |pat| {
      assert !OccursAt(s, pat, 0);
      forall i ensures !OccursAt(s[1..], pat, i) {
        if 0 <= i { OccursAtTail(s, pat, i); }
      }
      ReplaceAllNoMatch(s[1..], pat, rep);
      assert s == [s[0]] + s[1..];
    }
  }

  /** An occurrence in s[1..] is an occurrence in s one place further on. */
  lemma OccursAtTail(s: string, pat: string, j: int)
    requires |s| > 0 && 0 <= j
    ensures OccursAt(s[1..], pat, j) <==> OccursAt(s, pat, j + 1)
  {
    if 0 <= j && j + 1 + |pat| <= |s| {
      assert s[1..][j..j + |pat|] == s[j + 1..j + 1 + |pat|];
    }
  }

  /** Up to the leftmost occurrence of pat, replacing keeps s as it is. */
  lemma {:induction false} ReplaceAllSkip(s: string, pat: string, rep: string, i: nat)
    requires pat != [] && i <= |s|
    requires forall j :: 0 <= j < i ==> !OccursAt(s, pat, j)
    ensures ReplaceAll(s, pat, rep) == s[..i] + ReplaceAll(s[i..], pat, rep)
    decreases i
  {
    if i == 0 {
      assert s[..0] == [] && s[0..] == s;
    } else if |s| < |pat| {
      assert s[..i] + s[i..] == s;
    } else {
      var t := s[1..];
      assert !StartsWith(s, pat) by {
        assert !OccursAt(s, pat, 0);
        assert s[0..|pat|] == s[..|pat|];
      }
      forall j | 0 <= j < i - 1 ensures !OccursAt(t, pat, j) {
        OccursAtTail(s, pat, j);
      }
      ReplaceAllSkip(t, pat, rep, i - 1);
      KeepStep(s, pat, rep, i);
    }
  }

  /** One kept character in front of a kept prefix. */
  lemma KeepStep(s: string, pat: string, rep: string, i: int)
    requires pat != [] && 0 < i <= |s| && |pat| <= |s| && !StartsWith(s, pat)
    requires ReplaceAll(s[1..], pat, rep) == s[1..][..i - 1] + ReplaceAll(s[1..][i - 1..], pat, rep)
    ensures ReplaceAll(s, pat, rep) == s[..i] + ReplaceAll(s[i..], pat, rep)
  {
    var t := s[1..];
    ReplaceAllKeep(s, pat, rep);
    TailSlices(s, i);
    var r := ReplaceAll(s[i..], pat, rep);
    assert ReplaceAll(s, pat, rep) == [s[0]] + (t[..i - 1] + r);
    assert [s[0]] + (t[..i - 1] + r) == ([s[0]] + t[..i - 1]) + r;
  }

  lemma TailSlices(s: string, i: int)
    requires 0 < i <= |s|
    ensures s[1..][i - 1..] == s[i..] && [s[0]] + s[1..][..i - 1] == s[..i]
  {
  }

  /** The leftmost occurrence of pat is the first one replaced: everything
      before it is kept and the scan resumes right after it. */
  lemma ReplaceAllLeftmost(s: string, pat: string, rep: string, i: int)
    requires pat != []
    requires OccursAt(s, pat, i)
    requires forall j :: 0 <= j < i ==> !OccursAt(s, pat, j)
    ensures ReplaceAll(s, pat, rep) == s[..i] + rep + ReplaceAll(s[i + |pat|..], pat, rep)
  {
    var rest := s[i + |pat|..];
    var u := s[i..];
    ReplaceAllSkip(s, pat, rep, i);
    SliceSplit(s, i, i + |pat|);
    ReplaceAllPrefix(pat, rest, rep);
    assert ReplaceAll(u, pat, rep) == rep + ReplaceAll(rest, pat, rep);
  }

  lemma SliceSplit(s: string, i: int, j: int)
    requires 0 <= i <= j <= |s|
    ensures s[i..] == s[i..j] + s[j..]
  {
  }

  /** Where pat does not start s, the first character is kept. */
  lemma ReplaceAllKeep(s: string, pat: string, rep: string)
    requires pat != [] && |pat| <= |s| && !StartsWith(s, pat)
    ensures ReplaceAll(s, pat, rep) == [s[0]] + ReplaceAll(s[1..], pat, rep)
  {
  }

  /** A string that starts with pat loses that occurrence first. */
  lemma ReplaceAllPrefix(pat: string, t: string, rep: string)
    requires pat != []
    ensures ReplaceAll(pat + t, pat, rep) == rep + ReplaceAll(t, pat, rep)
  {
    var s := pat + t;
    assert s[..|pat|] == pat;
    assert s[|pat|..] == t;
  }

  /** Replacing one character by another is a character-by-character map:
      the length is kept, and only the occurrences of c change. */
  lemma {:induction false} ReplaceAllChar(s: string, c: char, d: char)
    ensures |ReplaceAll(s, [c], [d])| == |s|
    ensures forall k :: 0 <= k < |s| ==> ReplaceAll(s, [c], [d])[k] == if s[k] == c then d else s[k]
    decreases |s|
  {
    if |s| > 0 {
      ReplaceAllChar(s[1..], c, d);
      var r := ReplaceAll(s, [c], [d]);
      if s[0] == c {
        assert StartsWith(s, [c]);
        assert r == [d] + ReplaceAll(s[1..], [c], [d]);
      } else {
        assert r == [s[0]] + ReplaceAll(s[1..], [c], [d]);
      }
    }
  }

  /** A character that is in neither s nor rep is not in the result. */
  lemma {:induction false} ReplaceAllOmits(s: string, pat: string, rep: string, c: char)
    requires pat != []
    requires c !in s && c !in rep
    ensures c !in ReplaceAll(s, pat, rep)
    decreases |s|
  {
    if |s| >= |pat| {
      if StartsWith(s, pat) {
        assert forall x :: x in s[|pat|..] ==> x in s;
        ReplaceAllOmits(s[|pat|..], pat, rep, c);
      } else {
        assert forall x :: x in s[1..] ==> x in s;
        ReplaceAllOmits(s[1..], pat, rep, c);
      }
    }
  }

  /** Python's sep.join(parts). */
  function Join(parts: seq<string>, sep: string): string {
    if |parts| == 0 then ""
    else if |parts| == 1 then parts[0]
    else parts[0] + sep + Join(parts[1..], sep)
  }

  /** A character that is in no part and not in sep is not in the join. */
  lemma {:induction false} JoinOmits(parts: seq<string>, sep: string, c: char)
    requires forall k :: 0 <= k < |parts| ==> c !in parts[k]
    requires c !in sep
    ensures c !in Join(parts, sep)
  {
    if |parts| > 1 {
      JoinOmits(parts[1..], sep, c);
    }
  }

  /** Python's s.split(c) for one separator character: the pieces between the
      occurrences of c, an empty string giving [""]. */
  function Split(s: string, c: char): (r: seq<string>)
    ensures |r| >= 1
  {
    if |s| == 0 then [""]
    else
      var rest := Split(s[1..], c);
      if s[0] == c then [""] + rest else [[s[0]] + rest[0]] + rest[1..]
  }

  /** A string without the separator is one piece. */
  lemma {:induction false} SplitNone(a: string, c: char)
    requires c !in a
    ensures Split(a, c) == [a]
  {
    if |a| > 0 {
      SplitNone(a[1..], c);
      assert a == [a[0]] + a[1..];
    }
  }

  /** The first separator ends the first piece. */
  lemma {:induction false} SplitFirst(a: string, b: string, c: char)
    requires c !in a
    ensures Split(a + [c] + b, c) == [a] + Split(b, c)
  {
    var s := a + [c] + b;
    if |a| == 0 {
      assert s[1..] == b;
    } else {
      assert s[1..] == a[1..] + [c] + b;
      SplitFirst(a[1..], b, c);
      assert a == [a[0]] + a[1..];
    }
  }

  /** Splitting undoes joining on a character that no part contains. */
  lemma {:induction false} SplitJoin(parts: seq<string>, c: char)
    requires |parts| >= 1
    requires forall k :: 0 <= k < |parts| ==> c !in parts[k]
    ensures Split(Join(parts, [c]), c) == parts
  {
    if |parts| == 1 {
      SplitNone(parts[0], c);
    } else {
      SplitJoin(parts[1..], c);
      SplitFirst(parts[0], Join(parts[1..], [c]), c);
      assert parts == [parts[0]] + parts[1..];
    }
  }
}
