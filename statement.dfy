/** The Santander statement parser: `parse` turns the lines of a statement
    export into one text line per transaction, the four fields of a
    transaction joined by five spaces and the transactions joined by newlines.
    The steps follow the source: skip the header, strip and drop blank lines,
    remove field labels and currency suffixes, cut into groups of four, join. */
module Statement {
  import opened Text

  /** Lines at the top of every export (date range, blank, account, blank). */
  const HeaderLength: nat := 4
  /** Fields per transaction. */
  const RecordSize: nat := 4
  const FieldSeparator: string := "     "
  const RecordSeparator: char := '\n'

  const DateLabel: string := "Date: "
  const DescriptionLabel: string := "Description: "
  const AmountLabel: string := "Amount: "
  const BalanceLabel: string := "Balance: "
  const Currency: string := " GBP"

  // ---------------------------------------------------------------------
  // Step 1: the header

  /** data[4:] — a list of at most four lines leaves nothing. */
  function SkipHeader(lines: seq<string>): seq<string> {
    if |lines| <= HeaderLength then [] else lines[HeaderLength..]
  }

  // ---------------------------------------------------------------------
  // Step 2: strip every line and drop the empty ones

  /** [d.strip() for d in data] */
  function StripAll(lines: seq<string>): seq<string> {
    seq(|lines|, i requires 0 <= i < |lines| => Strip(lines[i]))
  }

  lemma StripAllAppend(a: seq<string>, b: seq<string>)
    ensures StripAll(a + b) == StripAll(a) + StripAll(b)
  {
    var l, r := StripAll(a + b), StripAll(a) + StripAll(b);
    assert |l| == |r|;
    forall k | 0 <= k < |l| ensures l[k] == r[k] {
      if k < |a| {
        assert (a + b)[k] == a[k];
      } else {
        assert (a + b)[k] == b[k - |a|];
      }
    }
  }

  /** list(filter(None, data)): the non-empty strings, in order. */
  function DropEmpty(lines: seq<string>): (r: seq<string>)
    ensures |r| <= |lines|
  {
    if |lines| == 0 then []
    else (if lines[0] == [] then [] else [lines[0]]) + DropEmpty(lines[1..])
  }

  /** The filter keeps exactly the non-empty lines. */
  lemma {:induction false} DropEmptyMembers(lines: seq<string>)
    ensures forall x :: x in DropEmpty(lines) <==> x in lines && x != []
    decreases |lines|
  {
    if |lines| > 0 {
      DropEmptyMembers(lines[1..]);
      assert lines == [lines[0]] + lines[1..];
    }
  }

  /** The lines after the header, stripped, without the blank ones. */
  function Cleaned(lines: seq<string>): seq<string> {
    DropEmpty(StripAll(SkipHeader(lines)))
  }

  lemma {:induction false} DropEmptyAppend(a: seq<string>, b: seq<string>)
    ensures DropEmpty(a + b) == DropEmpty(a) + DropEmpty(b)
  {
    if |a| > 0 {
      assert (a + b)[1..] == a[1..] + b;
      DropEmptyAppend(a[1..], b);
    } else {
      assert a + b == b;
    }
  }

  /** Every cleaned line is non-empty and already stripped. */
  lemma CleanedLines(lines: seq<string>)
    ensures forall k :: 0 <= k < |Cleaned(lines)| ==>
      Cleaned(lines)[k] != [] && Strip(Cleaned(lines)[k]) == Cleaned(lines)[k]
  {
    var stripped := StripAll(SkipHeader(lines));
    DropEmptyMembers(stripped);
    forall k | 0 <= k < |Cleaned(lines)|
      ensures Cleaned(lines)[k] != [] && Strip(Cleaned(lines)[k]) == Cleaned(lines)[k]
    {
      var x := Cleaned(lines)[k];
      assert x in Cleaned(lines);
      assert x in stripped;
      var i :| 0 <= i < |stripped| && stripped[i] == x;
      StripIdempotent(SkipHeader(lines)[i]);
    }
  }

  /** After the header, cleaning works line by line: the cleaned lines of
      a + b are those of a followed by those of b. */
  lemma CleanedAppend(h: seq<string>, a: seq<string>, b: seq<string>)
    requires |h| == HeaderLength
    ensures Cleaned(h + a + b) == Cleaned(h + a) + Cleaned(h + b)
  {
    assert SkipHeader(h + a + b) == a + b;
    assert SkipHeader(h + a) == a;
    assert SkipHeader(h + b) == b;
    StripAllAppend(a, b);
    DropEmptyAppend(StripAll(a), StripAll(b));
  }

  /** One line after the header contributes its strip, or nothing when it
      is blank or whitespace only. */
  lemma CleanedSingle(h: seq<string>, l: string)
    requires |h| == HeaderLength
    ensures Cleaned(h + [l]) == if AllSpace(l) then [] else [Strip(l)]
  {
    assert SkipHeader(h + [l]) == [l];
    assert StripAll([l]) == [Strip(l)];
    assert DropEmpty([Strip(l)]) == (if Strip(l) == [] then [] else [Strip(l)]) + DropEmpty([]);
  }

  /** The first line after the header contributes its strip, or nothing,
      ahead of what the remaining lines contribute. */
  lemma CleanedCons(h: seq<string>, l: string, rest: seq<string>)
    requires |h| == HeaderLength
    ensures Cleaned(h + [l] + rest) == (if AllSpace(l) then [] else [Strip(l)]) + Cleaned(h + rest)
  {
    CleanedAppend(h, [l], rest);
    CleanedSingle(h, l);
  }

  lemma StripAllCons(l: string, rest: seq<string>)
    ensures StripAll([l] + rest) == [Strip(l)] + StripAll(rest)
  {
    StripAllAppend([l], rest);
  }

  /** Without blank lines after the header, cleaning is exactly stripping. */
  lemma {:induction false} CleanedNoBlank(h: seq<string>, ls: seq<string>)
    requires |h| == HeaderLength
    requires forall k :: 0 <= k < |ls| ==> !AllSpace(ls[k])
    ensures Cleaned(h + ls) == StripAll(ls)
    decreases |ls|
  {
    if |ls| == 0 {
      assert h + ls == h;
    } else {
      var l, rest := ls[0], ls[1..];
      assert ls == [l] + rest;
      assert !AllSpace(l);
      CleanedNoBlank(h, rest);
      CleanedCons(h, l, rest);
      StripAllCons(l, rest);
    }
  }

  /** A whitespace-only line inserted anywhere after the header changes
      nothing. */
  lemma BlankLineIgnored(lines: seq<string>, i: nat, b: string)
    requires HeaderLength <= i <= |lines|
    requires AllSpace(b)
    ensures Cleaned(lines[..i] + [b] + lines[i..]) == Cleaned(lines)
  {
    var h, a, c := lines[..HeaderLength], lines[HeaderLength..i], lines[i..];
    InsertSplit(lines, i, b);
    CleanedAppend(h, a + [b], c);
    CleanedAppend(h, a, [b]);
    CleanedSingle(h, b);
    assert Cleaned(h + (a + [b])) == Cleaned(h + a) + [];
    assert Cleaned(h + a) + [] == Cleaned(h + a);
    CleanedAppend(h, a, c);
  }

  lemma InsertSplit(lines: seq<string>, i: nat, b: string)
    requires HeaderLength <= i <= |lines|
    ensures var h, a, c := lines[..HeaderLength], lines[HeaderLength..i], lines[i..];
      lines == h + a + c && lines[..i] + [b] + lines[i..] == h + (a + [b]) + c && h + (a + [b]) == h + a + [b]
  {
  }

  // ---------------------------------------------------------------------
  // Step 3: field labels and the currency suffix

  /** The body of the for-loop for one element d: four independent ifs, each
      testing the original d; the last one that fires gives the new value. */
  function RemoveLabel(d: string): string {
    var r1 := if StartsWith(d, "Date") then Strip(ReplaceAll(d, DateLabel, "")) else d;
    var r2 := if StartsWith(d, "Description") then Strip(ReplaceAll(d, DescriptionLabel, "")) else r1;
    var r3 := if StartsWith(d, "Amount") then Strip(ReplaceAll(ReplaceAll(d, AmountLabel, ""), Currency, "")) else r2;
    if StartsWith(d, "Balance") then Strip(ReplaceAll(ReplaceAll(d, BalanceLabel, ""), Currency, "")) else r3
  }

  /** What the loop leaves in the list: element i rewritten from element i. */
  function RemoveLabels(data: seq<string>): seq<string> {
    seq(|data|, i requires 0 <= i < |data| => RemoveLabel(data[i]))
  }

  /** The `for i, d in enumerate(data)` loop, rewriting the list in place. */
  method RemoveLabelsInPlace(data: array<string>)
    modifies data
    ensures forall i :: 0 <= i < data.Length ==> data[i] == RemoveLabel(old(data[i]))
    ensures data[..] == RemoveLabels(old(data[..]))
  {
    for i := 0 to data.Length
      invariant forall k :: 0 <= k < i ==> data[k] == RemoveLabel(old(data[k]))
      invariant forall k :: i <= k < data.Length ==> data[k] == old(data[k])
    {
      RemoveLabelAt(data, i);
    }
  }

  /** One pass of the loop body: four independent ifs on d = data[i], each
      overwriting data[i]; no other element changes. */
  method RemoveLabelAt(data: array<string>, i: nat)
    requires i < data.Length
    modifies data
    ensures data[i] == RemoveLabel(old(data[i]))
    ensures forall k :: 0 <= k < data.Length && k != i ==> data[k] == old(data[k])
  {
    var d := data[i];
    LabelsExclusive(d);
    if StartsWith(d, "Date") {
      data[i] := Strip(ReplaceAll(d, DateLabel, ""));
    }
    if StartsWith(d, "Description") {
      data[i] := Strip(ReplaceAll(d, DescriptionLabel, ""));
    }
    if StartsWith(d, "Amount") {
      data[i] := Strip(ReplaceAll(ReplaceAll(d, AmountLabel, ""), Currency, ""));
    }
    if StartsWith(d, "Balance") {
      data[i] := Strip(ReplaceAll(ReplaceAll(d, BalanceLabel, ""), Currency, ""));
    }
  }

  /** No line starts with two of the four words. */
  lemma LabelsExclusive(d: string)
    ensures StartsWith(d, "Date") ==>
      !StartsWith(d, "Description") && !StartsWith(d, "Amount") && !StartsWith(d, "Balance")
    ensures StartsWith(d, "Description") ==> !StartsWith(d, "Amount") && !StartsWith(d, "Balance")
    ensures StartsWith(d, "Amount") ==> !StartsWith(d, "Balance")
  {
    if StartsWith(d, "Date") { assert d[0] == "Date"[0] && d[1] == "Date"[1]; }
    if StartsWith(d, "Description") { assert d[0] == "Description"[0]; }
    if StartsWith(d, "Amount") { assert d[0] == "Amount"[0]; }
  }

  /** At most one of the four prefixes matches, so each kind of line gets
      exactly its own rule, and any other line is left as it is. */
  lemma RemoveLabelByKind(d: string)
    ensures StartsWith(d, "Date") ==> RemoveLabel(d) == Strip(ReplaceAll(d, DateLabel, ""))
    ensures StartsWith(d, "Description") ==> RemoveLabel(d) == Strip(ReplaceAll(d, DescriptionLabel, ""))
    ensures StartsWith(d, "Amount") ==>
      RemoveLabel(d) == Strip(ReplaceAll(ReplaceAll(d, AmountLabel, ""), Currency, ""))
    ensures StartsWith(d, "Balance") ==>
      RemoveLabel(d) == Strip(ReplaceAll(ReplaceAll(d, BalanceLabel, ""), Currency, ""))
    ensures (!StartsWith(d, "Date") && !StartsWith(d, "Description") &&
             !StartsWith(d, "Amount") && !StartsWith(d, "Balance")) ==> RemoveLabel(d) == d
  {
    LabelsExclusive(d);
  }

  /** A value free of whitespace and colons: a date or a decimal amount. */
  predicate PlainValue(v: string) {
    forall k :: 0 <= k < |v| ==> !IsSpace(v[k]) && v[k] != ':'
  }

  /** A string that lacks a character of pat has no occurrence of pat. */
  lemma NoOccurrenceWithout(s: string, pat: string, k: nat)
    requires k < |pat| && pat[k] !in s
    ensures forall i :: !OccursAt(s, pat, i)
  {
    forall i ensures !OccursAt(s, pat, i) {
      if 0 <= i && i + |pat| <= |s| {
        assert s[i..i + |pat|][k] == s[i + k];
      }
    }
  }

  lemma PlainValueStripped(v: string)
    requires PlainValue(v)
    ensures Strip(v) == v
  {
    assert v[..0] == [] && v[|v|..] == [];
    StripUnique(v, 0, |v|);
  }

  /** Removing a label that starts every line of its kind: the rest of the
      line, stripped, provided the label does not occur again in it. */
  lemma RemoveLabelPrefix(tag: string, rest: string)
    requires tag == DateLabel || tag == DescriptionLabel
    requires forall i :: !OccursAt(rest, tag, i)
    ensures RemoveLabel(tag + rest) == Strip(rest)
  {
    var d := tag + rest;
    ReplaceAllPrefix(tag, rest, "");
    ReplaceAllNoMatch(rest, tag, "");
    assert ReplaceAll(d, tag, "") == rest;
    assert StartsWith(d, tag) by { assert d[..|tag|] == tag; }
    PrefixRule(d, tag);
  }

  /** A date or description line gets the rule of its own label. */
  lemma PrefixRule(d: string, tag: string)
    requires tag == DateLabel || tag == DescriptionLabel
    requires StartsWith(d, tag)
    ensures RemoveLabel(d) == Strip(ReplaceAll(d, tag, ""))
  {
    LabelsExclusive(d);
    if tag == DateLabel {
      assert StartsWith(d, "Date") by { assert d[..4] == tag[..4]; }
    } else {
      assert StartsWith(d, "Description") by { assert d[..11] == tag[..11]; }
    }
  }

  /** "Date: 29/12/2012" gives "29/12/2012". */
  lemma RemoveLabelDate(v: string)
    requires PlainValue(v)
    ensures RemoveLabel(DateLabel + v) == v
  {
    NoOccurrenceWithout(v, DateLabel, 4);
    RemoveLabelPrefix(DateLabel, v);
    PlainValueStripped(v);
  }

  /** The money label goes from the front and occurs nowhere else. */
  lemma MoneyLabelRemoved(tag: string, w: string)
    requires tag == AmountLabel || tag == BalanceLabel
    requires ':' !in w
    ensures ReplaceAll(tag + w, tag, "") == w
  {
    ReplaceAllPrefix(tag, w, "");
    NoOccurrenceWithout(w, tag, |tag| - 2);
    ReplaceAllNoMatch(w, tag, "");
  }

  /** A plain value loses its " GBP" suffix, and only that. */
  lemma CurrencyRemoved(v: string, suffix: string)
    requires suffix == Currency || suffix == ""
    requires PlainValue(v)
    ensures ReplaceAll(v + suffix, Currency, "") == v
  {
    var w := v + suffix;
    if suffix == Currency {
      forall j | 0 <= j < |v| ensures !OccursAt(w, Currency, j) {
        assert w[j] == v[j];
        if j + 4 <= |w| {
          assert w[j..j + 4][0] == w[j];
        }
      }
      assert OccursAt(w, Currency, |v|) by {
        assert w[|v|..|v| + 4] == Currency;
      }
      ReplaceAllLeftmost(w, Currency, "", |v|);
      assert w[..|v|] == v;
      assert w[|v| + 4..] == [];
    } else {
      assert w == v;
      NoOccurrenceWithout(v, Currency, 0);
      ReplaceAllNoMatch(v, Currency, "");
    }
  }

  lemma NoColon(v: string, suffix: string)
    requires suffix == Currency || suffix == ""
    requires PlainValue(v)
    ensures ':' !in v + suffix
  {
    var w := v + suffix;
    assert forall k :: 0 <= k < |w| ==> w[k] == if k < |v| then v[k] else suffix[k - |v|];
  }

  /** An amount or a balance loses its label and its " GBP"; without the
      suffix it passes through, apart from the label. */
  lemma RemoveLabelMoney(tag: string, v: string, suffix: string)
    requires tag == AmountLabel || tag == BalanceLabel
    requires suffix == Currency || suffix == ""
    requires PlainValue(v)
    ensures RemoveLabel(tag + v + suffix) == v
  {
    var w := v + suffix;
    var d := tag + w;
    assert tag + v + suffix == d;
    NoColon(v, suffix);
    MoneyLabelRemoved(tag, w);
    CurrencyRemoved(v, suffix);
    PlainValueStripped(v);
    MoneyRule(d, tag);
  }

  /** An amount or balance line gets the rule of its own label. */
  lemma MoneyRule(d: string, tag: string)
    requires tag == AmountLabel || tag == BalanceLabel
    requires StartsWith(d, tag)
    ensures RemoveLabel(d) == Strip(ReplaceAll(ReplaceAll(d, tag, ""), Currency, ""))
  {
    LabelsExclusive(d);
    if tag == AmountLabel {
      assert StartsWith(d, "Amount") by { assert d[..6] == tag[..6]; }
    } else {
      assert StartsWith(d, "Balance") by { assert d[..7] == tag[..7]; }
    }
  }

  /** Removing labels never brings in a character the line did not have. */
  lemma RemoveLabelOmits(d: string, c: char)
    requires c !in d
    ensures c !in RemoveLabel(d)
  {
    RemoveLabelByKind(d);
    if StartsWith(d, "Date") {
      ReplaceAllOmits(d, DateLabel, "", c);
      StripOmits(ReplaceAll(d, DateLabel, ""), c);
    } else if StartsWith(d, "Description") {
      ReplaceAllOmits(d, DescriptionLabel, "", c);
      StripOmits(ReplaceAll(d, DescriptionLabel, ""), c);
    } else if StartsWith(d, "Amount") {
      ReplaceAllOmits(d, AmountLabel, "", c);
      ReplaceAllOmits(ReplaceAll(d, AmountLabel, ""), Currency, "", c);
      StripOmits(ReplaceAll(ReplaceAll(d, AmountLabel, ""), Currency, ""), c);
    } else if StartsWith(d, "Balance") {
      ReplaceAllOmits(d, BalanceLabel, "", c);
      ReplaceAllOmits(ReplaceAll(d, BalanceLabel, ""), Currency, "", c);
      StripOmits(ReplaceAll(ReplaceAll(d, BalanceLabel, ""), Currency, ""), c);
    }
  }

  // ---------------------------------------------------------------------
  // Step 4: groups of four

  function Min(a: int, b: int): int {
    if a <= b then a else b
  }

  /** [data[d:d+4] for d in range(0, len(data), 4)] */
  function Chunks(data: seq<string>): seq<seq<string>> {
    seq((|data| + RecordSize - 1) / RecordSize,
        k requires 0 <= k < (|data| + RecordSize - 1) / RecordSize =>
          data[RecordSize * k..Min(RecordSize * k + RecordSize, |data|)])
  }

  /** The first group is the first four lines, the rest grouped the same way. */
  lemma ChunksCons(data: seq<string>)
    requires |data| > 0
    ensures Chunks(data) ==
      if |data| <= RecordSize then [data] else [data[..RecordSize]] + Chunks(data[RecordSize..])
  {
    var c := Chunks(data);
    if |data| > RecordSize {
      var c' := Chunks(data[RecordSize..]);
      assert |c| == |c'| + 1;
      assert c[0] == data[..RecordSize];
      forall k | 0 < k < |c| ensures c[k] == c'[k - 1] {
        var lo, hi := RecordSize * k, Min(RecordSize * k + RecordSize, |data|);
        assert RecordSize * (k - 1) == lo - RecordSize;
        assert Min(RecordSize * (k - 1) + RecordSize, |data| - RecordSize) == hi - RecordSize;
        assert data[RecordSize..][lo - RecordSize..hi - RecordSize] == data[lo..hi];
      }
      assert c == [data[..RecordSize]] + c';
    } else {
      assert |c| == 1;
      assert c[0] == data[0..|data|];
      assert data[0..|data|] == data;
    }
  }

  /** ceil(n/4) groups of consecutive lines; all but the last hold four and
      the last holds one to four. */
  lemma ChunksShape(data: seq<string>)
    ensures |Chunks(data)| == (|data| + 3) / 4
    ensures forall k :: 0 <= k < |Chunks(data)| ==>
      Chunks(data)[k] == data[4 * k..Min(4 * k + 4, |data|)]
    ensures forall k :: 0 <= k < |Chunks(data)| - 1 ==> |Chunks(data)[k]| == 4
    ensures |data| > 0 ==> 1 <= |Chunks(data)[|Chunks(data)| - 1]| <= 4
  {
  }

  function Flatten(groups: seq<seq<string>>): seq<string> {
    if |groups| == 0 then [] else groups[0] + Flatten(groups[1..])
  }

  /** Putting the groups back together gives the cleaned lines. */
  lemma {:induction false} ChunksFlatten(data: seq<string>)
    ensures Flatten(Chunks(data)) == data
    decreases |data|
  {
    if |data| > 0 {
      ChunksCons(data);
      if |data| > RecordSize {
        ChunksFlatten(data[RecordSize..]);
        assert data == data[..RecordSize] + data[RecordSize..];
      }
    }
  }

  // ---------------------------------------------------------------------
  // Steps 5 and 6: join the fields, join the records

  /** [sep.join(e) for e in entries] */
  function Records(data: seq<string>): seq<string> {
    var groups := Chunks(data);
    seq(|groups|, k requires 0 <= k < |groups| => Join(groups[k], FieldSeparator))
  }

  /** "\n".join(entries) */
  function Render(data: seq<string>): string {
    Join(Records(data), [RecordSeparator])
  }

  /** parse(data) */
  function Parse(lines: seq<string>): string {
    Render(RemoveLabels(Cleaned(lines)))
  }

  /** parse as the source runs it: the list comprehensions, then the loop
      rewriting the list in place, then grouping and joining. */
  method ParseStatement(lines: seq<string>) returns (out: string)
    ensures out == Parse(lines)
  {
    var cleaned := Cleaned(lines);
    var data := new string[|cleaned|](i requires 0 <= i < |cleaned| => cleaned[i]);
    assert data[..] == cleaned;
    RemoveLabelsInPlace(data);
    out := Render(data[..]);
  }

  /** Four fields in a full record, separated by exactly five spaces. */
  lemma RecordFields(data: seq<string>, k: nat)
    requires 4 * k + 4 <= |data|
    ensures k < |Records(data)|
    ensures Records(data)[k] ==
      data[4 * k] + FieldSeparator + data[4 * k + 1] + FieldSeparator +
      data[4 * k + 2] + FieldSeparator + data[4 * k + 3]
  {
    assert k < (|data| + 3) / 4;
    var g := Chunks(data)[k];
    assert g == data[4 * k..4 * k + 4];
    assert Join(g[3..], FieldSeparator) == data[4 * k + 3];
    assert Join(g[2..], FieldSeparator) == data[4 * k + 2] + FieldSeparator + Join(g[3..], FieldSeparator);
    assert Join(g[1..], FieldSeparator) == data[4 * k + 1] + FieldSeparator + Join(g[2..], FieldSeparator);
    assert Join(g, FieldSeparator) == data[4 * k] + FieldSeparator + Join(g[1..], FieldSeparator);
  }

  /** The short last group prints as its one to three fields, separated
      by exactly five spaces. */
  lemma LastRecordFields(data: seq<string>, k: nat)
    requires 4 * k < |data| < 4 * k + 4
    ensures k == |Records(data)| - 1
    ensures |data| == 4 * k + 1 ==> Records(data)[k] == data[4 * k]
    ensures |data| == 4 * k + 2 ==> Records(data)[k] == data[4 * k] + FieldSeparator + data[4 * k + 1]
    ensures |data| == 4 * k + 3 ==>
      Records(data)[k] == data[4 * k] + FieldSeparator + data[4 * k + 1] + FieldSeparator + data[4 * k + 2]
  {
    assert (|data| + RecordSize - 1) / RecordSize == k + 1;
    var g := Chunks(data)[k];
    assert g == data[4 * k..];
    if |data| == 4 * k + 1 {
      assert Join(g, FieldSeparator) == data[4 * k];
    } else if |data| == 4 * k + 2 {
      assert Join(g[1..], FieldSeparator) == data[4 * k + 1];
    } else {
      assert Join(g[2..], FieldSeparator) == data[4 * k + 2];
      assert Join(g[1..], FieldSeparator) == data[4 * k + 1] + FieldSeparator + Join(g[2..], FieldSeparator);
    }
  }

  /** An input of at most four lines is all header and gives "". */
  lemma ShortInput(lines: seq<string>)
    requires |lines| <= HeaderLength
    ensures Parse(lines) == ""
  {
  }

  /** The first four lines never matter; four lines or fewer give "". */
  lemma HeaderIgnored(h: seq<string>, h': seq<string>, rest: seq<string>)
    requires |h| == |h'| == HeaderLength
    ensures Parse(h + rest) == Parse(h' + rest)
    ensures |rest| == 0 ==> Parse(h + rest) == ""
  {
    assert SkipHeader(h + rest) == SkipHeader(h' + rest);
  }

  /** With nothing left after cleaning the output is empty. */
  lemma ParseEmpty(lines: seq<string>)
    requires Cleaned(lines) == []
    ensures Parse(lines) == ""
  {
  }

  /** Lines as a text reader yields them: a newline can only be the last
      character. */
  ghost predicate LineShaped(lines: seq<string>) {
    forall i, k :: 0 <= i < |lines| && 0 <= k < |lines[i]| - 1 ==> lines[i][k] != RecordSeparator
  }

  /** A line with a newline at most at its end has none once stripped. */
  lemma StrippedLineNoNewline(l: string)
    requires forall k :: 0 <= k < |l| - 1 ==> l[k] != RecordSeparator
    ensures RecordSeparator !in Strip(l)
  {
    if |l| > 0 && l[|l| - 1] == RecordSeparator {
      var l' := l[..|l| - 1];
      assert l == l' + [RecordSeparator];
      assert RecordSeparator !in l' by {
        forall k | 0 <= k < |l'| ensures l'[k] != RecordSeparator {
          assert l'[k] == l[k];
        }
      }
      StripTrailingSpace(l', RecordSeparator);
    } else {
      assert RecordSeparator !in l;
      StripOmits(l, RecordSeparator);
    }
  }

  /** Dropping empty lines keeps every line that lacks c lacking it. */
  lemma DropEmptyOmits(ls: seq<string>, c: char)
    requires forall i :: 0 <= i < |ls| ==> c !in ls[i]
    ensures forall k :: 0 <= k < |DropEmpty(ls)| ==> c !in DropEmpty(ls)[k]
  {
    DropEmptyMembers(ls);
    forall k | 0 <= k < |DropEmpty(ls)| ensures c !in DropEmpty(ls)[k] {
      assert DropEmpty(ls)[k] in DropEmpty(ls);
    }
  }

  lemma CleanedNoNewline(lines: seq<string>)
    requires LineShaped(lines)
    ensures forall k :: 0 <= k < |Cleaned(lines)| ==> RecordSeparator !in Cleaned(lines)[k]
  {
    var after := SkipHeader(lines);
    var stripped := StripAll(after);
    forall i | 0 <= i < |after| ensures RecordSeparator !in stripped[i] {
      var l := after[i];
      assert l == lines[i + HeaderLength];
      StrippedLineNoNewline(l);
    }
    DropEmptyOmits(stripped, RecordSeparator);
  }

  /** The records are separated by single newlines: splitting the output at
      its newlines gives back the joined records, ceil(n/4) of them for n
      cleaned lines, and no newline is anywhere else. */
  lemma ParseSplitsIntoRecords(lines: seq<string>)
    requires LineShaped(lines)
    requires Cleaned(lines) != []
    ensures Split(Parse(lines), RecordSeparator) == Records(RemoveLabels(Cleaned(lines)))
    ensures |Split(Parse(lines), RecordSeparator)| == (|Cleaned(lines)| + 3) / 4
  {
    var data := RemoveLabels(Cleaned(lines));
    CleanedNoNewline(lines);
    forall i | 0 <= i < |data| ensures RecordSeparator !in data[i] {
      RemoveLabelOmits(Cleaned(lines)[i], RecordSeparator);
    }
    var records := Records(data);
    forall k | 0 <= k < |records| ensures RecordSeparator !in records[k] {
      var g := Chunks(data)[k];
      assert forall j :: 0 <= j < |g| ==> g[j] in data;
      JoinOmits(g, FieldSeparator, RecordSeparator);
    }
    SplitJoin(records, RecordSeparator);
  }

  // ---------------------------------------------------------------------
  // Well-formed statements

  /** One transaction as the export lists it: the four field values, and
      whether the amount and the balance carry the " GBP" suffix. */
  datatype Transaction = Transaction(date: string, description: string, amount: string, balance: string,
                                     amountInPounds: bool, balanceInPounds: bool)

  function Suffix(inPounds: bool): string {
    if inPounds then Currency else ""
  }

  /** The four labelled lines of a transaction, as they are after stripping. */
  function TransactionLines(t: Transaction): seq<string> {
    [DateLabel + t.date, DescriptionLabel + t.description,
     AmountLabel + t.amount + Suffix(t.amountInPounds), BalanceLabel + t.balance + Suffix(t.balanceInPounds)]
  }

  /** The four fields of a transaction in the order the parser emits them. */
  function TransactionFields(t: Transaction): seq<string> {
    [t.date, t.description, t.amount, t.balance]
  }

  /** The cleaned lines of a statement: the transactions' lines in order. */
  function StatementLines(ts: seq<Transaction>): seq<string> {
    if |ts| == 0 then [] else TransactionLines(ts[0]) + StatementLines(ts[1..])
  }

  function StatementFields(ts: seq<Transaction>): (r: seq<string>)
    ensures |r| == 4 * |ts|
  {
    if |ts| == 0 then [] else TransactionFields(ts[0]) + StatementFields(ts[1..])
  }

  /** A transaction the parser reads back exactly: plain date, amount and
      balance, and a description that is already stripped and does not
      contain its own label. */
  ghost predicate WellFormed(t: Transaction) {
    PlainValue(t.date) && PlainValue(t.amount) && PlainValue(t.balance) &&
    Strip(t.description) == t.description &&
    forall i :: !OccursAt(t.description, DescriptionLabel, i)
  }

  lemma RemoveLabelsAppend(a: seq<string>, b: seq<string>)
    ensures RemoveLabels(a + b) == RemoveLabels(a) + RemoveLabels(b)
  {
  }

  lemma RemoveLabelsFour(a: string, b: string, c: string, d: string)
    ensures RemoveLabels([a, b, c, d]) == [RemoveLabel(a), RemoveLabel(b), RemoveLabel(c), RemoveLabel(d)]
  {
    var r := RemoveLabels([a, b, c, d]);
    assert |r| == 4;
    assert r[0] == RemoveLabel(a) && r[1] == RemoveLabel(b);
    assert r[2] == RemoveLabel(c) && r[3] == RemoveLabel(d);
  }

  /** Label removal turns a transaction's lines into its fields. */
  lemma RemoveLabelsTransaction(t: Transaction)
    requires WellFormed(t)
    ensures RemoveLabels(TransactionLines(t)) == TransactionFields(t)
  {
    var lines := TransactionLines(t);
    RemoveLabelsFour(lines[0], lines[1], lines[2], lines[3]);
    RemoveLabelDate(t.date);
    RemoveLabelPrefix(DescriptionLabel, t.description);
    RemoveLabelMoney(AmountLabel, t.amount, Suffix(t.amountInPounds));
    RemoveLabelMoney(BalanceLabel, t.balance, Suffix(t.balanceInPounds));
  }

  lemma {:induction false} RemoveLabelsStatement(ts: seq<Transaction>)
    requires forall i :: 0 <= i < |ts| ==> WellFormed(ts[i])
    ensures RemoveLabels(StatementLines(ts)) == StatementFields(ts)
  {
    if |ts| > 0 {
      RemoveLabelsTransaction(ts[0]);
      RemoveLabelsStatement(ts[1..]);
      RemoveLabelsAppend(TransactionLines(ts[0]), StatementLines(ts[1..]));
    }
  }

  /** Field j of transaction k sits at position 4k + j. */
  lemma {:induction false} StatementFieldsAt(ts: seq<Transaction>, k: nat)
    requires k < |ts|
    ensures StatementFields(ts)[4 * k..4 * k + 4] == TransactionFields(ts[k])
  {
    var f := StatementFields(ts);
    if k == 0 {
      assert f[..4] == TransactionFields(ts[0]);
    } else {
      StatementFieldsAt(ts[1..], k - 1);
      var rest := StatementFields(ts[1..]);
      assert f == TransactionFields(ts[0]) + rest;
      assert f[4 * k..4 * k + 4] == rest[4 * (k - 1)..4 * (k - 1) + 4];
    }
  }

  /** The output line of one transaction. */
  function RecordOf(t: Transaction): string {
    t.date + FieldSeparator + t.description + FieldSeparator + t.amount + FieldSeparator + t.balance
  }

  /** The records of a statement's fields are its transactions' lines. */
  lemma RecordsOfStatement(ts: seq<Transaction>)
    ensures Records(StatementFields(ts)) == seq(|ts|, i requires 0 <= i < |ts| => RecordOf(ts[i]))
  {
    var f := StatementFields(ts);
    var records := Records(f);
    var want := seq(|ts|, i requires 0 <= i < |ts| => RecordOf(ts[i]));
    RecordCount(|ts|);
    assert |records| == |want|;
    forall k | 0 <= k < |ts| ensures records[k] == want[k] {
      RecordAt(ts, k);
    }
  }

  lemma RecordCount(n: nat)
    ensures (4 * n + RecordSize - 1) / RecordSize == n
  {
  }

  lemma RecordAt(ts: seq<Transaction>, k: nat)
    requires k < |ts|
    ensures k < |Records(StatementFields(ts))| && Records(StatementFields(ts))[k] == RecordOf(ts[k])
  {
    var f := StatementFields(ts);
    StatementFieldsAt(ts, k);
    RecordFields(f, k);
    var g := f[4 * k..4 * k + 4];
    var t := ts[k];
    assert g == [t.date, t.description, t.amount, t.balance];
    assert f[4 * k] == t.date && f[4 * k + 1] == t.description && f[4 * k + 2] == t.amount && f[4 * k + 3] == t.balance;
  }

  /** The happy path: a statement whose cleaned lines are the labelled lines
      of well-formed transactions parses to one line per transaction, holding
      its date, description, amount and balance. */
  lemma ParseWellFormed(lines: seq<string>, ts: seq<Transaction>)
    requires Cleaned(lines) == StatementLines(ts)
    requires forall i :: 0 <= i < |ts| ==> WellFormed(ts[i])
    ensures Parse(lines) == Join(seq(|ts|, i requires 0 <= i < |ts| => RecordOf(ts[i])), [RecordSeparator])
  {
    RemoveLabelsStatement(ts);
    RecordsOfStatement(ts);
  }

  // ---------------------------------------------------------------------
  // The line map of parseFile

  const NoBreakSpace: char := '\U{A0}'

  /** [l.replace("\xa0", " ") for l in ls] */
  function ReplaceNoBreakSpaces(lines: seq<string>): seq<string> {
    seq(|lines|, i requires 0 <= i < |lines| => ReplaceAll(lines[i], [NoBreakSpace], " "))
  }

  /** Same number of lines, each of the same length, every non-breaking
      space turned into a space and every other character kept. */
  lemma NoBreakSpacesReplaced(lines: seq<string>)
    ensures |ReplaceNoBreakSpaces(lines)| == |lines|
    ensures forall i :: 0 <= i < |lines| ==>
      |ReplaceNoBreakSpaces(lines)[i]| == |lines[i]| && NoBreakSpace !in ReplaceNoBreakSpaces(lines)[i]
    ensures forall i, k :: 0 <= i < |lines| && 0 <= k < |lines[i]| ==>
      ReplaceNoBreakSpaces(lines)[i][k] == if lines[i][k] == NoBreakSpace then ' ' else lines[i][k]
  {
    forall i | 0 <= i < |lines| ensures
      |ReplaceNoBreakSpaces(lines)[i]| == |lines[i]| &&
      (forall k :: 0 <= k < |lines[i]| ==>
        ReplaceNoBreakSpaces(lines)[i][k] == if lines[i][k] == NoBreakSpace then ' ' else lines[i][k])
    {
      ReplaceAllChar(lines[i], NoBreakSpace, ' ');
    }
  }
}
