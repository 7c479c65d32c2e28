/** The two-transaction statement of the parser's unit test and the output it
    expects, checked against the model. */
module StatementExample {
  import opened Text
  import opened Statement

  /** The description both transactions carry, written in pieces short
      enough for the verifier to look through one by one. */
  const Description: string :=
    "CARD PAYMENT" + " TO WWW.JUST" + " EAT.CO.UK," + "10.45 GBP," + " RATE 1.00/GBP" + " ON 26-12-2012"

  const Header: seq<string> := ["From: 31/12/2011 to 31/12/2012\n", "\n", "Account: XXXX XXXX XXXX XXXX\n", "\n"]

  /** The thirteen lines of the test, as a text reader returns them: the
      header, the first transaction, a blank line, the second transaction. */
  const Input: seq<string> :=
    Header +
    ["Date: 29/12/2012\n", "Description: " + Description + "\n", "Amount: -10.45 GBP\n", "Balance: 3472.63 GBP\n"] +
    ["\n"] +
    ["Date: 28/12/2012\n", "Description: " + Description + "\n", "Amount: -10.00\n", "Balance: 3483.08 GBP"]

  const Expected: string :=
    "29/12/2012     " + Description + "     -10.45     3472.63" + "\n" +
    "28/12/2012     " + Description + "     -10.00     3483.08"

  /** The two transactions the input describes; the second amount has no
      currency. */
  const First: Transaction := Transaction("29/12/2012", Description, "-10.45", "3472.63", true, true)
  const Second: Transaction := Transaction("28/12/2012", Description, "-10.00", "3483.08", false, true)

  /** A line whose text neither starts nor ends with whitespace strips to
      that text, with or without its newline. */
  lemma StripsTo(line: string, text: string)
    requires line == text + "\n" || line == text
    requires text != [] && !IsSpace(text[0]) && !IsSpace(text[|text| - 1])
    ensures !AllSpace(line) && Strip(line) == text
  {
    assert text[..0] == [] && text[|text|..] == [];
    StripUnique(text, 0, |text|);
    if line != text {
      StripTrailingSpace(text, '\n');
    }
  }

  /** Cleaning lines with one blank line among them. */
  lemma CleanedAroundBlank(h: seq<string>, x: seq<string>, blank: string, y: seq<string>)
    requires |h| == HeaderLength && AllSpace(blank)
    requires forall k :: 0 <= k < |x + y| ==> !AllSpace((x + y)[k])
    ensures Cleaned(h + x + [blank] + y) == StripAll(x + y)
  {
    var lines := h + (x + y);
    assert lines[..|h| + |x|] + [blank] + lines[|h| + |x|..] == h + x + [blank] + y;
    BlankLineIgnored(lines, |h| + |x|, blank);
    CleanedNoBlank(h, x + y);
  }

  lemma StripAllFour(a0: string, a1: string, a2: string, a3: string)
    ensures StripAll([a0, a1, a2, a3]) == [Strip(a0), Strip(a1), Strip(a2), Strip(a3)]
  {
  }

  lemma NoBlankFour(a0: string, a1: string, a2: string, a3: string)
    requires !AllSpace(a0) && !AllSpace(a1) && !AllSpace(a2) && !AllSpace(a3)
    ensures forall k :: 0 <= k < 4 ==> !AllSpace([a0, a1, a2, a3][k])
  {
  }

  lemma NoBlankAppend(x: seq<string>, y: seq<string>)
    requires |x| == 4 && |y| == 4
    requires forall k :: 0 <= k < 4 ==> !AllSpace(x[k]) && !AllSpace(y[k])
    ensures forall k :: 0 <= k < |x + y| ==> !AllSpace((x + y)[k])
  {
  }

  /** Cleaning a header, four lines, a blank line and four more lines. */
  lemma CleanedShape(h: seq<string>, a0: string, a1: string, a2: string, a3: string, blank: string,
                     b0: string, b1: string, b2: string, b3: string)
    requires |h| == HeaderLength && AllSpace(blank)
    requires !AllSpace(a0) && !AllSpace(a1) && !AllSpace(a2) && !AllSpace(a3)
    requires !AllSpace(b0) && !AllSpace(b1) && !AllSpace(b2) && !AllSpace(b3)
    ensures Cleaned(h + [a0, a1, a2, a3] + [blank] + [b0, b1, b2, b3]) ==
      [Strip(a0), Strip(a1), Strip(a2), Strip(a3)] + [Strip(b0), Strip(b1), Strip(b2), Strip(b3)]
  {
    var x, y := [a0, a1, a2, a3], [b0, b1, b2, b3];
    NoBlankFour(a0, a1, a2, a3);
    NoBlankFour(b0, b1, b2, b3);
    NoBlankAppend(x, y);
    CleanedAroundBlank(h, x, blank, y);
    StripAllAppend(x, y);
    StripAllFour(a0, a1, a2, a3);
    StripAllFour(b0, b1, b2, b3);
  }

  lemma StatementLinesTwo(a: Transaction, b: Transaction)
    ensures StatementLines([a, b]) == TransactionLines(a) + TransactionLines(b)
  {
    assert [a, b][1..] == [b];
    assert [b][1..] == [];
    assert StatementLines([b]) == TransactionLines(b) + StatementLines([]);
  }

  /** Cleaning a header, the lines of two transactions with whitespace
      around them, and a blank line between the two. */
  lemma CleanedTwo(h: seq<string>, a0: string, a1: string, a2: string, a3: string, blank: string,
                   b0: string, b1: string, b2: string, b3: string, t1: Transaction, t2: Transaction)
    requires |h| == HeaderLength && AllSpace(blank)
    requires !AllSpace(a0) && !AllSpace(a1) && !AllSpace(a2) && !AllSpace(a3)
    requires !AllSpace(b0) && !AllSpace(b1) && !AllSpace(b2) && !AllSpace(b3)
    requires TransactionLines(t1) == [Strip(a0), Strip(a1), Strip(a2), Strip(a3)]
    requires TransactionLines(t2) == [Strip(b0), Strip(b1), Strip(b2), Strip(b3)]
    ensures Cleaned(h + [a0, a1, a2, a3] + [blank] + [b0, b1, b2, b3]) == StatementLines([t1, t2])
  {
    CleanedShape(h, a0, a1, a2, a3, blank, b0, b1, b2, b3);
    StatementLinesTwo(t1, t2);
  }

  // Each labelled line of the input strips to the line its transaction prints.

  lemma DateStripped1(line: string)
    requires line == "Date: 29/12/2012\n"
    ensures !AllSpace(line) && Strip(line) == TransactionLines(First)[0]
  {
    StripsTo(line, DateLabel + First.date);
  }

  lemma DescriptionStripped1(line: string)
    requires line == "Description: " + Description + "\n"
    ensures !AllSpace(line) && Strip(line) == TransactionLines(First)[1]
  {
    StripsTo(line, DescriptionLabel + Description);
  }

  lemma AmountStripped1(line: string)
    requires line == "Amount: -10.45 GBP\n"
    ensures !AllSpace(line) && Strip(line) == TransactionLines(First)[2]
  {
    StripsTo(line, AmountLabel + First.amount + Currency);
  }

  lemma BalanceStripped1(line: string)
    requires line == "Balance: 3472.63 GBP\n"
    ensures !AllSpace(line) && Strip(line) == TransactionLines(First)[3]
  {
    StripsTo(line, BalanceLabel + First.balance + Currency);
  }

  lemma DateStripped2(line: string)
    requires line == "Date: 28/12/2012\n"
    ensures !AllSpace(line) && Strip(line) == TransactionLines(Second)[0]
  {
    StripsTo(line, DateLabel + Second.date);
  }

  lemma DescriptionStripped2(line: string)
    requires line == "Description: " + Description + "\n"
    ensures !AllSpace(line) && Strip(line) == TransactionLines(Second)[1]
  {
    StripsTo(line, DescriptionLabel + Description);
  }

  lemma AmountStripped2(line: string)
    requires line == "Amount: -10.00\n"
    ensures !AllSpace(line) && Strip(line) == TransactionLines(Second)[2]
  {
    StripsTo(line, AmountLabel + Second.amount + "");
  }

  lemma BalanceStripped2(line: string)
    requires line == "Balance: 3483.08 GBP"
    ensures !AllSpace(line) && Strip(line) == TransactionLines(Second)[3]
  {
    StripsTo(line, BalanceLabel + Second.balance + Currency);
  }

  /** The lines of the first transaction strip to its labelled lines. */
  lemma FirstStripped(a0: string, a1: string, a2: string, a3: string)
    requires a0 == "Date: 29/12/2012\n" && a1 == "Description: " + Description + "\n"
    requires a2 == "Amount: -10.45 GBP\n" && a3 == "Balance: 3472.63 GBP\n"
    ensures !AllSpace(a0) && !AllSpace(a1) && !AllSpace(a2) && !AllSpace(a3)
    ensures TransactionLines(First) == [Strip(a0), Strip(a1), Strip(a2), Strip(a3)]
  {
    DateStripped1(a0);
    DescriptionStripped1(a1);
    AmountStripped1(a2);
    BalanceStripped1(a3);
  }

  /** The lines of the second transaction strip to its labelled lines. */
  lemma SecondStripped(b0: string, b1: string, b2: string, b3: string)
    requires b0 == "Date: 28/12/2012\n" && b1 == "Description: " + Description + "\n"
    requires b2 == "Amount: -10.00\n" && b3 == "Balance: 3483.08 GBP"
    ensures !AllSpace(b0) && !AllSpace(b1) && !AllSpace(b2) && !AllSpace(b3)
    ensures TransactionLines(Second) == [Strip(b0), Strip(b1), Strip(b2), Strip(b3)]
  {
    DateStripped2(b0);
    DescriptionStripped2(b1);
    AmountStripped2(b2);
    BalanceStripped2(b3);
  }

  /** The separating line holds only its newline. */
  lemma NewlineBlank()
    ensures AllSpace("\n")
  {
    assert IsSpace("\n"[0]);
  }

  /** The cleaned lines of the test input are the labelled lines of its two
      transactions. */
  lemma CleanedInput()
    ensures Cleaned(Input) == StatementLines([First, Second])
  {
    FirstStripped("Date: 29/12/2012\n", "Description: " + Description + "\n", "Amount: -10.45 GBP\n", "Balance: 3472.63 GBP\n");
    SecondStripped("Date: 28/12/2012\n", "Description: " + Description + "\n", "Amount: -10.00\n", "Balance: 3483.08 GBP");
    NewlineBlank();
    CleanedTwo(Header, "Date: 29/12/2012\n", "Description: " + Description + "\n", "Amount: -10.45 GBP\n", "Balance: 3472.63 GBP\n", "\n",
      "Date: 28/12/2012\n", "Description: " + Description + "\n", "Amount: -10.00\n", "Balance: 3483.08 GBP", First, Second);
  }

  lemma DescriptionLacksColon()
    ensures ':' !in Description
  {
    assert ':' !in "CARD PAYMENT" && ':' !in " TO WWW.JUST" && ':' !in " EAT.CO.UK,";
    assert ':' !in "10.45 GBP," && ':' !in " RATE 1.00/GBP" && ':' !in " ON 26-12-2012";
  }

  /** The description is stripped and does not hold its own label. */
  lemma DescriptionWellFormed()
    ensures Strip(Description) == Description
    ensures forall i :: !OccursAt(Description, DescriptionLabel, i)
  {
    DescriptionLacksColon();
    NoOccurrenceWithout(Description, DescriptionLabel, 11);
    StripsTo(Description, Description);
  }

  lemma FirstPlain()
    ensures PlainValue(First.date) && PlainValue(First.amount) && PlainValue(First.balance)
  {
  }

  lemma SecondPlain()
    ensures PlainValue(Second.date) && PlainValue(Second.amount) && PlainValue(Second.balance)
  {
  }

  lemma WellFormedTransactions()
    ensures WellFormed(First) && WellFormed(Second)
  {
    DescriptionWellFormed();
    FirstPlain();
    SecondPlain();
  }

  lemma Regroup(d: string, x: string, y: string, z: string, sep: string)
    ensures d + sep + x + sep + y + sep + z == (d + sep) + x + (sep + y + sep + z)
  {
  }

  /** The line each transaction prints, as the test writes it. */
  lemma RecordsAsWritten()
    ensures RecordOf(First) == "29/12/2012     " + Description + "     -10.45     3472.63"
    ensures RecordOf(Second) == "28/12/2012     " + Description + "     -10.00     3483.08"
  {
    Regroup(First.date, First.description, First.amount, First.balance, FieldSeparator);
    Regroup(Second.date, Second.description, Second.amount, Second.balance, FieldSeparator);
    assert "29/12/2012" + FieldSeparator == "29/12/2012     ";
    assert FieldSeparator + "-10.45" + FieldSeparator + "3472.63" == "     -10.45     3472.63";
    assert "28/12/2012" + FieldSeparator == "28/12/2012     ";
    assert FieldSeparator + "-10.00" + FieldSeparator + "3483.08" == "     -10.00     3483.08";
  }

  lemma JoinTwo(a: string, b: string, sep: string)
    ensures Join([a, b], sep) == a + sep + b
  {
    assert [a, b][1..] == [b];
  }

  /** A statement of two well-formed transactions prints their records
      on two lines. */
  lemma ParseTwo(lines: seq<string>, a: Transaction, b: Transaction)
    requires Cleaned(lines) == StatementLines([a, b])
    requires WellFormed(a) && WellFormed(b)
    ensures Parse(lines) == RecordOf(a) + [RecordSeparator] + RecordOf(b)
  {
    var ts := [a, b];
    assert forall i :: 0 <= i < |ts| ==> WellFormed(ts[i]);
    ParseWellFormed(lines, ts);
    RecordsTwo(a, b);
    JoinTwo(RecordOf(a), RecordOf(b), [RecordSeparator]);
  }

  lemma RecordsTwo(a: Transaction, b: Transaction)
    ensures seq(2, i requires 0 <= i < 2 => RecordOf([a, b][i])) == [RecordOf(a), RecordOf(b)]
  {
  }

  /** parse of the test input is the test's expected output. */
  lemma ParseReference()
    ensures Parse(Input) == Expected
  {
    CleanedInput();
    WellFormedTransactions();
    ParseTwo(Input, First, Second);
    RecordsAsWritten();
  }
}
