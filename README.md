# Santander statement parser, modelled in Dafny

`parse` in `monies/monies.py` reads the lines of a Santander text export.
It writes one text line per transaction: date, description, amount and
balance, separated by five spaces. It works in six steps:

1. It drops the four header lines: the date range, a blank line, the account, another blank line.
2. It strips every remaining line and drops the ones that become empty.
3. It removes the field labels `Date: `, `Description: `, `Amount: ` and
   `Balance: `. On amount and balance lines it also removes ` GBP`.
4. It cuts the cleaned lines into consecutive groups of four.
5. It joins the fields of each group with five spaces.
6. It joins the groups with newlines.

`parseFile` also maps each line from the non-breaking space U+00A0 to a
plain space before parsing. That map is modelled on its own.

The project has three modules:

- `Text` (`text.dfy`) holds the Python string operations the parser uses.
  - `Strip` is `str.strip()` with Python's `str.isspace` character set.
  - `StartsWith` is `str.startswith`.
  - `ReplaceAll` is `str.replace`: it scans from the left and replaces every non-overlapping occurrence.
  - `Join` is `str.join`.
  - `Split`, on one character, is the reference inverse of `Join`.
- `Statement` (`statement.dfy`) holds the six steps:
  - pure functions for the slice, the comprehensions and the joins;
  - the label loop as the in-place method `RemoveLabelsInPlace` over an `array<string>`, proved to agree element by element with the pure `RemoveLabel`;
  - `ParseStatement`, the whole of `parse` as the source runs it, proved equal to the pure `Parse`;
  - a `Transaction` datatype that describes well-formed exports, and the proof that such an export parses to one record per transaction.
- `StatementExample` (`fixture.dfy`) proves that the thirteen-line statement of the unit test parses to exactly the expected two-line string.

## Model

| member | source | states |
|---|---|---|
| Text.IsSpace | monies/monies.py:34 | the characters Python's str.isspace accepts, which str.strip() removes, U+00A0 among them; specified through Strip and its lemmas |
| Text.StartsWith | monies/monies.py:39-48 | str.startswith: the prefix test of each of the four ifs; LabelsExclusive shows at most one of the four words matches |
| Text.ReplaceAll | monies/monies.py:40-49 | str.replace for a non-empty pattern; specified by ReplaceAllLeftmost, ReplaceAllNoMatch, ReplaceAllPrefix, ReplaceAllChar and ReplaceAllOmits |
| Text.Join | monies/monies.py:53-54 | str.join; its inverse is Split (SplitJoin), and RecordFields and LastRecordFields state the layout it gives a group |
| Text.Strip | monies/monies.py:34-35 | the strip is no longer than the line; it is empty exactly when the line is all whitespace; otherwise it starts and ends with a non-whitespace character |
| Text.StripIsTrim | monies/monies.py:34 | the strip is what remains after removing the leading whitespace run and the trailing whitespace run, and it neither starts nor ends with whitespace |
| Text.StripUnique | monies/monies.py:34 | any cut of s whose outer parts are all whitespace and whose middle has non-whitespace ends equals Strip(s), so strip is fully determined |
| Text.StripIdempotent | monies/monies.py:40 | stripping an already stripped line changes nothing, so the re-strip after label removal is harmless on a clean value |
| Text.StripTrailingSpace | monies/monies.py:34 | a whitespace character added at the end, such as the newline left by readlines, does not change the strip |
| Text.StripOmits | monies/monies.py:34 | stripping adds no character |
| Text.ReplaceAllNoMatch | monies/monies.py:40 | replace leaves a string without an occurrence of the pattern unchanged |
| Text.ReplaceAllLeftmost | monies/monies.py:39-49 | replace keeps everything before the leftmost occurrence, puts the replacement in its place, and continues right after it |
| Text.ReplaceAllPrefix | monies/monies.py:40 | a string that starts with the pattern loses that occurrence first, and the rest is processed the same way |
| Text.ReplaceAllChar | monies/monies.py:72 | replacing one character by another keeps the length and changes exactly the positions holding that character |
| Text.ReplaceAllOmits | monies/monies.py:39-49 | a character in neither the string nor the replacement does not appear in the result |
| Text.JoinOmits | monies/monies.py:53-54 | a character in no part and not in the separator does not appear in the join |
| Text.SplitJoin | monies/monies.py:54 | splitting the join at a separator character that no part holds gives back the parts |
| Statement.SkipHeader | monies/monies.py:31 | data[4:], nothing for four lines or fewer; HeaderIgnored and ShortInput state what it means for the output |
| Statement.StripAll | monies/monies.py:34 | the strip comprehension, line for line; StripAllAppend states it works element by element |
| Statement.DropEmpty | monies/monies.py:35 | filter(None, ...): never longer than its input; DropEmptyMembers and DropEmptyAppend specify it |
| Statement.Cleaned | monies/monies.py:31-35 | the header slice, then strip, then filter; specified by CleanedLines, CleanedAppend, CleanedSingle, CleanedNoBlank and BlankLineIgnored |
| Statement.DropEmptyMembers | monies/monies.py:35 | the filter keeps exactly the non-empty strings |
| Statement.CleanedLines | monies/monies.py:34-35 | every cleaned line is non-empty and is its own strip |
| Statement.CleanedAppend | monies/monies.py:34-35 | after the header, cleaning goes line by line: the cleaned lines of a + b are those of a followed by those of b, order kept |
| Statement.CleanedSingle | monies/monies.py:34-35 | a single line after the header contributes its strip, or nothing when it is whitespace only |
| Statement.CleanedNoBlank | monies/monies.py:34-35 | without whitespace-only lines after the header, the cleaned list is exactly the list of strips |
| Statement.BlankLineIgnored | monies/monies.py:34-35 | inserting a whitespace-only line anywhere after the header leaves the cleaned list unchanged |
| Statement.HeaderIgnored | monies/monies.py:31 | the output does not depend on the first four lines, and an input of exactly four lines gives ""; ShortInput covers zero to four |
| Statement.RemoveLabel | monies/monies.py:39-49 | the loop body for one element: four independent ifs on the original d, the last that fires giving the value; specified by RemoveLabelByKind and the lemmas below |
| Statement.RemoveLabels | monies/monies.py:38-49 | the loop's effect as a pure map, element by element; RemoveLabelsInPlace is proved to compute it |
| Statement.RemoveLabelsInPlace | monies/monies.py:38-49 | the in-place loop keeps the length, and each element afterwards is RemoveLabel of the same element before |
| Statement.RemoveLabelAt | monies/monies.py:39-49 | one pass of the loop body rewrites data[i] to RemoveLabel of its old value and changes no other element |
| Statement.LabelsExclusive | monies/monies.py:39-48 | a line starts with at most one of the four words, so at most one of the four independent ifs fires |
| Statement.RemoveLabelByKind | monies/monies.py:39-49 | each kind of line gets its own rule: Date and Description lose every occurrence of their label, Amount and Balance lose their label and every " GBP", and the result is re-stripped; any other line is unchanged |
| Statement.PrefixRule | monies/monies.py:39-43 | a line that starts with "Date: " or "Description: " gets exactly the rule of its label |
| Statement.MoneyRule | monies/monies.py:45-49 | a line that starts with "Amount: " or "Balance: " gets exactly the rule of its label |
| Statement.RemoveLabelPrefix | monies/monies.py:39-43 | a date or description line whose label does not occur again gives the stripped rest, and a " GBP" in a description is kept |
| Statement.RemoveLabelDate | monies/monies.py:39-40 | "Date: " followed by a plain value gives that value |
| Statement.CurrencyRemoved | monies/monies.py:45-49 | a plain value loses a trailing " GBP", and a value without it is unchanged |
| Statement.RemoveLabelMoney | monies/monies.py:45-49 | an amount or balance line gives its plain value, with or without the " GBP" suffix |
| Statement.RemoveLabelOmits | monies/monies.py:38-49 | label removal adds no character to a line |
| Statement.Chunks | monies/monies.py:52 | the slices data[4k..4k+4] for k in range(0, n, 4); specified by ChunksCons, ChunksShape and ChunksFlatten |
| Statement.ChunksCons | monies/monies.py:52 | the first group is the first four lines, or all of them when there are at most four, and the rest are grouped the same way |
| Statement.ChunksShape | monies/monies.py:52 | there are ceil(n/4) groups; group k is data[4k..min(4k+4, n)]; every group but the last holds four lines, and the last holds one to four |
| Statement.ChunksFlatten | monies/monies.py:52 | concatenating the groups gives back the cleaned lines |
| Statement.RecordFields | monies/monies.py:53 | a full group prints as its four fields separated by exactly five spaces |
| Statement.LastRecordFields | monies/monies.py:52-53 | the short last group prints as its one to three fields separated by exactly five spaces |
| Statement.Records | monies/monies.py:53 | the five-space join of every group; RecordFields and LastRecordFields give the layout of each |
| Statement.Render | monies/monies.py:54 | the newline join of the records; ParseSplitsIntoRecords splits it back |
| Statement.Parse | monies/monies.py:8-56 | the whole of parse as a pure function; ParseStatement runs it imperatively and ParseWellFormed, HeaderIgnored, ShortInput, ParseEmpty and ParseSplitsIntoRecords specify it |
| Statement.ShortInput | monies/monies.py:31 | an input of at most four lines gives "" |
| Statement.ParseStatement | monies/monies.py:8-56 | running the steps imperatively (the comprehensions, then the in-place loop over an array, then grouping and joining) gives exactly the pure Parse |
| Statement.ParseEmpty | monies/monies.py:52-54 | when nothing is left after cleaning, the output is "" |
| Statement.StrippedLineNoNewline | monies/monies.py:34 | a line with a newline at most at its end has no newline once stripped |
| Statement.DropEmptyOmits | monies/monies.py:35 | the filter keeps a character absent from every line |
| Statement.CleanedNoNewline | monies/monies.py:34-35 | for lines shaped as readlines yields them, no cleaned line holds a newline |
| Statement.ParseSplitsIntoRecords | monies/monies.py:52-54 | for lines shaped as readlines yields them: splitting the output at newlines gives back exactly the joined groups, ceil(n/4) of them, so a newline is only ever a record separator |
| Statement.RemoveLabelsTransaction | monies/monies.py:38-49 | label removal turns a well-formed transaction's four lines into its date, description, amount and balance |
| Statement.RemoveLabelsStatement | monies/monies.py:38-49 | label removal turns the lines of a sequence of well-formed transactions into their fields, in order |
| Statement.StatementFieldsAt | monies/monies.py:52 | field j of transaction k sits at position 4k + j |
| Statement.RecordAt | monies/monies.py:52-53 | record k of a well-formed statement is transaction k's fields joined by five spaces |
| Statement.RecordsOfStatement | monies/monies.py:52-53 | a well-formed statement has one record per transaction, in order |
| Statement.ParseWellFormed | monies/monies.py:8-56 | a statement whose cleaned lines are the labelled lines of well-formed transactions parses to their records joined by newlines |
| Statement.ReplaceNoBreakSpaces | monies/monies.py:72 | the U+00A0-to-space map over the lines; NoBreakSpacesReplaced specifies it |
| Statement.NoBreakSpacesReplaced | monies/monies.py:72 | the line map keeps the number of lines and each line's length, leaves no U+00A0, and changes nothing else |
| StatementExample.CleanedInput | test/unit/test_monies.py:20-32 | the test's thirteen lines clean to the labelled lines of its two transactions; the header and the blank separator line vanish |
| StatementExample.ParseReference | test/unit/test_monies.py:20-38 | parse of the test's input equals the test's expected two-line string |

## Left out

- The file handling of `parseFile` (monies/monies.py:67-74) is left out: opening files, ISO-8859-1 decoding, `readlines`, UTF-8 writing. It is I/O. Only its per-line non-breaking-space map is modelled. `LineShaped` stands for the guarantee of `readlines` that a newline can only be a line's last character.
- The `visualise` module is not part of this model. Only its tests are available, and they rely on date parsing, floating point and file output.
- The integration tests compare files on disk, and the `disabled` decorator and unittest scaffolding are test machinery. None of them is modelled. The unit test's scenario is proved as `StatementExample.ParseReference`.
- Text.ReplaceAll: requires a non-empty pattern. With an empty pattern Python inserts the replacement between characters, but every pattern the parser uses is a non-empty constant.
- Text.IsSpace: is the fixed set of characters that Python's `str.isspace` accepts. No Unicode database is modelled.
- Statement.RemoveLabel: follows the code, not a prefix-only reading. Each `replace` removes every occurrence of the label or of " GBP", wherever it is in the line. The lemmas say when this is the same as removing the prefix and suffix: the label does not occur again, and the value is plain.
- Statement.ChunksShape: follows the code in counting ceil(n/4) records. A short last group is kept and printed. A record count of floor(n/4) holds only when n is a multiple of four.
- Statement.ParseSplitsIntoRecords: states the newline structure through `Split` instead of promising no trailing newline, which the code does not guarantee. Label removal can empty a line (`"Amount:  GBP"` becomes `""`). If such a field is alone in the last group, the last record is `""` and the output ends in a newline.
