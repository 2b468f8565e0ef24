# Library Management System: the patron store and its file importer

This project models the patron-keeping core of the Library Management
System in Dafny. The system keeps patrons in a map from a 7-digit id to a
record of id, name, address and overdue fine. It fills that map from a text
file, where each line reads `ID-Name-Address-Fine`. The importer returns one
message per finding and admits only the lines that pass every check. Patrons
can also be entered by hand and removed by id.

The model has seven modules:

- `JavaStrings` (`java_strings.dfy`): the Java string behaviour the importer
  relies on.
  - `String.trim` drops every char at most U+0020 from both ends.
  - `String.split("-", 4)` keeps empty parts and returns at most four, the
    last holding the rest of the line.
  - Decimal rendering of the line number.
- `PatronRecord` (`patron.dfy`): the `Patron` value.
- `Validators` (`validators.dfy`):
  - `validateID`, which needs exactly seven ASCII digits;
  - `validateName` and `validateAddress`, which need something left after
    trimming;
  - the 0 to 250 fine range;
  - the invariant every stored entry satisfies.
- `ImportLog` (`import_log.dfy`): the messages, and their exact text.
- `Importer` (`importer.dfy`): the read loop of `addPatronFile` as pure
  functions of the store, the file's lines and the line number, with the
  lemmas stating what the importer promises.
- `ImportExample` (`import_example.dfy`): the `ID-Name-Address-Fine` format
  written out, its round trip through the parser, and a worked five-line
  import, line by line.
- `Lms` (`lms.dfy`): the `LMS` class. Its `patrons` field is updated in
  place by three methods:
  - `AddPatronFile`, a `while` loop over the lines;
  - the final insertion of `addPatronManually`;
  - `RemovePatron`.

  `AddPatronFile` is proved to leave exactly the store and messages that
  the `Importer` functions define. `AddPatronManually` and `RemovePatron`
  state their new map directly. All three keep the store invariant.

The file system and `Double.parseDouble` are parameters:

- A file is a `Source`: either missing, or the lines read before the end
  of the file or before an `IOException`, together with that exception's
  message.
- `Double.parseDouble` is a function from text to an optional real number.
  `None` stands for `NumberFormatException`.

Two consequences of the code that are easy to miss:

- `bad-line-only-three` has three `-`, so `split("-", 4)` gives four parts.
  The line is therefore reported as `INVALID ID -> bad` and, when `three`
  does not parse, `INVALID FINE -> three`. It is not reported as
  `INVALID FORMAT` (`ImportExample.Line2`).
- `lineNo` is incremented before the line is trimmed and skipped. Blank
  lines therefore consume a line number, and messages carry physical line
  numbers (`Importer.ImportNumbersPhysicalLines`,
  `Importer.BlankLineKeepsNumbering`).

## Model

| member | source | states |
|---|---|---|
| JavaStrings.Trim | libraryManagementSystem/src/main/java/org/libraryManagementSystem/LMS.java:42 | the trimmed string is empty exactly when every char is at most U+0020; otherwise neither of its ends is such a char; it is never longer than the input |
| JavaStrings.TrimIsMiddle | libraryManagementSystem/src/main/java/org/libraryManagementSystem/LMS.java:42 | the result of trim is a contiguous slice of the input, and everything cut off before and after it is chars at most U+0020 |
| JavaStrings.TrimIdempotent | libraryManagementSystem/src/main/java/org/libraryManagementSystem/LMS.java:51-54 | trimming an already trimmed string changes nothing, so the re-trim of each split part keeps the fields as they are |
| JavaStrings.SplitLimit | libraryManagementSystem/src/main/java/org/libraryManagementSystem/LMS.java:45 | `split(sep, limit)` gives min(separators + 1, limit) parts; joining them with the separator restores the line; no part but the last contains the separator |
| JavaStrings.CountCharAppend | libraryManagementSystem/src/main/java/org/libraryManagementSystem/LMS.java:45 | the separator count of a concatenation is the sum of the counts, which is how the number of split parts is derived |
| JavaStrings.Decimal | libraryManagementSystem/src/main/java/org/libraryManagementSystem/LMS.java:47 | the line number as written in a message: a non-empty run of ASCII digits without a leading zero |
| JavaStrings.DecimalRoundTrip | libraryManagementSystem/src/main/java/org/libraryManagementSystem/LMS.java:47 | reading the rendered line number back gives the number |
| JavaStrings.LeadingDigitsOfDigitsThen | libraryManagementSystem/src/main/java/org/libraryManagementSystem/LMS.java:47 | the digits of a rendered line number end where the text after them begins |
| Validators.DigitRunIff | libraryManagementSystem/src/main/java/org/libraryManagementSystem/LMS.java:229 | the regular expression `\d{n}` matches exactly the strings of length n made only of ASCII digits |
| Validators.ValidIdIffSevenAsciiDigits | libraryManagementSystem/src/main/java/org/libraryManagementSystem/LMS.java:229 | `validateID` holds if and only if the id is exactly seven chars, each from `0` to `9` |
| Validators.ValidId | libraryManagementSystem/src/main/java/org/libraryManagementSystem/LMS.java:229 | `validateID`: the id matches `\d{7}` as a whole; `ValidIdIffSevenAsciiDigits` states which ids that admits |
| Validators.ValidName | libraryManagementSystem/src/main/java/org/libraryManagementSystem/LMS.java:230 | `validateName`: something is left after trimming, which by the contract of `Trim` means some char is above U+0020 |
| Validators.ValidAddress | libraryManagementSystem/src/main/java/org/libraryManagementSystem/LMS.java:231 | `validateAddress`: the same test as `validateName`, on the address |
| Validators.FineInRange | libraryManagementSystem/src/main/java/org/libraryManagementSystem/LMS.java:81 | the fine test of the importer and of the prompt loop: a fine is kept exactly when neither `fine < 0` nor `fine > 250` |
| Validators.ValidEntry | libraryManagementSystem/src/main/java/org/libraryManagementSystem/LMS.java:91-92 | what a stored entry is: a patron filed under its own valid id, with trimmed non-blank name and address and a fine in range; `ImportPreservesStore`, `AddPatronManually` and `RemovePatron` keep it for every entry |
| Validators.StoreInvariant | libraryManagementSystem/src/main/java/org/libraryManagementSystem/LMS.java:16 | the invariant of the `patrons` map: every entry is a `ValidEntry` under its key; `Lms.LMS.Valid` holds it for the class field |
| ImportLog.LineNumberOfLinePrefix | libraryManagementSystem/src/main/java/org/libraryManagementSystem/LMS.java:47 | a message that starts with `Line <n>: ` can be read back as about line n |
| ImportLog.LineNumberOfErrorPrefix | libraryManagementSystem/src/main/java/org/libraryManagementSystem/LMS.java:32 | a message starting with `ERROR: ` is about no line |
| ImportLog.RenderedLineNumber | libraryManagementSystem/src/main/java/org/libraryManagementSystem/LMS.java:32-97 | a rendered message is about line n exactly when it is a line message for line n; the file-not-found and read errors are about no line |
| ImportLog.NoteText | libraryManagementSystem/src/main/java/org/libraryManagementSystem/LMS.java:47-93 | the text after `Line <n>: ` for each finding and for an admission, word for word as the importer writes it; `RenderedLineNumber` states that the number can be read back |
| ImportLog.Render | libraryManagementSystem/src/main/java/org/libraryManagementSystem/LMS.java:32-97 | the full message string: the two `ERROR: ` messages and the `Line <n>: ` messages; `RenderedLineNumber` states which line each one is about |
| Importer.ParseFields | libraryManagementSystem/src/main/java/org/libraryManagementSystem/LMS.java:45-54 | a line yields four fields if and only if it holds at least three `-`; the name and address fields come out trimmed |
| Importer.Rejections | libraryManagementSystem/src/main/java/org/libraryManagementSystem/LMS.java:58-88 | the findings of the four checks, none of which stops the others, in the order id, name, address, fine; stated by `RejectionMembership`, `RejectionsRanked` and `NoRejectionsIffAllChecksPass` |
| Importer.CheckedLine | libraryManagementSystem/src/main/java/org/libraryManagementSystem/LMS.java:56-94 | the checks and the admission of a well-formed line; stated by `EachCheckReportsIffItFails`, `AdmittedIffAllChecksPass` and `CheckedLinePreservesStore` |
| Importer.ProcessLine | libraryManagementSystem/src/main/java/org/libraryManagementSystem/LMS.java:41-94 | one pass of the read loop: trim, skip a blank line, split, report a malformed line, or check the fields; stated by `BlankLineIsSilent`, `FormatErrorIffFewerThanThreeDashes` and `ProcessLinePreservesStore` |
| Importer.ImportLines | libraryManagementSystem/src/main/java/org/libraryManagementSystem/LMS.java:38-95 | the read loop: line k is numbered k and is processed against the store lines 1 to k - 1 left; stated by `ImportPreservesStore`, `ImportNumbersPhysicalLines`, `ImportAnnouncesNewKeys` and `LaterRepeatIsDuplicate` |
| Importer.ImportFile | libraryManagementSystem/src/main/java/org/libraryManagementSystem/LMS.java:27-101 | `addPatronFile` as a whole, with the missing-file and `IOException` paths; stated by `ImportFileErrorsComeLast`, and computed by `Lms.LMS.AddPatronFile` |
| Importer.NumberedMembership | libraryManagementSystem/src/main/java/org/libraryManagementSystem/LMS.java:56-88 | the messages of a line are exactly its findings, each tagged with that line's number |
| Importer.BlankLineIsSilent | libraryManagementSystem/src/main/java/org/libraryManagementSystem/LMS.java:42-43 | a line made only of chars at most U+0020 changes nothing and yields no message |
| Importer.RejectionMembership | libraryManagementSystem/src/main/java/org/libraryManagementSystem/LMS.java:59-88 | each rejection is present if and only if its check fails; `DUPLICATE ID` only for a well-formed id already stored |
| Importer.EachCheckReportsIffItFails | libraryManagementSystem/src/main/java/org/libraryManagementSystem/LMS.java:56-94 | the checks do not stop one another: each message is present if and only if its own check fails; `INVALID FINE` and `FINE OUT OF RANGE` never appear together; every message carries the line number |
| Importer.NoRejectionsIffAllChecksPass | libraryManagementSystem/src/main/java/org/libraryManagementSystem/LMS.java:56-91 | `validLine` stays true if and only if the id is valid and new, name and address are non-blank, and the fine parses into 0 to 250 |
| Importer.AdmittedIffAllChecksPass | libraryManagementSystem/src/main/java/org/libraryManagementSystem/LMS.java:56-94 | a line passing every check puts a new patron with the parsed fine and yields only `ADDED id - name`; any other line leaves the store alone and yields at least one rejection, in the order id, name, address, fine |
| Importer.RejectionsRanked | libraryManagementSystem/src/main/java/org/libraryManagementSystem/LMS.java:58-88 | the rejections of a line come in the order id, name, address, fine, at most one of each |
| Importer.FormatErrorIffFewerThanThreeDashes | libraryManagementSystem/src/main/java/org/libraryManagementSystem/LMS.java:45-48 | a non-blank line is an `INVALID FORMAT` line exactly when it holds fewer than three `-`; otherwise it is checked field by field and never reported as malformed |
| Importer.DuplicateOnlyForStoredValidId | libraryManagementSystem/src/main/java/org/libraryManagementSystem/LMS.java:59-65 | `DUPLICATE ID` is reported only for a valid id already in the store, and never together with `INVALID ID` for the same id |
| Importer.LineMessagesCarryLineNumber | libraryManagementSystem/src/main/java/org/libraryManagementSystem/LMS.java:41-93 | every message about a line carries that line's number; a blank line yields none |
| Importer.CheckedLinePreservesStore | libraryManagementSystem/src/main/java/org/libraryManagementSystem/LMS.java:91-94 | admitting a checked line keeps the store invariant, keeps every existing entry, and announces every new key |
| Importer.ProcessLinePreservesStore | libraryManagementSystem/src/main/java/org/libraryManagementSystem/LMS.java:40-95 | one pass of the loop keeps the store invariant and existing entries, and announces each key it adds |
| Importer.AddedIdsAppend | libraryManagementSystem/src/main/java/org/libraryManagementSystem/LMS.java:93 | the ids announced by two message lists together are the ids each announces |
| Importer.ImportPreservesStore | libraryManagementSystem/src/main/java/org/libraryManagementSystem/LMS.java:40-95 | the whole read loop never removes or overwrites an entry, adds only announced keys, and keeps every entry valid |
| Importer.ImportNumbersPhysicalLines | libraryManagementSystem/src/main/java/org/libraryManagementSystem/LMS.java:38-47 | messages come in file order, each numbered with the physical line it is about, which is never blank |
| Importer.BlankLineKeepsNumbering | libraryManagementSystem/src/main/java/org/libraryManagementSystem/LMS.java:41-43 | a blank line adds no message, but the line after it is still numbered as its physical position |
| Importer.RepeatedIdIsDuplicate | libraryManagementSystem/src/main/java/org/libraryManagementSystem/LMS.java:62-63 | the next line after one that admitted an id, if it has the same id, is a `DUPLICATE ID` and changes nothing |
| Importer.ImportAnnouncesNewKeys | libraryManagementSystem/src/main/java/org/libraryManagementSystem/LMS.java:91-94 | the read loop never drops a key, and the ids announced by `ADDED` messages are exactly the keys it added |
| Importer.PrefixOfImport | libraryManagementSystem/src/main/java/org/libraryManagementSystem/LMS.java:40-95 | importing the first k lines gives a prefix of the whole import's messages, holding every message about those lines, and keys that all survive to the end |
| Importer.LaterRepeatIsDuplicate | libraryManagementSystem/src/main/java/org/libraryManagementSystem/LMS.java:59-65 | once a line has admitted an id, any later line in the same file that parses to that id is reported as `DUPLICATE ID` and leaves the store as it was, whatever was admitted in between |
| Importer.RemoveUndoesAdmission | libraryManagementSystem/src/main/java/org/libraryManagementSystem/LMS.java:160-161 | removing an id just admitted from a file restores the store as it was |
| Importer.ImportFileErrorsComeLast | libraryManagementSystem/src/main/java/org/libraryManagementSystem/LMS.java:31-34 | a missing file yields only `ERROR: File not found` and leaves the store alone; an `IOException` is reported once, after the messages of the lines read before it; the store keeps its invariant either way |
| ImportExample.ParseFieldsOfPaddedLine | libraryManagementSystem/src/main/java/org/libraryManagementSystem/LMS.java:42-54 | parsing the trimmed text of a line written as `ID-Name-Address-Fine` gives back each field trimmed, whatever blanks surround the fields and even when some are empty, provided the first three fields hold no `-` |
| ImportExample.WellFormedLine | libraryManagementSystem/src/main/java/org/libraryManagementSystem/LMS.java:45-54 | such a line is checked field by field |
| ImportExample.Line1 | libraryManagementSystem/src/main/java/org/libraryManagementSystem/LMS.java:91-94 | `1234567-Alice-123 Main St-10.50` into an empty store is admitted with fine 10.5 |
| ImportExample.Line2 | libraryManagementSystem/src/main/java/org/libraryManagementSystem/LMS.java:45-88 | `bad-line-only-three` splits into four parts and is reported as `INVALID ID -> bad` then `INVALID FINE -> three`, not as a format error |
| ImportExample.Line3 | libraryManagementSystem/src/main/java/org/libraryManagementSystem/LMS.java:62-63 | a second line for id 1234567 is a `DUPLICATE ID` and changes nothing |
| ImportExample.Line4 | libraryManagementSystem/src/main/java/org/libraryManagementSystem/LMS.java:59-60 | the five-digit id 12345 is an `INVALID ID` |
| ImportExample.Line5 | libraryManagementSystem/src/main/java/org/libraryManagementSystem/LMS.java:81-82 | a fine of 999 is `FINE OUT OF RANGE` |
| Lms.LMS.constructor | libraryManagementSystem/src/main/java/org/libraryManagementSystem/LMS.java:19-21 | a new system has an empty store, which satisfies the store invariant |
| Lms.LMS.AddPatronFile | libraryManagementSystem/src/main/java/org/libraryManagementSystem/LMS.java:27-101 | the loop leaves the store and returns the messages that the import of the file's lines defines, and keeps the store invariant |
| Lms.LMS.ImportLine | libraryManagementSystem/src/main/java/org/libraryManagementSystem/LMS.java:41-94 | one iteration of the read loop updates the store and yields the messages of one pass of the loop |
| Lms.LMS.CheckFields | libraryManagementSystem/src/main/java/org/libraryManagementSystem/LMS.java:56-88 | the in-place checks produce exactly the rejections of the four fields, in order; `validLine` holds exactly when there are none, and then the fine is the parsed value |
| Lms.LMS.AddPatronManually | libraryManagementSystem/src/main/java/org/libraryManagementSystem/LMS.java:104-158 | once the prompts accept a new valid id, a non-blank name and address, and a fine in range, the patron is put under its id, every other entry is kept, and the store invariant holds |
| Lms.LMS.RemovePatron | libraryManagementSystem/src/main/java/org/libraryManagementSystem/LMS.java:160-166 | the entry for the id is removed, reporting whether there was one; every other entry is unchanged and the invariant holds |

## Left out

- Opening and reading the file is not modelled. The file is a `Source` value: a missing file, or the lines read with the optional message of the `IOException` that stopped the reading. `BufferedReader`'s splitting into lines is not modelled.
- `Double.parseDouble` is a parameter. Its result is a real number, so NaN and the infinities are not modelled. In particular, for NaN `fine < 0 || fine > 250` is false, so a NaN fine is admitted; the model cannot show this. Negative zero is not modelled either.
- The `int` line counter is unbounded in the model; wrap-around after 2^31 - 1 lines is not modelled.
- The prompt loops of `addPatronManually` (`Scanner` input, console prompts and retries) are not modelled. Their exit conditions become the preconditions of `Lms.LMS.AddPatronManually`.
- Lms.LMS.RemovePatron: returns whether an entry was removed instead of printing the two console messages.
- `displayAllPatrons` and `showMenu` are console I/O only and are not modelled. The iteration order of the `HashMap` is not modelled either.
- The `Patron` setters and `toString` are not modelled: nothing in the modelled core calls them. Only the four fields of `Patron` are modelled, as the `Patron` datatype.
- `null` arguments to the validators are not modelled; every string in the model is present.
- The worked example is stated one line at a time (`ImportExample.Line1` to `Line5`), each against the store the earlier lines leave behind. A single lemma over the whole five-line file is not stated.
