/** The diagnostics addPatronFile returns: one per file-level error, or one
    per finding on a numbered line, and their rendering as the Java strings
    the menu prints. */
module ImportLog {
  import opened JavaStrings

  /** What a single line of the file produced. */
  datatype Note =
    | InvalidFormat(line: string)
    | InvalidId(id: string)
    | DuplicateId(id: string)
    | InvalidName(name: string)
    | InvalidAddress(address: string)
    | InvalidFine(fineText: string)
    | FineOutOfRange(fineText: string)
    | Added(id: string, name: string)

  datatype Message =
    | FileNotFound(path: string)
    | ReadError(reason: string)
    | AtLine(lineNo: nat, note: Note)

  function NoteText(note: Note): string {
    match note
    case InvalidFormat(line) => "INVALID FORMAT -> " + line
    case InvalidId(id) => "INVALID ID -> " + id
    case DuplicateId(id) => "DUPLICATE ID -> " + id
    case InvalidName(name) => "INVALID NAME -> " + name
    case InvalidAddress(address) => "INVALID ADDRESS -> " + address
    case InvalidFine(fineText) => "INVALID FINE -> " + fineText
    case FineOutOfRange(fineText) => "FINE OUT OF RANGE -> " + fineText
    case Added(id, name) => "ADDED " + id + " - " + name
  }

  /** The string the Java code appends to its message list. */
  function Render(m: Message): string {
    match m
    case FileNotFound(path) => "ERROR: File not found: " + path
    case ReadError(reason) => "ERROR: " + reason
    case AtLine(n, note) => "Line " + Decimal(n) + ": " + NoteText(note)
  }

  /** Reads the line number back from a rendered message: `Line <digits>:`
      at the start, or nothing. */
  function LineNumberOf(s: string): Option<nat> {
    if |s| >= 5 && s[..5] == "Line " then
      var d := LeadingDigits(s[5..]);
      if d != [] && 5 + |d| < |s| && s[5 + |d|] == ':' then Some(DecimalValue(d)) else None
    else
      None
  }

  lemma LineNumberOfLinePrefix(n: nat, text: string)
    ensures LineNumberOf("Line " + Decimal(n) + ": " + text) == Some(n)
  {
    var s := "Line " + Decimal(n) + ": " + text;
    var d := Decimal(n);
    var rest := ": " + text;
    assert s == "Line " + (d + rest);
    assert s[..5] == "Line " && s[5..] == d + rest;
    LeadingDigitsOfDigitsThen(d, rest);
    assert s[5 + |d|] == rest[0] == ':';
    DecimalRoundTrip(n);
  }

  lemma LineNumberOfErrorPrefix(text: string)
    ensures LineNumberOf("ERROR: " + text) == None
  {
    var s := "ERROR: " + text;
    assert s[0] == 'E';
    assert s[..5] != "Line " by {
      assert s[..5][0] == 'E';
    }
  }

  /** Every per-line message carries its line number in a form that can be
      read back, and the two file-level errors carry none. */
  lemma RenderedLineNumber(m: Message)
    ensures LineNumberOf(Render(m)) == if m.AtLine? then Some(m.lineNo) else None
  {
    match m
    case FileNotFound(path) =>
      assert Render(m) == "ERROR: " + ("File not found: " + path);
      LineNumberOfErrorPrefix("File not found: " + path);
    case ReadError(reason) =>
      LineNumberOfErrorPrefix(reason);
    case AtLine(n, note) =>
      LineNumberOfLinePrefix(n, NoteText(note));
  }
}
