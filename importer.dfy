/** What LMS.addPatronFile does to the patron store and which messages it
    returns, as functions of the store, the file's lines and the number
    parser. The imperative loop in module Lms is proved to compute exactly
    this; the lemmas below state the importer's promises about it. */
module Importer {
  import opened JavaStrings
  import opened PatronRecord
  import opened Validators
  import opened ImportLog

  /** What the file system delivers for a path: nothing (File.exists is
      false), or the lines read before the end of the file or before an
      IOException, with that exception's message. An IOException raised
      while opening an existing file is Readable([], Some(message)). */
  datatype Source =
    | Missing
    | Readable(lines: seq<string>, readFailure: Option<string>)

  /** Double.parseDouble: a number, or None where it throws
      NumberFormatException. */
  type ParseDouble = string -> Option<real>

  /** The four trimmed fields of a well-formed line. */
  datatype Fields = Fields(id: string, name: string, address: string, fineText: string)

  datatype Outcome = Outcome(store: map<string, Patron>, messages: seq<Message>)

  /** `line.split("-", 4)` followed by trimming each part; None where the
      split gives fewer than four parts. */
  function ParseFields(line: string): (f: Option<Fields>)
    ensures f.Some? <==> CountChar(line, '-') >= 3
    ensures f.Some? ==> Trim(f.value.name) == f.value.name && Trim(f.value.address) == f.value.address
  {
    var parts := SplitLimit(line, '-', 4);
    if |parts| != 4 then None
    else
      TrimIdempotent(parts[1]);
      TrimIdempotent(parts[2]);
      Some(Fields(Trim(parts[0]), Trim(parts[1]), Trim(parts[2]), Trim(parts[3])))
  }

  function IdNotes(store: map<string, Patron>, id: string): seq<Note> {
    if !ValidId(id) then [InvalidId(id)]
    else if id in store then [DuplicateId(id)]
    else []
  }

  function NameNotes(name: string): seq<Note> {
    if !ValidName(name) then [InvalidName(name)] else []
  }

  function AddressNotes(address: string): seq<Note> {
    if !ValidAddress(address) then [InvalidAddress(address)] else []
  }

  function FineNotes(fineText: string, parseDouble: ParseDouble): seq<Note> {
    match parseDouble(fineText)
    case None => [InvalidFine(fineText)]
    case Some(fine) => if fine < 0.0 || fine > MaxFine then [FineOutOfRange(fineText)] else []
  }

  /** The four checks, none of which stops the others, in their fixed order. */
  function Rejections(store: map<string, Patron>, f: Fields, parseDouble: ParseDouble): seq<Note> {
    IdNotes(store, f.id) + NameNotes(f.name) + AddressNotes(f.address) + FineNotes(f.fineText, parseDouble)
  }

  function Numbered(n: nat, notes: seq<Note>): seq<Message> {
    seq(|notes|, k requires 0 <= k < |notes| => AtLine(n, notes[k]))
  }

  /** The checks and the admission of a well-formed line numbered n. */
  function CheckedLine(store: map<string, Patron>, n: nat, f: Fields, parseDouble: ParseDouble): Outcome {
    var rejections := Rejections(store, f, parseDouble);
    if rejections == [] then
      Outcome(store[f.id := Patron(f.id, f.name, f.address, parseDouble(f.fineText).value)],
              [AtLine(n, Added(f.id, f.name))])
    else
      Outcome(store, Numbered(n, rejections))
  }

  /** One iteration of the read loop, for the line numbered n. */
  function ProcessLine(store: map<string, Patron>, n: nat, raw: string, parseDouble: ParseDouble): Outcome {
    var line := Trim(raw);
    if line == [] then Outcome(store, [])
    else
      match ParseFields(line)
      case None => Outcome(store, [AtLine(n, InvalidFormat(line))])
      case Some(f) => CheckedLine(store, n, f, parseDouble)
  }

  /** The read loop over the whole file: line k (from 1) is processed
      against the store that lines 1 to k - 1 left behind. */
  function ImportLines(store: map<string, Patron>, lines: seq<string>, parseDouble: ParseDouble): Outcome
    decreases |lines|
  {
    if lines == [] then Outcome(store, [])
    else
      var before := ImportLines(store, lines[..|lines| - 1], parseDouble);
      var step := ProcessLine(before.store, |lines|, lines[|lines| - 1], parseDouble);
      Outcome(step.store, before.messages + step.messages)
  }

  /** addPatronFile as a whole. */
  function ImportFile(store: map<string, Patron>, path: string, source: Source, parseDouble: ParseDouble): Outcome {
    match source
    case Missing => Outcome(store, [FileNotFound(path)])
    case Readable(lines, failure) =>
      var o := ImportLines(store, lines, parseDouble);
      match failure
      case None => o
      case Some(reason) => Outcome(o.store, o.messages + [ReadError(reason)])
  }

  // ---------------------------------------------------------------------
  // Properties of one line

  /** The condition under which a well-formed line is admitted, stated
      check by check. */
  predicate AllChecksPass(store: map<string, Patron>, f: Fields, parseDouble: ParseDouble) {
    && ValidId(f.id) && f.id !in store
    && ValidName(f.name)
    && ValidAddress(f.address)
    && parseDouble(f.fineText).Some? && FineInRange(parseDouble(f.fineText).value)
  }

  /** Position of a finding in the fixed reporting order id, name, address, fine. */
  function Rank(note: Note): nat {
    match note
    case InvalidId(_) => 0
    case DuplicateId(_) => 0
    case InvalidName(_) => 1
    case InvalidAddress(_) => 2
    case InvalidFine(_) => 3
    case FineOutOfRange(_) => 3
    case InvalidFormat(_) => 4
    case Added(_, _) => 5
  }

  /** All messages are findings on line n, in strictly increasing rank. */
  predicate RejectedInOrder(ms: seq<Message>, n: nat) {
    && (forall m :: m in ms ==> m.AtLine? && m.lineNo == n && !m.note.Added? && !m.note.InvalidFormat?)
    && (forall i, j :: 0 <= i < j < |ms| ==> Rank(ms[i].note) < Rank(ms[j].note))
  }

  lemma NumberedMembership(n: nat, notes: seq<Note>)
    ensures forall note :: AtLine(n, note) in Numbered(n, notes) <==> note in notes
    ensures forall m :: m in Numbered(n, notes) ==> m.AtLine? && m.lineNo == n && m.note in notes
  {
    var ms := Numbered(n, notes);
    forall note ensures AtLine(n, note) in ms <==> note in notes {
      if note in notes {
        var k :| 0 <= k < |notes| && notes[k] == note;
        assert ms[k] == AtLine(n, note);
      }
    }
  }

  lemma NumberedSnoc(n: nat, notes: seq<Note>, note: Note)
    ensures Numbered(n, notes + [note]) == Numbered(n, notes) + [AtLine(n, note)]
  {
  }

  /** ProcessLine unfolded along the branches of the loop body. */
  lemma ProcessLineCases(store: map<string, Patron>, n: nat, raw: string, parseDouble: ParseDouble)
    ensures Trim(raw) == [] ==> ProcessLine(store, n, raw, parseDouble) == Outcome(store, [])
    ensures var line := Trim(raw); var parts := SplitLimit(line, '-', 4);
      line != [] && |parts| != 4 ==>
        ProcessLine(store, n, raw, parseDouble) == Outcome(store, [AtLine(n, InvalidFormat(line))])
    ensures var line := Trim(raw); var parts := SplitLimit(line, '-', 4);
      line != [] && |parts| == 4 ==>
        ProcessLine(store, n, raw, parseDouble) ==
          CheckedLine(store, n, Fields(Trim(parts[0]), Trim(parts[1]), Trim(parts[2]), Trim(parts[3])), parseDouble)
  {
  }

  /** CheckedLine in terms of the numbered findings and the parsed fine. */
  lemma CheckedLineFromFindings(store: map<string, Patron>, n: nat, f: Fields, parseDouble: ParseDouble, found: seq<Message>, fine: real)
    requires found == Numbered(n, Rejections(store, f, parseDouble))
    requires found == [] ==> parseDouble(f.fineText) == Some(fine)
    ensures CheckedLine(store, n, f, parseDouble) ==
      if found == [] then Outcome(store[f.id := Patron(f.id, f.name, f.address, fine)], [AtLine(n, Added(f.id, f.name))])
      else Outcome(store, found)
  {
    assert |found| == |Rejections(store, f, parseDouble)|;
  }

  /** ImportLines over one more line. */
  lemma ImportLinesStep(store: map<string, Patron>, lines: seq<string>, i: nat, parseDouble: ParseDouble)
    requires i < |lines|
    ensures var before := ImportLines(store, lines[..i], parseDouble);
      var step := ProcessLine(before.store, i + 1, lines[i], parseDouble);
      ImportLines(store, lines[..i + 1], parseDouble) == Outcome(step.store, before.messages + step.messages)
  {
    assert lines[..i + 1][..i] == lines[..i];
  }

  /** A line that is blank once trimmed yields nothing and leaves the store alone. */
  lemma BlankLineIsSilent(store: map<string, Patron>, n: nat, raw: string, parseDouble: ParseDouble)
    requires AllTrimmable(raw)
    ensures ProcessLine(store, n, raw, parseDouble) == Outcome(store, [])
  {
  }

  lemma RejectionMembership(store: map<string, Patron>, f: Fields, parseDouble: ParseDouble)
    ensures var rs := Rejections(store, f, parseDouble);
      && (InvalidId(f.id) in rs <==> !ValidId(f.id))
      && (DuplicateId(f.id) in rs <==> ValidId(f.id) && f.id in store)
      && (InvalidName(f.name) in rs <==> !ValidName(f.name))
      && (InvalidAddress(f.address) in rs <==> !ValidAddress(f.address))
      && (InvalidFine(f.fineText) in rs <==> parseDouble(f.fineText).None?)
      && (FineOutOfRange(f.fineText) in rs <==>
            parseDouble(f.fineText).Some? && !FineInRange(parseDouble(f.fineText).value))
    ensures forall note :: note in Rejections(store, f, parseDouble) ==>
      && (note.InvalidId? || note.DuplicateId? ==> note.id == f.id)
      && (note.InvalidName? ==> note.name == f.name)
      && (note.InvalidAddress? ==> note.address == f.address)
      && (note.InvalidFine? || note.FineOutOfRange? ==> note.fineText == f.fineText)
      && !note.InvalidFormat? && !note.Added?
  {
    forall note ensures note in Rejections(store, f, parseDouble) <==>
      note in IdNotes(store, f.id) || note in NameNotes(f.name) ||
      note in AddressNotes(f.address) || note in FineNotes(f.fineText, parseDouble)
    {
      InConcat4(IdNotes(store, f.id), NameNotes(f.name), AddressNotes(f.address), FineNotes(f.fineText, parseDouble), note);
    }
  }

  lemma InConcat4<T>(a: seq<T>, b: seq<T>, c: seq<T>, d: seq<T>, x: T)
    ensures x in a + b + c + d <==> x in a || x in b || x in c || x in d
  {
  }

  /** For a well-formed line, each check reports exactly when it fails: the
      id check (format, then duplicate), name, address, and the fine check,
      whose two findings exclude each other. No other finding is possible. */
  lemma EachCheckReportsIffItFails(store: map<string, Patron>, n: nat, f: Fields, parseDouble: ParseDouble)
    ensures var ms := CheckedLine(store, n, f, parseDouble).messages;
      && (AtLine(n, InvalidId(f.id)) in ms <==> !ValidId(f.id))
      && (AtLine(n, DuplicateId(f.id)) in ms <==> ValidId(f.id) && f.id in store)
      && (AtLine(n, InvalidName(f.name)) in ms <==> !ValidName(f.name))
      && (AtLine(n, InvalidAddress(f.address)) in ms <==> !ValidAddress(f.address))
      && (AtLine(n, InvalidFine(f.fineText)) in ms <==> parseDouble(f.fineText).None?)
      && (AtLine(n, FineOutOfRange(f.fineText)) in ms <==>
            parseDouble(f.fineText).Some? && !FineInRange(parseDouble(f.fineText).value))
      && !(AtLine(n, InvalidFine(f.fineText)) in ms && AtLine(n, FineOutOfRange(f.fineText)) in ms)
    ensures forall m :: m in CheckedLine(store, n, f, parseDouble).messages ==>
      && m.AtLine? && m.lineNo == n
      && (m.note.InvalidId? || m.note.DuplicateId? ==> m.note.id == f.id)
      && (m.note.InvalidName? ==> m.note.name == f.name)
      && (m.note.InvalidAddress? ==> m.note.address == f.address)
      && (m.note.InvalidFine? || m.note.FineOutOfRange? ==> m.note.fineText == f.fineText)
      && !m.note.InvalidFormat?
  {
    var rs := Rejections(store, f, parseDouble);
    RejectionMembership(store, f, parseDouble);
    if rs != [] {
      NumberedMembership(n, rs);
    }
  }

  lemma NoRejectionsIffAllChecksPass(store: map<string, Patron>, f: Fields, parseDouble: ParseDouble)
    ensures Rejections(store, f, parseDouble) == [] <==> AllChecksPass(store, f, parseDouble)
  {
    var a, b, c, d := IdNotes(store, f.id), NameNotes(f.name), AddressNotes(f.address), FineNotes(f.fineText, parseDouble);
    assert |a + b + c + d| == |a| + |b| + |c| + |d|;
    assert a == [] <==> ValidId(f.id) && f.id !in store;
    assert d == [] <==> parseDouble(f.fineText).Some? && FineInRange(parseDouble(f.fineText).value);
  }

  /** A well-formed line is admitted exactly when every check passes. An
      admitted line adds its patron under a key that was absent and yields
      the one ADDED message; a rejected line leaves the store alone and
      yields its findings on its own line number, in the order id, name,
      address, fine. */
  lemma AdmittedIffAllChecksPass(store: map<string, Patron>, n: nat, f: Fields, parseDouble: ParseDouble)
    ensures var o := CheckedLine(store, n, f, parseDouble);
      AllChecksPass(store, f, parseDouble) ==>
        && f.id !in store
        && o.store == store[f.id := Patron(f.id, f.name, f.address, parseDouble(f.fineText).value)]
        && o.messages == [AtLine(n, Added(f.id, f.name))]
    ensures var o := CheckedLine(store, n, f, parseDouble);
      !AllChecksPass(store, f, parseDouble) ==>
        o.store == store && o.messages != [] && RejectedInOrder(o.messages, n)
  {
    var rs := Rejections(store, f, parseDouble);
    NoRejectionsIffAllChecksPass(store, f, parseDouble);
    if rs != [] {
      var ms := Numbered(n, rs);
      assert CheckedLine(store, n, f, parseDouble) == Outcome(store, ms);
      RejectionMembership(store, f, parseDouble);
      RejectionsRanked(store, f, parseDouble);
      NumberedMembership(n, rs);
      assert forall i :: 0 <= i < |ms| ==> ms[i].note == rs[i];
    }
  }

  lemma RejectionsRanked(store: map<string, Patron>, f: Fields, parseDouble: ParseDouble)
    ensures var rs := Rejections(store, f, parseDouble);
      forall i, j :: 0 <= i < j < |rs| ==> Rank(rs[i]) < Rank(rs[j])
  {
    var a, b, c, d := IdNotes(store, f.id), NameNotes(f.name), AddressNotes(f.address), FineNotes(f.fineText, parseDouble);
    var rs := a + b + c + d;
    assert Rejections(store, f, parseDouble) == rs;
    forall i, j | 0 <= i < j < |rs| ensures Rank(rs[i]) < Rank(rs[j]) {
      RankedConcat(a, b, c, d, i, j);
    }
  }

  lemma RankedConcat(a: seq<Note>, b: seq<Note>, c: seq<Note>, d: seq<Note>, i: nat, j: nat)
    requires |a| <= 1 && |b| <= 1 && |c| <= 1 && |d| <= 1
    requires forall x :: x in a ==> Rank(x) == 0
    requires forall x :: x in b ==> Rank(x) == 1
    requires forall x :: x in c ==> Rank(x) == 2
    requires forall x :: x in d ==> Rank(x) == 3
    requires i < j < |a + b + c + d|
    ensures Rank((a + b + c + d)[i]) < Rank((a + b + c + d)[j])
  {
  }

  /** A non-blank line is malformed exactly when its trimmed text holds fewer
      than three `-`: then it yields the one INVALID FORMAT message carrying
      the trimmed text and the store is unchanged; otherwise its four
      trimmed fields go through the checks and no INVALID FORMAT appears. */
  lemma FormatErrorIffFewerThanThreeDashes(store: map<string, Patron>, n: nat, raw: string, parseDouble: ParseDouble)
    requires !AllTrimmable(raw)
    ensures var line := Trim(raw);
      CountChar(line, '-') < 3 ==>
        ProcessLine(store, n, raw, parseDouble) == Outcome(store, [AtLine(n, InvalidFormat(line))])
    ensures var line := Trim(raw);
      CountChar(line, '-') >= 3 ==>
        && ProcessLine(store, n, raw, parseDouble) == CheckedLine(store, n, ParseFields(line).value, parseDouble)
        && forall m :: m in ProcessLine(store, n, raw, parseDouble).messages ==>
             m.AtLine? && m.lineNo == n && !m.note.InvalidFormat?
  {
    var line := Trim(raw);
    var o := ProcessLine(store, n, raw, parseDouble);
    if CountChar(line, '-') < 3 {
      assert ParseFields(line).None?;
      assert o == Outcome(store, [AtLine(n, InvalidFormat(line))]);
    } else {
      var f := ParseFields(line).value;
      assert o == CheckedLine(store, n, f, parseDouble);
      EachCheckReportsIffItFails(store, n, f, parseDouble);
    }
  }

  /** DUPLICATE ID is reported for an id only when that id is well-formed
      and already a key of the store; it never comes with INVALID ID for
      the same id. */
  lemma DuplicateOnlyForStoredValidId(store: map<string, Patron>, n: nat, raw: string, parseDouble: ParseDouble, id: string)
    ensures var ms := ProcessLine(store, n, raw, parseDouble).messages;
      AtLine(n, DuplicateId(id)) in ms ==> ValidId(id) && id in store && AtLine(n, InvalidId(id)) !in ms
  {
    var line := Trim(raw);
    var o := ProcessLine(store, n, raw, parseDouble);
    if line == [] {
      assert o.messages == [];
    } else if ParseFields(line).None? {
      assert o.messages == [AtLine(n, InvalidFormat(line))];
    } else {
      var f := ParseFields(line).value;
      assert o == CheckedLine(store, n, f, parseDouble);
      EachCheckReportsIffItFails(store, n, f, parseDouble);
      if AtLine(n, DuplicateId(id)) in o.messages {
        var m := AtLine(n, DuplicateId(id));
        assert m.note.id == f.id;
      }
    }
  }

  /** Every message of one line is numbered with that line, and a blank
      line has none. */
  lemma LineMessagesCarryLineNumber(store: map<string, Patron>, n: nat, raw: string, parseDouble: ParseDouble)
    ensures var ms := ProcessLine(store, n, raw, parseDouble).messages;
      && (AllTrimmable(raw) ==> ms == [])
      && forall m :: m in ms ==> m.AtLine? && m.lineNo == n
  {
    var line := Trim(raw);
    var o := ProcessLine(store, n, raw, parseDouble);
    if line == [] {
      assert o.messages == [];
    } else if ParseFields(line).None? {
      assert o.messages == [AtLine(n, InvalidFormat(line))];
    } else {
      var f := ParseFields(line).value;
      assert o == CheckedLine(store, n, f, parseDouble);
      var rs := Rejections(store, f, parseDouble);
      if rs == [] {
        assert o.messages == [AtLine(n, Added(f.id, f.name))];
      } else {
        assert o.messages == Numbered(n, rs);
        NumberedMembership(n, rs);
      }
    }
  }

  /** The ids of the patrons a list of messages announces as added. */
  function AddedIds(ms: seq<Message>): set<string> {
    set m | m in ms && m.AtLine? && m.note.Added? :: m.note.id
  }

  /** A well-formed line never removes or overwrites an entry, every key it
      adds is announced by an ADDED message, and the store invariant is
      kept (the name and address arrive trimmed, as ParseFields gives them). */
  lemma CheckedLinePreservesStore(store: map<string, Patron>, n: nat, f: Fields, parseDouble: ParseDouble)
    requires StoreInvariant(store)
    requires Trim(f.name) == f.name && Trim(f.address) == f.address
    ensures var o := CheckedLine(store, n, f, parseDouble);
      && StoreInvariant(o.store)
      && (forall k :: k in store ==> k in o.store && o.store[k] == store[k])
      && (forall k :: k in o.store && k !in store ==> k in AddedIds(o.messages))
  {
    var o := CheckedLine(store, n, f, parseDouble);
    NoRejectionsIffAllChecksPass(store, f, parseDouble);
    if !AllChecksPass(store, f, parseDouble) {
      assert o.store == store;
    } else {
      AdmittedIffAllChecksPass(store, n, f, parseDouble);
      var p := Patron(f.id, f.name, f.address, parseDouble(f.fineText).value);
      assert o.store == store[f.id := p];
      assert ValidEntry(f.id, p);
      forall k | k in o.store ensures ValidEntry(k, o.store[k]) {
        if k != f.id {
          assert o.store[k] == store[k];
        }
      }
      AddedIdsOfAdded(n, f.id, f.name);
    }
  }

  /** One line never removes or overwrites an entry, every key it adds is
      announced by an ADDED message, and the store invariant is kept. */
  lemma ProcessLinePreservesStore(store: map<string, Patron>, n: nat, raw: string, parseDouble: ParseDouble)
    requires StoreInvariant(store)
    ensures var o := ProcessLine(store, n, raw, parseDouble);
      && StoreInvariant(o.store)
      && (forall k :: k in store ==> k in o.store && o.store[k] == store[k])
      && (forall k :: k in o.store && k !in store ==> k in AddedIds(o.messages))
  {
    var line := Trim(raw);
    var o := ProcessLine(store, n, raw, parseDouble);
    if line == [] {
      assert o.store == store;
    } else if ParseFields(line).None? {
      assert o.store == store;
    } else {
      var f := ParseFields(line).value;
      assert o == CheckedLine(store, n, f, parseDouble);
      CheckedLinePreservesStore(store, n, f, parseDouble);
    }
  }

  lemma AddedIdsOfAdded(n: nat, id: string, name: string)
    ensures AddedIds([AtLine(n, Added(id, name))]) == {id}
  {
    var m := AtLine(n, Added(id, name));
    assert m in [m];
  }

  lemma AddedIdsAppend(a: seq<Message>, b: seq<Message>)
    ensures AddedIds(a + b) == AddedIds(a) + AddedIds(b)
  {
    assert forall m :: m in a + b <==> m in a || m in b;
  }

  /** The whole read loop never removes or overwrites an entry, announces
      every key it adds, and keeps the store invariant. */
  lemma {:induction false} ImportPreservesStore(store: map<string, Patron>, lines: seq<string>, parseDouble: ParseDouble)
    requires StoreInvariant(store)
    ensures var o := ImportLines(store, lines, parseDouble);
      && StoreInvariant(o.store)
      && (forall k :: k in store ==> k in o.store && o.store[k] == store[k])
      && (forall k :: k in o.store && k !in store ==> k in AddedIds(o.messages))
    decreases |lines|
  {
    if lines != [] {
      var before := ImportLines(store, lines[..|lines| - 1], parseDouble);
      ImportPreservesStore(store, lines[..|lines| - 1], parseDouble);
      ProcessLinePreservesStore(before.store, |lines|, lines[|lines| - 1], parseDouble);
      var step := ProcessLine(before.store, |lines|, lines[|lines| - 1], parseDouble);
      AddedIdsAppend(before.messages, step.messages);
    }
  }

  /** Messages come in file order, each numbered with the physical line it
      is about (counting blank lines), and never about a blank line. */
  lemma {:induction false} ImportNumbersPhysicalLines(store: map<string, Patron>, lines: seq<string>, parseDouble: ParseDouble)
    ensures var ms := ImportLines(store, lines, parseDouble).messages;
      && (forall m :: m in ms ==> m.AtLine? && 1 <= m.lineNo <= |lines| && !AllTrimmable(lines[m.lineNo - 1]))
      && (forall i, j :: 0 <= i < j < |ms| ==> ms[i].lineNo <= ms[j].lineNo)
    decreases |lines|
  {
    if lines != [] {
      var init := lines[..|lines| - 1];
      var before := ImportLines(store, init, parseDouble);
      ImportNumbersPhysicalLines(store, init, parseDouble);
      var step := ProcessLine(before.store, |lines|, lines[|lines| - 1], parseDouble);
      LineMessagesCarryLineNumber(before.store, |lines|, lines[|lines| - 1], parseDouble);
      var ms := before.messages + step.messages;
      forall m | m in ms ensures m.AtLine? && 1 <= m.lineNo <= |lines| && !AllTrimmable(lines[m.lineNo - 1]) {
        if m in before.messages {
          assert lines[m.lineNo - 1] == init[m.lineNo - 1];
        }
      }
      forall i, j | 0 <= i < j < |ms| ensures ms[i].lineNo <= ms[j].lineNo {
        if j >= |before.messages| {
          assert ms[j] in step.messages;
          assert ms[i] in before.messages || ms[i] in step.messages;
        }
      }
    }
  }

  /** A blank line still takes up its line number: the line after it is
      checked as line |lines| + 2, and the blank line adds nothing. */
  lemma BlankLineKeepsNumbering(store: map<string, Patron>, lines: seq<string>, blank: string, next: string, parseDouble: ParseDouble)
    requires AllTrimmable(blank)
    ensures var o := ImportLines(store, lines, parseDouble);
      var step := ProcessLine(o.store, |lines| + 2, next, parseDouble);
      ImportLines(store, lines + [blank, next], parseDouble) == Outcome(step.store, o.messages + step.messages)
  {
    var all := lines + [blank, next];
    var o := ImportLines(store, lines, parseDouble);
    assert all[..|all| - 1] == lines + [blank];
    assert (lines + [blank])[..|lines|] == lines;
    BlankLineIsSilent(o.store, |lines| + 1, blank, parseDouble);
    assert ImportLines(store, lines + [blank], parseDouble) == Outcome(o.store, o.messages + []);
    assert o.messages + [] == o.messages;
  }

  /** A line that repeats the id of the line admitted just before it is
      reported as DUPLICATE ID and changes nothing. */
  lemma RepeatedIdIsDuplicate(store: map<string, Patron>, n: nat, first: Fields, second: Fields, parseDouble: ParseDouble)
    requires AllChecksPass(store, first, parseDouble) && second.id == first.id
    ensures var o1 := CheckedLine(store, n, first, parseDouble);
      var o2 := CheckedLine(o1.store, n + 1, second, parseDouble);
      && o1.messages == [AtLine(n, Added(first.id, first.name))]
      && AtLine(n + 1, DuplicateId(first.id)) in o2.messages
      && o2.store == o1.store
  {
    var o1 := CheckedLine(store, n, first, parseDouble);
    AdmittedIffAllChecksPass(store, n, first, parseDouble);
    EachCheckReportsIffItFails(o1.store, n + 1, second, parseDouble);
    AdmittedIffAllChecksPass(o1.store, n + 1, second, parseDouble);
  }

  lemma CheckedLineAnnouncesNewKeys(store: map<string, Patron>, n: nat, f: Fields, parseDouble: ParseDouble)
    ensures var o := CheckedLine(store, n, f, parseDouble);
      && store.Keys <= o.store.Keys
      && AddedIds(o.messages) == o.store.Keys - store.Keys
  {
    var o := CheckedLine(store, n, f, parseDouble);
    NoRejectionsIffAllChecksPass(store, f, parseDouble);
    if AllChecksPass(store, f, parseDouble) {
      AdmittedIffAllChecksPass(store, n, f, parseDouble);
      AddedIdsOfAdded(n, f.id, f.name);
      assert o.store.Keys == store.Keys + {f.id};
    } else {
      assert o == Outcome(store, Numbered(n, Rejections(store, f, parseDouble)));
      RejectionMembership(store, f, parseDouble);
      NumberedMembership(n, Rejections(store, f, parseDouble));
      assert forall m :: m in o.messages ==> !m.note.Added?;
    }
  }

  /** One line never drops a key, and the ids it announces as ADDED are
      exactly the keys it adds. */
  lemma ProcessLineAnnouncesNewKeys(store: map<string, Patron>, n: nat, raw: string, parseDouble: ParseDouble)
    ensures var o := ProcessLine(store, n, raw, parseDouble);
      && store.Keys <= o.store.Keys
      && AddedIds(o.messages) == o.store.Keys - store.Keys
  {
    var line := Trim(raw);
    var o := ProcessLine(store, n, raw, parseDouble);
    if line == [] {
      assert o == Outcome(store, []);
    } else if ParseFields(line).None? {
      var m := AtLine(n, InvalidFormat(line));
      assert o == Outcome(store, [m]);
      assert forall x :: x in o.messages ==> x == m;
    } else {
      var f := ParseFields(line).value;
      assert o == CheckedLine(store, n, f, parseDouble);
      CheckedLineAnnouncesNewKeys(store, n, f, parseDouble);
    }
  }

  /** The whole read loop never drops a key, and the ids it announces as
      ADDED are exactly the keys it adds: every announced patron is in the
      final store. */
  lemma {:induction false} ImportAnnouncesNewKeys(store: map<string, Patron>, lines: seq<string>, parseDouble: ParseDouble)
    ensures var o := ImportLines(store, lines, parseDouble);
      && store.Keys <= o.store.Keys
      && AddedIds(o.messages) == o.store.Keys - store.Keys
    decreases |lines|
  {
    if lines == [] {
      assert ImportLines(store, lines, parseDouble) == Outcome(store, []);
    } else {
      var init := lines[..|lines| - 1];
      var before := ImportLines(store, init, parseDouble);
      ImportAnnouncesNewKeys(store, init, parseDouble);
      ProcessLineAnnouncesNewKeys(before.store, |lines|, lines[|lines| - 1], parseDouble);
      var step := ProcessLine(before.store, |lines|, lines[|lines| - 1], parseDouble);
      AddedIdsAppend(before.messages, step.messages);
    }
  }

  /** Importing the first k lines gives a prefix of the messages of the
      whole import, holding every message about those lines, and a store
      whose keys all survive to the end. */
  lemma {:induction false} PrefixOfImport(store: map<string, Patron>, lines: seq<string>, k: nat, parseDouble: ParseDouble)
    requires k <= |lines|
    ensures var whole := ImportLines(store, lines, parseDouble);
      var pre := ImportLines(store, lines[..k], parseDouble);
      && pre.messages <= whole.messages
      && pre.store.Keys <= whole.store.Keys
      && forall m :: m in whole.messages && m.AtLine? && m.lineNo <= k ==> m in pre.messages
    decreases |lines|
  {
    if k == |lines| {
      assert lines[..k] == lines;
    } else {
      var init := lines[..|lines| - 1];
      assert init[..k] == lines[..k];
      PrefixOfImport(store, init, k, parseDouble);
      var before := ImportLines(store, init, parseDouble);
      LineMessagesCarryLineNumber(before.store, |lines|, lines[|lines| - 1], parseDouble);
      ProcessLineAnnouncesNewKeys(before.store, |lines|, lines[|lines| - 1], parseDouble);
    }
  }

  /** An id announced on line i + 1 is a valid key of the store that every
      later line is checked against. */
  lemma AnnouncedIdStaysStored(store: map<string, Patron>, lines: seq<string>, i: nat, j: nat,
                               id: string, name: string, parseDouble: ParseDouble)
    requires StoreInvariant(store)
    requires i < j <= |lines|
    requires AtLine(i + 1, Added(id, name)) in ImportLines(store, lines, parseDouble).messages
    ensures var before := ImportLines(store, lines[..j], parseDouble);
      id in before.store && ValidId(id)
  {
    var upto := ImportLines(store, lines[..i + 1], parseDouble);
    PrefixOfImport(store, lines, i + 1, parseDouble);
    var added := AtLine(i + 1, Added(id, name));
    assert added in upto.messages;
    ImportAnnouncesNewKeys(store, lines[..i + 1], parseDouble);
    assert id in AddedIds(upto.messages);

    var before := ImportLines(store, lines[..j], parseDouble);
    assert lines[..j][..i + 1] == lines[..i + 1];
    PrefixOfImport(store, lines[..j], i + 1, parseDouble);
    ImportPreservesStore(store, lines[..j], parseDouble);
    assert ValidEntry(id, before.store[id]);
  }

  /** A line whose id is a valid stored key is a DUPLICATE ID and changes
      nothing. */
  lemma StoredIdLineIsDuplicate(store: map<string, Patron>, n: nat, raw: string, f: Fields, parseDouble: ParseDouble)
    requires ParseFields(Trim(raw)) == Some(f) && f.id in store && ValidId(f.id)
    ensures var o := ProcessLine(store, n, raw, parseDouble);
      AtLine(n, DuplicateId(f.id)) in o.messages && o.store == store
  {
    assert Trim(raw) != [];
    assert ProcessLine(store, n, raw, parseDouble) == CheckedLine(store, n, f, parseDouble);
    EachCheckReportsIffItFails(store, n, f, parseDouble);
    NoRejectionsIffAllChecksPass(store, f, parseDouble);
    AdmittedIffAllChecksPass(store, n, f, parseDouble);
  }

  /** Within one import, once line i + 1 has admitted an id, every later
      line j + 1 that parses to fields with that id is reported as
      DUPLICATE ID and leaves the store as it was, whatever was admitted in
      between. */
  lemma LaterRepeatIsDuplicate(store: map<string, Patron>, lines: seq<string>, i: nat, j: nat,
                               id: string, name: string, f: Fields, parseDouble: ParseDouble)
    requires StoreInvariant(store)
    requires i < j < |lines|
    requires AtLine(i + 1, Added(id, name)) in ImportLines(store, lines, parseDouble).messages
    requires ParseFields(Trim(lines[j])) == Some(f) && f.id == id
    ensures var before := ImportLines(store, lines[..j], parseDouble);
      var step := ProcessLine(before.store, j + 1, lines[j], parseDouble);
      && AtLine(j + 1, DuplicateId(id)) in step.messages
      && step.store == before.store
      && AtLine(j + 1, DuplicateId(id)) in ImportLines(store, lines, parseDouble).messages
  {
    var before := ImportLines(store, lines[..j], parseDouble);
    AnnouncedIdStaysStored(store, lines, i, j, id, name, parseDouble);
    StoredIdLineIsDuplicate(before.store, j + 1, lines[j], f, parseDouble);
    StepMessageReachesImport(store, lines, j, AtLine(j + 1, DuplicateId(id)), parseDouble);
  }

  /** A message of line j + 1, processed against what lines 1 to j left,
      is among the messages of the whole import. */
  lemma StepMessageReachesImport(store: map<string, Patron>, lines: seq<string>, j: nat, m: Message, parseDouble: ParseDouble)
    requires j < |lines|
    requires m in ProcessLine(ImportLines(store, lines[..j], parseDouble).store, j + 1, lines[j], parseDouble).messages
    ensures m in ImportLines(store, lines, parseDouble).messages
  {
    ImportLinesStep(store, lines, j, parseDouble);
    PrefixOfImport(store, lines, j + 1, parseDouble);
    var whole := ImportLines(store, lines, parseDouble);
    var through := ImportLines(store, lines[..j + 1], parseDouble);
    assert m in through.messages;
    assert whole.messages[..|through.messages|] == through.messages;
  }

  /** Removing the id of a patron that was just admitted gives back the
      store as it was before the line. */
  lemma RemoveUndoesAdmission(store: map<string, Patron>, n: nat, f: Fields, parseDouble: ParseDouble)
    requires AllChecksPass(store, f, parseDouble)
    ensures CheckedLine(store, n, f, parseDouble).store - {f.id} == store
  {
    AdmittedIffAllChecksPass(store, n, f, parseDouble);
  }

  /** The file-level errors: a missing file yields its one message and
      leaves the store alone; otherwise every message but the last is about
      a line, and a read failure is reported last. The store keeps its
      invariant and its entries either way. */
  lemma ImportFileErrorsComeLast(store: map<string, Patron>, path: string, source: Source, parseDouble: ParseDouble)
    requires StoreInvariant(store)
    ensures var o := ImportFile(store, path, source, parseDouble);
      && StoreInvariant(o.store)
      && (forall k :: k in store ==> k in o.store && o.store[k] == store[k])
      && (source.Missing? ==> o == Outcome(store, [FileNotFound(path)]))
      && (source.Readable? ==> forall i :: 0 <= i < |o.messages| - 1 ==> o.messages[i].AtLine?)
      && (source.Readable? && source.readFailure.Some? ==>
            o.messages != [] && o.messages[|o.messages| - 1] == ReadError(source.readFailure.value))
      && (source.Readable? && source.readFailure.None? ==> forall m :: m in o.messages ==> m.AtLine?)
  {
    if source.Readable? {
      ImportPreservesStore(store, source.lines, parseDouble);
      ImportNumbersPhysicalLines(store, source.lines, parseDouble);
      var lo := ImportLines(store, source.lines, parseDouble);
      assert forall i :: 0 <= i < |lo.messages| ==> lo.messages[i] in lo.messages;
    }
  }
}
