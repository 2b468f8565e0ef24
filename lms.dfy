/** LMS.java: the patron store and the operations that change it. */
module Lms {
  import opened JavaStrings
  import opened PatronRecord
  import opened Validators
  import opened ImportLog
  import opened Importer

  class LMS {
    /** The HashMap from id to patron. */
    var patrons: map<string, Patron>

    ghost predicate Valid()
      reads this
    {
      StoreInvariant(patrons)
    }

    constructor ()
      ensures Valid() && patrons == map[]
    {
      patrons := map[];
    }

    /** addPatronFile: reads the file line by line, checks each line and
        admits the patrons that pass, returning the message list. */
    method AddPatronFile(filename: string, source: Source, parseDouble: ParseDouble) returns (messages: seq<Message>)
      requires Valid()
      modifies this
      ensures Valid()
      ensures Outcome(patrons, messages) == ImportFile(old(patrons), filename, source, parseDouble)
    {
      messages := [];
      if source.Missing? {
        messages := messages + [FileNotFound(filename)];
        return;
      }
      var lines := source.lines;
      var i := 0;
      var lineNo := 0;
      while i < |lines|
        invariant 0 <= i <= |lines| && lineNo == i
        invariant Outcome(patrons, messages) == ImportLines(old(patrons), lines[..i], parseDouble)
      {
        var line := lines[i];
        ImportLinesStep(old(patrons), lines, i, parseDouble);
        i := i + 1;
        lineNo := lineNo + 1;
        var found := ImportLine(lineNo, line, parseDouble);
        messages := messages + found;
      }
      assert lines[..i] == lines;
      if source.readFailure.Some? {
        messages := messages + [ReadError(source.readFailure.value)];
      }
      ImportPreservesStore(old(patrons), lines, parseDouble);
    }

    /** The body of the read loop for the line numbered lineNo: trim it,
        skip it if blank, split it into four fields, check them, and admit
        the patron if every check passed. Returns the line's messages. */
    method ImportLine(lineNo: nat, raw: string, parseDouble: ParseDouble) returns (found: seq<Message>)
      modifies this
      ensures Outcome(patrons, found) == ProcessLine(old(patrons), lineNo, raw, parseDouble)
    {
      ProcessLineCases(patrons, lineNo, raw, parseDouble);
      var line := Trim(raw);
      if line == [] {
        return [];
      }

      var parts := SplitLimit(line, '-', 4);
      if |parts| != 4 {
        return [AtLine(lineNo, InvalidFormat(line))];
      }

      var id := Trim(parts[0]);
      var name := Trim(parts[1]);
      var address := Trim(parts[2]);
      var fineStr := Trim(parts[3]);

      var validLine, fine;
      found, validLine, fine := CheckFields(lineNo, id, name, address, fineStr, parseDouble);
      CheckedLineFromFindings(patrons, lineNo, Fields(id, name, address, fineStr), parseDouble, found, fine);
      if validLine {
        patrons := patrons[id := Patron(id, name, address, fine)];
        found := found + [AtLine(lineNo, Added(id, name))];
      }
    }

    /** The four checks of one well-formed line (numbered lineNo), each run
        whatever the others found; `found` lists the findings in the order
        id, name, address, fine, and the line is valid when there are none.
        The store is only read here. */
    method CheckFields(lineNo: nat, id: string, name: string, address: string, fineStr: string, parseDouble: ParseDouble)
      returns (found: seq<Message>, validLine: bool, fine: real)
      ensures found == Numbered(lineNo, Rejections(patrons, Fields(id, name, address, fineStr), parseDouble))
      ensures validLine <==> found == []
      ensures validLine ==> parseDouble(fineStr) == Some(fine)
    {
      found := [];
      ghost var notes: seq<Note> := [];
      validLine := true;

      if !ValidId(id) {
        NumberedSnoc(lineNo, notes, InvalidId(id));
        notes := notes + [InvalidId(id)];
        found := found + [AtLine(lineNo, InvalidId(id))];
        validLine := false;
      } else if id in patrons {
        NumberedSnoc(lineNo, notes, DuplicateId(id));
        notes := notes + [DuplicateId(id)];
        found := found + [AtLine(lineNo, DuplicateId(id))];
        validLine := false;
      }
      assert notes == IdNotes(patrons, id);
      assert found == Numbered(lineNo, notes) && validLine == (notes == []);

      if !ValidName(name) {
        NumberedSnoc(lineNo, notes, InvalidName(name));
        notes := notes + [InvalidName(name)];
        found := found + [AtLine(lineNo, InvalidName(name))];
        validLine := false;
      }
      assert notes == IdNotes(patrons, id) + NameNotes(name);
      assert found == Numbered(lineNo, notes) && validLine == (notes == []);

      if !ValidAddress(address) {
        NumberedSnoc(lineNo, notes, InvalidAddress(address));
        notes := notes + [InvalidAddress(address)];
        found := found + [AtLine(lineNo, InvalidAddress(address))];
        validLine := false;
      }
      assert notes == IdNotes(patrons, id) + NameNotes(name) + AddressNotes(address);
      assert found == Numbered(lineNo, notes) && validLine == (notes == []);

      fine := 0.0;
      match parseDouble(fineStr) {
        case Some(parsed) =>
          fine := parsed;
          if fine < 0.0 || fine > MaxFine {
            NumberedSnoc(lineNo, notes, FineOutOfRange(fineStr));
            notes := notes + [FineOutOfRange(fineStr)];
            found := found + [AtLine(lineNo, FineOutOfRange(fineStr))];
            validLine := false;
          }
        case None =>
          NumberedSnoc(lineNo, notes, InvalidFine(fineStr));
          notes := notes + [InvalidFine(fineStr)];
          found := found + [AtLine(lineNo, InvalidFine(fineStr))];
          validLine := false;
      }
      assert notes == Rejections(patrons, Fields(id, name, address, fineStr), parseDouble);
      assert found == Numbered(lineNo, notes) && validLine == (notes == []);
    }

    /** The final insertion of addPatronManually. Its four prompt loops
        (not modelled) exit only with a trimmed, well-formed id that is not
        yet a key, a trimmed non-blank name and address, and a fine that
        parsed and lies in range; those exit conditions are the requires. */
    method AddPatronManually(id: string, name: string, address: string, fine: real)
      requires Valid()
      requires ValidId(id) && id !in patrons
      requires ValidName(name) && Trim(name) == name
      requires ValidAddress(address) && Trim(address) == address
      requires FineInRange(fine)
      modifies this
      ensures Valid()
      ensures patrons == old(patrons)[id := Patron(id, name, address, fine)]
      ensures forall k :: k in old(patrons) ==> k in patrons && patrons[k] == old(patrons)[k]
    {
      patrons := patrons[id := Patron(id, name, address, fine)];
      assert ValidEntry(id, patrons[id]);
      forall k | k in patrons ensures ValidEntry(k, patrons[k]) {
        if k != id {
          assert patrons[k] == old(patrons)[k];
        }
      }
    }

    /** removePatron: drops the entry for id if there is one and reports
        whether there was. */
    method RemovePatron(id: string) returns (removed: bool)
      requires Valid()
      modifies this
      ensures Valid()
      ensures removed <==> id in old(patrons)
      ensures patrons == old(patrons) - {id}
      ensures forall k :: k != id ==> (k in patrons <==> k in old(patrons))
      ensures forall k :: k in patrons ==> patrons[k] == old(patrons)[k]
    {
      removed := id in patrons;
      patrons := patrons - {id};
    }
  }
}
