/** The line format written out, and a worked five-line import traced
    through the model line by line:
      1234567-Alice-123 Main St-10.50
      bad-line-only-three
      1234567-Bob-456 Oak St-5.00
      12345-Carl-789 Pine St-5.00
      7654321-Dana-111 Elm St-999
    Into an empty store this admits Alice only. Line k is processed against
    the store lines 1 to k - 1 left behind, as ImportLines does. */
module ImportExample {
  import opened JavaStrings
  import opened PatronRecord
  import opened Validators
  import opened ImportLog
  import opened Importer

  /** A field with no blank or control char at either end, so trim keeps it. */
  predicate Tight(s: string) {
    s != [] && !IsTrimmable(s[0]) && !IsTrimmable(s[|s| - 1])
  }

  lemma SplitAtFirst(a: string, sep: char, b: string, limit: nat)
    requires limit >= 2 && sep !in a
    ensures SplitLimit(a + [sep] + b, sep, limit) == [a] + SplitLimit(b, sep, limit - 1)
  {
    var s := a + [sep] + b;
    assert s[|a|] == sep;
    assert s[..|a|] == a;
    assert s[|a| + 1..] == b;
  }

  /** The import file's line format: the four fields joined by `-`. */
  function LineOf(a: string, b: string, c: string, d: string): string {
    a + "-" + b + "-" + c + "-" + d
  }

  /** The split of a line written as LineOf gives back its four fields,
      each trimmed, when the first three hold no `-`. */
  lemma SplitFields(a: string, b: string, c: string, d: string)
    requires '-' !in a && '-' !in b && '-' !in c
    ensures ParseFields(LineOf(a, b, c, d)) == Some(Fields(Trim(a), Trim(b), Trim(c), Trim(d)))
  {
    assert LineOf(a, b, c, d) == a + ['-'] + (b + ['-'] + (c + ['-'] + d));
    SplitAtFirst(a, '-', b + ['-'] + (c + ['-'] + d), 4);
    SplitAtFirst(b, '-', c + ['-'] + d, 3);
    SplitAtFirst(c, '-', d, 2);
  }

  /** Cutting blanks off the front of the first field and off the back of
      the last keeps their trims, and no `-` appears in what is left. */
  lemma TrimmedEnds(a: string, d: string, i: nat, k: nat)
    requires i <= |a| && k <= |d| && AllTrimmable(a[..i]) && AllTrimmable(d[k..])
    requires '-' !in a
    ensures '-' !in a[i..] && Trim(a[i..]) == Trim(a) && Trim(d[..k]) == Trim(d)
  {
    assert a[..i] + a[i..] == a;
    TrimDropPrefix(a[..i], a[i..]);
    assert d[..k] + d[k..] == d;
    TrimDropSuffix(d[..k], d[k..]);
    assert forall t :: 0 <= t < |a| - i ==> a[i..][t] == a[i + t];
  }

  /** Trimming a line written as LineOf only trims the outer ends of its
      first and last fields. */
  lemma LineAroundSeparators(a: string, b: string, c: string, d: string)
    ensures LineOf(a, b, c, d) == a + (['-'] + b + ['-'] + c + ['-']) + d
  {
  }

  lemma TrimmedLineShape(a: string, b: string, c: string, d: string) returns (a': string, d': string)
    requires '-' !in a
    ensures '-' !in a' && Trim(a') == Trim(a) && Trim(d') == Trim(d)
    ensures Trim(LineOf(a, b, c, d)) == LineOf(a', b, c, d')
  {
    var m := ['-'] + b + ['-'] + c + ['-'];
    LineAroundSeparators(a, b, c, d);
    var i, k := TrimAroundTight(a, m, d);
    a', d' := a[i..], d[..k];
    TrimmedEnds(a, d, i, k);
    LineAroundSeparators(a', b, c, d');
  }

  /** The import reads back the trimmed fields of any line written as
      LineOf, whatever blanks surround the fields and even when some are
      empty, as long as the first three hold no `-`. */
  lemma ParseFieldsOfPaddedLine(a: string, b: string, c: string, d: string)
    requires '-' !in a && '-' !in b && '-' !in c
    ensures ParseFields(Trim(LineOf(a, b, c, d))) == Some(Fields(Trim(a), Trim(b), Trim(c), Trim(d)))
  {
    var a', d' := TrimmedLineShape(a, b, c, d);
    SplitFields(a', b, c, d');
  }

  /** With tight fields the line is already trimmed, and parsing gives the
      fields back unchanged. */
  lemma ParseFieldsOfLineOf(a: string, b: string, c: string, d: string)
    requires Tight(a) && Tight(b) && Tight(c) && Tight(d)
    requires '-' !in a && '-' !in b && '-' !in c
    ensures Trim(LineOf(a, b, c, d)) == LineOf(a, b, c, d)
    ensures ParseFields(LineOf(a, b, c, d)) == Some(Fields(a, b, c, d))
  {
    TrimOfTrimmed(LineOf(a, b, c, d));
    SplitFields(a, b, c, d);
    TrimOfTrimmed(a);
    TrimOfTrimmed(b);
    TrimOfTrimmed(c);
    TrimOfTrimmed(d);
  }

  /** Such a line is therefore checked field by field. */
  lemma WellFormedLine(store: map<string, Patron>, n: nat, a: string, b: string, c: string, d: string,
                       parseDouble: ParseDouble)
    requires Tight(a) && Tight(b) && Tight(c) && Tight(d)
    requires '-' !in a && '-' !in b && '-' !in c
    ensures ProcessLine(store, n, LineOf(a, b, c, d), parseDouble)
         == CheckedLine(store, n, Fields(a, b, c, d), parseDouble)
  {
    ParseFieldsOfLineOf(a, b, c, d);
  }

  const L1 := LineOf("1234567", "Alice", "123 Main St", "10.50")
  const L2 := LineOf("bad", "line", "only", "three")
  const L3 := LineOf("1234567", "Bob", "456 Oak St", "5.00")
  const L4 := LineOf("12345", "Carl", "789 Pine St", "5.00")
  const L5 := LineOf("7654321", "Dana", "111 Elm St", "999")

  lemma TightName(s: string)
    requires Tight(s)
    ensures ValidName(s) && ValidAddress(s)
  {
    assert !IsTrimmable(s[0]);
  }

  const Alice := Patron("1234567", "Alice", "123 Main St", 10.5)

  lemma Checked1(parseDouble: ParseDouble)
    requires parseDouble("10.50") == Some(10.5)
    ensures CheckedLine(map[], 1, Fields("1234567", "Alice", "123 Main St", "10.50"), parseDouble)
         == Outcome(map["1234567" := Alice], [AtLine(1, Added("1234567", "Alice"))])
  {
    assert ValidId("1234567") by { ValidIdIffSevenAsciiDigits("1234567"); }
    TightName("Alice");
    TightName("123 Main St");
  }

  /** A first line with valid fields is admitted with its parsed fine. */
  lemma Line1(parseDouble: ParseDouble)
    requires parseDouble("10.50") == Some(10.5)
    ensures ProcessLine(map[], 1, L1, parseDouble)
         == Outcome(map["1234567" := Alice], [AtLine(1, Added("1234567", "Alice"))])
  {
    WellFormedLine(map[], 1, "1234567", "Alice", "123 Main St", "10.50", parseDouble);
    Checked1(parseDouble);
  }

  lemma Checked2(parseDouble: ParseDouble)
    requires parseDouble("three") == None
    ensures CheckedLine(map["1234567" := Alice], 2, Fields("bad", "line", "only", "three"), parseDouble)
         == Outcome(map["1234567" := Alice], [AtLine(2, InvalidId("bad")), AtLine(2, InvalidFine("three"))])
  {
    assert !ValidId("bad") by { ValidIdIffSevenAsciiDigits("bad"); }
    TightName("line");
    TightName("only");
  }

  /** Three `-` make four fields, so `bad-line-only-three` is well-formed:
      it is rejected for its id and its fine, both reported, not for its
      format. */
  lemma Line2(parseDouble: ParseDouble)
    requires parseDouble("three") == None
    ensures ProcessLine(map["1234567" := Alice], 2, L2, parseDouble)
         == Outcome(map["1234567" := Alice], [AtLine(2, InvalidId("bad")), AtLine(2, InvalidFine("three"))])
  {
    WellFormedLine(map["1234567" := Alice], 2, "bad", "line", "only", "three", parseDouble);
    Checked2(parseDouble);
  }

  lemma Checked3(parseDouble: ParseDouble)
    requires parseDouble("5.00") == Some(5.0)
    ensures CheckedLine(map["1234567" := Alice], 3, Fields("1234567", "Bob", "456 Oak St", "5.00"), parseDouble)
         == Outcome(map["1234567" := Alice], [AtLine(3, DuplicateId("1234567"))])
  {
    assert ValidId("1234567") by { ValidIdIffSevenAsciiDigits("1234567"); }
    TightName("Bob");
    TightName("456 Oak St");
  }

  /** A second line for a stored id is a duplicate, whatever else it holds. */
  lemma Line3(parseDouble: ParseDouble)
    requires parseDouble("5.00") == Some(5.0)
    ensures ProcessLine(map["1234567" := Alice], 3, L3, parseDouble)
         == Outcome(map["1234567" := Alice], [AtLine(3, DuplicateId("1234567"))])
  {
    WellFormedLine(map["1234567" := Alice], 3, "1234567", "Bob", "456 Oak St", "5.00", parseDouble);
    Checked3(parseDouble);
  }

  lemma Checked4(parseDouble: ParseDouble)
    requires parseDouble("5.00") == Some(5.0)
    ensures CheckedLine(map["1234567" := Alice], 4, Fields("12345", "Carl", "789 Pine St", "5.00"), parseDouble)
         == Outcome(map["1234567" := Alice], [AtLine(4, InvalidId("12345"))])
  {
    assert !ValidId("12345") by { ValidIdIffSevenAsciiDigits("12345"); }
    TightName("Carl");
    TightName("789 Pine St");
  }

  /** A five-digit id is invalid; the other fields pass. */
  lemma Line4(parseDouble: ParseDouble)
    requires parseDouble("5.00") == Some(5.0)
    ensures ProcessLine(map["1234567" := Alice], 4, L4, parseDouble)
         == Outcome(map["1234567" := Alice], [AtLine(4, InvalidId("12345"))])
  {
    WellFormedLine(map["1234567" := Alice], 4, "12345", "Carl", "789 Pine St", "5.00", parseDouble);
    Checked4(parseDouble);
  }

  lemma Checked5(parseDouble: ParseDouble)
    requires parseDouble("999") == Some(999.0)
    ensures CheckedLine(map["1234567" := Alice], 5, Fields("7654321", "Dana", "111 Elm St", "999"), parseDouble)
         == Outcome(map["1234567" := Alice], [AtLine(5, FineOutOfRange("999"))])
  {
    assert ValidId("7654321") by { ValidIdIffSevenAsciiDigits("7654321"); }
    TightName("Dana");
    TightName("111 Elm St");
  }

  /** A fine above 250 parses but is out of range. */
  lemma Line5(parseDouble: ParseDouble)
    requires parseDouble("999") == Some(999.0)
    ensures ProcessLine(map["1234567" := Alice], 5, L5, parseDouble)
         == Outcome(map["1234567" := Alice], [AtLine(5, FineOutOfRange("999"))])
  {
    WellFormedLine(map["1234567" := Alice], 5, "7654321", "Dana", "111 Elm St", "999", parseDouble);
    Checked5(parseDouble);
  }
}
