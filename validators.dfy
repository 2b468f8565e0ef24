/** The three field validators of LMS (validateID, validateName,
    validateAddress), the fine range, and the invariant every entry of the
    patron store satisfies. */
module Validators {
  import opened JavaStrings
  import opened PatronRecord

  const IdLength: nat := 7
  const MaxFine: real := 250.0

  /** `s.matches("\\d{n}")`: the whole of s is n matches of `\d`, which,
      without UNICODE_CHARACTER_CLASS, is the class [0-9]. */
  predicate MatchesDigitRun(s: string, n: nat) {
    if n == 0 then s == [] else s != [] && IsAsciiDigit(s[0]) && MatchesDigitRun(s[1..], n - 1)
  }

  lemma {:induction false} DigitRunIff(s: string, n: nat)
    ensures MatchesDigitRun(s, n) <==> |s| == n && forall k :: 0 <= k < |s| ==> IsAsciiDigit(s[k])
  {
    if n > 0 && s != [] {
      DigitRunIff(s[1..], n - 1);
      assert forall k :: 1 <= k < |s| ==> s[k] == s[1..][k - 1];
    }
  }

  /** validateID: the id is exactly seven decimal digits. */
  predicate ValidId(id: string) {
    MatchesDigitRun(id, IdLength)
  }

  lemma ValidIdIffSevenAsciiDigits(id: string)
    ensures ValidId(id) <==> |id| == 7 && forall k :: 0 <= k < |id| ==> '0' <= id[k] <= '9'
  {
    DigitRunIff(id, IdLength);
  }

  /** validateName: not blank once trimmed. */
  predicate ValidName(name: string) {
    Trim(name) != []
  }

  /** validateAddress: not blank once trimmed. */
  predicate ValidAddress(address: string) {
    Trim(address) != []
  }

  /** The fine test of both entry paths: `fine < 0 || fine > 250` rejects. */
  predicate FineInRange(fine: real) {
    0.0 <= fine <= MaxFine
  }

  /** What the store holds under key `key`: a patron whose fields all passed
      their checks, filed under its own id. Both entry paths trim the text
      fields before storing them. */
  predicate ValidEntry(key: string, p: Patron) {
    && ValidId(key)
    && p.id == key
    && ValidName(p.name) && Trim(p.name) == p.name
    && ValidAddress(p.address) && Trim(p.address) == p.address
    && FineInRange(p.fine)
  }

  predicate StoreInvariant(patrons: map<string, Patron>) {
    forall key :: key in patrons ==> ValidEntry(key, patrons[key])
  }
}
