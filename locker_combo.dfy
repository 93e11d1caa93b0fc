/**
 * The locker combination of the fulfilment screen (`handleLockerCombo` in
 * PostCheckout.js): five random digits, each turned into its decimal text and
 * appended to a string in draw order. The random source is an input here: the
 * sequence of digits it produced.
 */
module LockerCombo {
  import opened Decimal

  /** The number of digits the builder draws. */
  const ComboLength: nat := 5

  /** A valid sequence of draws: digits 0..9. */
  predicate AreDigitDraws(draws: seq<nat>) {
    forall i :: 0 <= i < |draws| ==> draws[i] < 10
  }

  /** A well-formed combination: exactly five digit characters. */
  predicate IsCombo(s: string) {
    |s| == ComboLength && AllDigits(s)
  }

  /**
   * The text built from `draws`: each draw's decimal text, concatenated in
   * order. Each draw contributes exactly one character, its own digit, at its
   * own position; in particular a draw of 0 yields '0', so leading zeros stay.
   */
  function ComboOf(draws: seq<nat>): (s: string)
    requires AreDigitDraws(draws)
    ensures |s| == |draws|
    ensures forall i :: 0 <= i < |draws| ==> s[i] == DigitChar(draws[i])
  {
    if draws == [] then "" else ComboOf(draws[..|draws| - 1]) + NatToString(draws[|draws| - 1])
  }

  /** The draws spelled by a string of digits. */
  function DigitsOf(s: string): (ds: seq<nat>)
    requires AllDigits(s)
    ensures |ds| == |s| && AreDigitDraws(ds)
    ensures forall i :: 0 <= i < |s| ==> DigitChar(ds[i]) == s[i]
  {
    seq(|s|, i requires 0 <= i < |s| => DigitValue(s[i]))
  }

  /** Decoding the combination gives back the draws, so distinct draws give distinct combinations. */
  lemma ComboRoundTrip(draws: seq<nat>)
    requires AreDigitDraws(draws)
    ensures AllDigits(ComboOf(draws)) && DigitsOf(ComboOf(draws)) == draws
  {
    var s := ComboOf(draws);
    forall i | 0 <= i < |s| ensures IsDigit(s[i]) {
      assert s[i] == DigitChar(draws[i]);
    }
    assert forall i :: 0 <= i < |draws| ==> DigitsOf(s)[i] == DigitValue(DigitChar(draws[i]));
  }

  /**
   * The builder loop: five passes, each appending the text of one draw to
   * `combo`. The result is a five-digit combination, digit i is draw i, and it
   * is exactly the specification `ComboOf`.
   */
  method BuildCombo(draws: seq<nat>) returns (combo: string)
    requires |draws| == ComboLength && AreDigitDraws(draws)
    ensures IsCombo(combo)
    ensures forall i :: 0 <= i < ComboLength ==> combo[i] == DigitChar(draws[i])
    ensures combo == ComboOf(draws)
  {
    combo := "";
    for i := 0 to ComboLength
      invariant |combo| == i && AllDigits(combo)
      invariant forall j :: 0 <= j < i ==> combo[j] == DigitChar(draws[j])
      invariant combo == ComboOf(draws[..i])
    {
      assert draws[..i + 1][..i] == draws[..i];
      combo := combo + NatToString(draws[i]);
    }
    assert draws[..ComboLength] == draws;
  }
}
