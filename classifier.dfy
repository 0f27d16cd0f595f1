/** The strength classifier of main.js: the 0..100 score, the text label and
    the colour tier of the strength bar. Bits are exact reals here. */
module Classifier {

  /** JavaScript's `Math.round`: the nearest integer, halves rounded up. */
  function Round(x: real): (n: int)
    ensures n as real - 0.5 <= x < n as real + 0.5
  {
    (x + 0.5).Floor
  }

  /** The normalisation ceiling: this many bits or more is a full score. */
  const ScoreCeiling: real := 128.0

  /** The value bitsToScore rounds: `Math.min(100, (bits / 128) * 100)`. */
  function ScaledBits(bits: real): real {
    var scaled := bits / ScoreCeiling * 100.0;
    if scaled < 100.0 then scaled else 100.0
  }

  /** bitsToScore: for non-negative bits a score in 0..100, a full score from
      128 bits on, and always the integer nearest to the capped percentage. */
  function BitsToScore(bits: real): (score: int)
    ensures bits >= 0.0 ==> 0 <= score <= 100
    ensures bits >= ScoreCeiling ==> score == 100
    ensures score as real - 0.5 <= ScaledBits(bits) < score as real + 0.5
  {
    Round(ScaledBits(bits))
  }

  /** More bits never lower the score. */
  lemma ScoreMonotone(b1: real, b2: real)
    requires b1 <= b2
    ensures BitsToScore(b1) <= BitsToScore(b2)
  {
    assert ScaledBits(b1) <= ScaledBits(b2);
  }

  // ---------------------------------------------------------------------
  // Labels (bitsToText)

  const CommonListLabel: string := "Password is on common-password list - very weak."

  /** The labels in increasing strength, and the thresholds between them. */
  const Labels: seq<string> := ["Very weak", "Weak", "Moderate", "Strong", "Very strong"]
  const Thresholds: seq<real> := [28.0, 36.0, 60.0, 90.0]

  /** bitsToText: a password on the common list gets the common-list message
      whatever its bits; otherwise the first threshold the bits fall below
      picks the label. */
  function BitsToText(bits: real, isCommon: bool): (text: string)
    ensures isCommon ==> text == CommonListLabel
    ensures !isCommon ==> text in Labels
  {
    if isCommon then CommonListLabel
    else if bits < 28.0 then "Very weak"
    else if bits < 36.0 then "Weak"
    else if bits < 60.0 then "Moderate"
    else if bits < 90.0 then "Strong"
    else "Very strong"
  }

  /** How many of the thresholds ts are at or below bits. */
  function Reached(ts: seq<real>, bits: real): (n: nat)
    ensures n <= |ts|
  {
    if ts == [] then 0 else (if ts[0] <= bits then 1 else 0) + Reached(ts[1..], bits)
  }

  /** The label is the one whose index is the number of thresholds reached:
      the intervals are half-open and each boundary belongs to the stronger
      label. */
  lemma LabelByThresholds(bits: real)
    ensures BitsToText(bits, false) == Labels[Reached(Thresholds, bits)]
  {
    var r := (x: real) => if x <= bits then 1 else 0;
    assert [90.0][1..] == [];
    assert Reached([90.0], bits) == r(90.0);
    assert [60.0, 90.0][1..] == [90.0];
    assert Reached([60.0, 90.0], bits) == r(60.0) + r(90.0);
    assert [36.0, 60.0, 90.0][1..] == [60.0, 90.0];
    assert Reached([36.0, 60.0, 90.0], bits) == r(36.0) + r(60.0) + r(90.0);
    assert Thresholds[1..] == [36.0, 60.0, 90.0];
  }

  lemma {:induction false} ReachedMonotone(ts: seq<real>, b1: real, b2: real)
    requires b1 <= b2
    ensures Reached(ts, b1) <= Reached(ts, b2)
  {
    if ts != [] {
      ReachedMonotone(ts[1..], b1, b2);
    }
  }

  /** More bits never give a weaker label. */
  lemma LabelMonotone(b1: real, b2: real)
    requires b1 <= b2
    ensures exists i, j | 0 <= i <= j < |Labels| ::
              BitsToText(b1, false) == Labels[i] && BitsToText(b2, false) == Labels[j]
  {
    LabelByThresholds(b1);
    LabelByThresholds(b2);
    ReachedMonotone(Thresholds, b1, b2);
    var i, j := Reached(Thresholds, b1), Reached(Thresholds, b2);
    assert BitsToText(b1, false) == Labels[i] && BitsToText(b2, false) == Labels[j];
  }

  /** The five intervals, each in both directions. */
  lemma LabelIntervals(bits: real)
    ensures BitsToText(bits, false) == "Very weak" <==> bits < 28.0
    ensures BitsToText(bits, false) == "Weak" <==> 28.0 <= bits < 36.0
    ensures BitsToText(bits, false) == "Moderate" <==> 36.0 <= bits < 60.0
    ensures BitsToText(bits, false) == "Strong" <==> 60.0 <= bits < 90.0
    ensures BitsToText(bits, false) == "Very strong" <==> 90.0 <= bits
  {
    assert forall i, j | 0 <= i < j < |Labels| :: Labels[i] != Labels[j];
    assert CommonListLabel !in Labels;
  }

  /** Exactly 90 bits is "Very strong"; anything just below is "Strong". */
  lemma NinetyBitsBoundary(bits: real)
    requires 60.0 <= bits < 90.0
    ensures BitsToText(90.0, false) == "Very strong"
    ensures BitsToText(bits, false) == "Strong"
  {
  }

  // ---------------------------------------------------------------------
  // Colour tiers (pickColor)

  const GoodGradient: string := "linear-gradient(90deg,var(--good),var(--accent))"
  const WarnGradient: string := "linear-gradient(90deg,var(--warn),var(--good))"
  const BadGradient: string := "linear-gradient(90deg,var(--bad),var(--warn))"

  /** pickColor: the good tier above 75, the warning tier above 45 up to 75,
      and the bad tier for 45 and below (each tier excludes its lower
      bound). */
  function PickColor(score: int): (css: string)
    ensures css == GoodGradient <==> score > 75
    ensures css == WarnGradient <==> 45 < score <= 75
    ensures css == BadGradient <==> score <= 45
  {
    assert GoodGradient[28] == 'g' && WarnGradient[28] == 'w' && BadGradient[28] == 'b';
    if score > 75 then GoodGradient
    else if score > 45 then WarnGradient
    else BadGradient
  }

  /** The tier the bar shows, as a function of bits: good from 96.64 bits on
      (a rounded score of 76), warning from 58.24 (a score of 46), bad below. */
  lemma ColorOfBits(bits: real)
    ensures PickColor(BitsToScore(bits)) == GoodGradient <==> bits >= 96.64
    ensures PickColor(BitsToScore(bits)) == WarnGradient <==> 58.24 <= bits < 96.64
    ensures PickColor(BitsToScore(bits)) == BadGradient <==> bits < 58.24
  {
    var score := BitsToScore(bits);
    var x := ScaledBits(bits);
    assert score > 75 <==> x >= 75.5;
    assert score > 45 <==> x >= 45.5;
  }

  /** Label and tier use separate ladders: exactly 90 bits reads "Very
      strong" on a warning-coloured bar. */
  lemma VeryStrongOnWarningBar()
    ensures BitsToText(90.0, false) == "Very strong"
    ensures PickColor(BitsToScore(90.0)) == WarnGradient
  {
    ColorOfBits(90.0);
  }
}
