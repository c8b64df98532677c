/**
 * The score calculator and the deadline classifier of lib/taskLogic.ts.
 *
 * The score is `Math.round(emotion * eWeight + reality * rWeight)` with the
 * weight pair chosen by the mode. The weights are kept exactly, in tenths,
 * so the weighted sum is `WeightedTenths / 10` and `Math.round`, which
 * rounds halves up, becomes `floor((WeightedTenths + 5) / 10)`.
 */
module TaskLogic {
  import opened Wrappers
  import opened JsString

  datatype Mode = Balance | Emotion | Reality

  /** The (emotion, reality) weights of a mode, in tenths. */
  function WeightTenths(mode: Mode): (w: (nat, nat))
    ensures w.0 + w.1 == 10
    ensures mode == Balance ==> w.0 == w.1
    ensures mode == Emotion ==> w.0 > w.1
    ensures mode == Reality ==> w.0 < w.1
  {
    match mode
    case Balance => (5, 5)
    case Emotion => (8, 2)
    case Reality => (2, 8)
  }

  /** Ten times the weighted sum `emotion * eWeight + reality * rWeight`. */
  function WeightedTenths(emotion: int, reality: int, mode: Mode): int {
    WeightTenths(mode).0 * emotion + WeightTenths(mode).1 * reality
  }

  /** `calculateScore(emotion, reality, mode)`. */
  function CalculateScore(emotion: int, reality: int, mode: Mode): (score: int)
    ensures 10 * score <= WeightedTenths(emotion, reality, mode) + 5 < 10 * score + 10
  {
    (WeightedTenths(emotion, reality, mode) + 5) / 10
  }

  /** `Math.round` on an exact real: the nearest integer, halves rounded up. */
  function MathRound(x: real): (n: int)
    ensures n as real <= x + 0.5 < n as real + 1.0
  {
    (x + 0.5).Floor
  }

  /** The weights as the source writes them: 0.5, 0.8 or 0.2. */
  function Weights(mode: Mode): (real, real) {
    (WeightTenths(mode).0 as real / 10.0, WeightTenths(mode).1 as real / 10.0)
  }

  /** The integer formula is `Math.round` of the real weighted sum. */
  lemma ScoreIsMathRound(emotion: int, reality: int, mode: Mode)
    ensures CalculateScore(emotion, reality, mode)
         == MathRound(Weights(mode).0 * emotion as real + Weights(mode).1 * reality as real)
  {
    var t := WeightedTenths(emotion, reality, mode);
    var x := Weights(mode).0 * emotion as real + Weights(mode).1 * reality as real;
    assert x == t as real / 10.0;
    var n := CalculateScore(emotion, reality, mode);
    assert n as real <= x + 0.5 < n as real + 1.0;
  }

  /** Equal inputs score that value in every mode. */
  lemma EqualInputsScore(x: int, mode: Mode)
    ensures CalculateScore(x, x, mode) == x
  {
    assert WeightedTenths(x, x, mode) == 10 * x;
  }

  /** The score lies between the two inputs. */
  lemma ScoreBetweenInputs(emotion: int, reality: int, mode: Mode)
    ensures var lo := if emotion <= reality then emotion else reality;
            var hi := if emotion <= reality then reality else emotion;
            lo <= CalculateScore(emotion, reality, mode) <= hi
  {
    var w := WeightTenths(mode);
    var lo := if emotion <= reality then emotion else reality;
    var hi := if emotion <= reality then reality else emotion;
    assert w.0 * emotion >= w.0 * lo && w.1 * reality >= w.1 * lo;
    assert w.0 * emotion <= w.0 * hi && w.1 * reality <= w.1 * hi;
    assert 10 * lo <= WeightedTenths(emotion, reality, mode) <= 10 * hi;
  }

  /** Inputs in [0, 100] give a score in [0, 100]. */
  lemma ScoreIsPercentage(emotion: int, reality: int, mode: Mode)
    requires 0 <= emotion <= 100 && 0 <= reality <= 100
    ensures 0 <= CalculateScore(emotion, reality, mode) <= 100
  {
    ScoreBetweenInputs(emotion, reality, mode);
  }

  /** Raising either input never lowers the score. */
  lemma ScoreMonotone(e1: int, r1: int, e2: int, r2: int, mode: Mode)
    requires e1 <= e2 && r1 <= r2
    ensures CalculateScore(e1, r1, mode) <= CalculateScore(e2, r2, mode)
  {
    var w := WeightTenths(mode);
    assert w.0 * e1 <= w.0 * e2 && w.1 * r1 <= w.1 * r2;
  }

  /** The emotion mode is the reality mode with the two inputs swapped. */
  lemma EmotionMirrorsReality(emotion: int, reality: int)
    ensures CalculateScore(emotion, reality, Emotion) == CalculateScore(reality, emotion, Reality)
  {
  }

  /** A day difference: `Math.ceil` of a millisecond difference, or NaN for an unparseable date. */
  datatype DayDiff = Days(n: int) | NotANumber

  datatype DeadlineStatus = DeadlineStatus(labelText: string, color: string, isUrgent: bool)

  const Red := "#ff4d4f"
  const Amber := "#faad14"
  const Green := "#52c41a"
  const Grey := "#888"

  /** The countdown label `あと${diffDays}日`. */
  function DaysLeftLabel(n: nat): (text: string)
    ensures |text| >= 4 && text[..2] == "あと" && text[|text| - 1] == '日'
    ensures AllDigits(text[2..|text| - 1]) && DecimalValue(text[2..|text| - 1]) == n
    ensures |text| > 4 ==> text[2] != '0'
  {
    var digits := NatToString(n);
    DecimalRoundTrip(n);
    assert ("あと" + digits + "日")[2..|digits| + 2] == digits;
    "あと" + digits + "日"
  }

  /** `getDeadlineStatus(deadline)`, given the day difference the clock yields. */
  function GetDeadlineStatus(deadline: Option<string>, diff: DayDiff): (st: DeadlineStatus)
    ensures st.isUrgent <==> Truthy(deadline) && diff.Days? && diff.n <= 3
    ensures st.color == Red <==> Truthy(deadline) && diff.Days? && diff.n <= 0
    ensures !Truthy(deadline) <==> st == DeadlineStatus("", Grey, false)
    ensures Truthy(deadline) && diff.Days? && diff.n < 0 ==> st.labelText == "期限切れ"
    ensures Truthy(deadline) && diff.Days? && diff.n == 0 ==> st.labelText == "今日まで"
    ensures Truthy(deadline) && diff.Days? && diff.n >= 1 ==> st.labelText == DaysLeftLabel(diff.n)
    ensures st.color == Amber <==> Truthy(deadline) && diff.Days? && 1 <= diff.n <= 3
    ensures st.color == Green <==> Truthy(deadline) && (diff.NotANumber? || diff.n > 3)
    ensures Truthy(deadline) && diff.NotANumber? ==> st.labelText == "あとNaN日"
  {
    if !Truthy(deadline) then DeadlineStatus("", Grey, false)
    else match diff
      case NotANumber => DeadlineStatus("あとNaN日", Green, false)
      case Days(n) =>
        if n < 0 then DeadlineStatus("期限切れ", Red, true)
        else if n == 0 then DeadlineStatus("今日まで", Red, true)
        else if n <= 3 then DeadlineStatus(DaysLeftLabel(n), Amber, true)
        else DeadlineStatus(DaysLeftLabel(n), Green, false)
  }
}
