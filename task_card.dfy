/**
 * The rules of components/TaskCard.tsx: the score a card shows and the
 * colour band that score falls in.
 */
module TaskCard {
  import opened TaskLogic

  /** `totalScore`: the card shows `calculateScore(emotion, reality, mode)`. */
  function CardScore(emotion: int, reality: int, mode: Mode): (score: int)
    ensures 0 <= emotion <= 100 && 0 <= reality <= 100 ==> 0 <= score <= 100
    ensures emotion == reality ==> score == emotion
  {
    ScoreBetweenInputs(emotion, reality, mode);
    EqualInputsScore(emotion, mode);
    CalculateScore(emotion, reality, mode)
  }

  /** `getScoreColor(score)`: red from 70, amber from 40, green below. */
  function ScoreColor(score: int): (color: string)
    ensures color == Red <==> score >= 70
    ensures color == Amber <==> 40 <= score < 70
    ensures color == Green <==> score < 40
  {
    if score >= 70 then Red
    else if score >= 40 then Amber
    else Green
  }

  /** How pressing a colour is: green 0, amber 1, red 2. */
  function Urgency(color: string): nat {
    if color == Red then 2 else if color == Amber then 1 else 0
  }

  /** A higher score never gets a less pressing colour. */
  lemma ColorMonotone(s1: int, s2: int)
    requires s1 <= s2
    ensures Urgency(ScoreColor(s1)) <= Urgency(ScoreColor(s2))
  {
  }
}
