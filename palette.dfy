/**
 * The chip colours the pages pick for scores and difficulties. The same
 * `getScoreColor` is repeated in several components and pages; it is
 * defined once here.
 */
module Palette {
  import Text

  /** The MUI colour names the pages return. */
  datatype Color = Default | Success | Warning | Error

  /** How good a colour reads: error below warning below success. */
  function Rank(c: Color): nat {
    match c
    case Error => 0
    case Warning => 1
    case Success => 2
    case Default => 0
  }

  /**
   * `getScoreColor(num / den)`: 80 and above is success, 50 and above
   * warning, anything lower error. The score is an exact fraction so that
   * an average such as `totalScore / count` is compared without rounding.
   */
  function RatioColor(num: int, den: int): (c: Color)
    requires den > 0
    ensures c == Success <==> num >= 80 * den
    ensures c == Warning <==> 50 * den <= num < 80 * den
    ensures c == Error <==> num < 50 * den
  {
    if num >= 80 * den then Success
    else if num >= 50 * den then Warning
    else Error
  }

  /** `getScoreColor(score)` on a whole-number score. */
  function ScoreColor(score: int): (c: Color)
    ensures c == Success <==> score >= 80
    ensures c == Warning <==> 50 <= score < 80
    ensures c == Error <==> score < 50
  {
    RatioColor(score, 1)
  }

  /** A higher score never gets a worse colour. */
  lemma RatioColorMonotone(n1: int, n2: int, den: int)
    requires den > 0 && n1 <= n2
    ensures Rank(RatioColor(n1, den)) <= Rank(RatioColor(n2, den))
  {
  }

  /**
   * `getDifficultyColor` in the pages that lower-case first
   * (`difficulty.toLowerCase()` or `difficulty?.toLowerCase()`): easy is
   * success, medium warning, hard error, anything else default.
   */
  function DifficultyColor(difficulty: string): (c: Color)
    ensures c == Success <==> Text.Lower(difficulty) == "easy"
    ensures c == Warning <==> Text.Lower(difficulty) == "medium"
    ensures c == Error <==> Text.Lower(difficulty) == "hard"
  {
    var d := Text.Lower(difficulty);
    if d == "easy" then Success
    else if d == "medium" then Warning
    else if d == "hard" then Error
    else Default
  }

  /** Lower-casing twice is lower-casing once. */
  lemma LowerIdempotent(s: string)
    ensures Text.Lower(Text.Lower(s)) == Text.Lower(s)
  {
  }

  /** The difficulty colour ignores case: "Easy", "EASY" and "easy" get the same colour. */
  lemma DifficultyColorIgnoresCase(difficulty: string)
    ensures DifficultyColor(Text.Lower(difficulty)) == DifficultyColor(difficulty)
  {
    LowerIdempotent(difficulty);
  }
}
