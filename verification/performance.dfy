/** The score classifiers of the performance section of the system overview
  * (src/components/Pages/SystemOverview/Sections/PerformanceSection.tsx).
  * A score is `number | null | undefined`; `None` stands for the two absent
  * values, and JavaScript's "falsy number" is `None` or zero (NaN is not
  * modelled). `toFixed(1)` is not modelled: a formatted score is kept as the
  * number it formats. */
module Performance {
  import opened Wrappers

  const GrayText: string := "text-gray-500"
  const BlueText: string := "text-progress-blue"
  const GrayBar: string := "bg-gray-500"
  const BlueBar: string := "bg-progress-blue"

  const RocketIcon: string := "\U{1F680}"
  const LightningIcon: string := "\U{26A1}"
  const ChartIcon: string := "\U{1F4CA}"
  const SnailIcon: string := "\U{1F40C}"
  const QuestionIcon: string := "\U{2753}"

  const LevelUnavailable: string := "Performance level unavailable"
  const ScoreUnavailable: string := "Performance score unavailable"
  const BenchmarkUnavailable: string := "Benchmark not available"

  /** The lower bounds of the Excellent, Good and Average tiers. */
  const ExcellentFrom: real := 80.0
  const GoodFrom: real := 60.0
  const AverageFrom: real := 40.0

  /** The level names and icons, indexed by tier (0 is the lowest). */
  const LevelNames: seq<string> := ["Below Average", "Average", "Good", "Excellent"]
  const TierIcons: seq<string> := [SnailIcon, ChartIcon, LightningIcon, RocketIcon]

  /** `!score` for a score that is a number or absent. */
  predicate Falsy(score: Option<real>)
  {
    score.None? || score.value == 0.0
  }

  /** The tier a score falls in by the 80/60/40 thresholds. */
  function Tier(s: real): (t: nat)
    ensures t < 4
    ensures t == 3 <==> s >= ExcellentFrom
    ensures t >= 2 <==> s >= GoodFrom
    ensures t >= 1 <==> s >= AverageFrom
  {
    if s >= ExcellentFrom then 3 else if s >= GoodFrom then 2 else if s >= AverageFrom then 1 else 0
  }

  /** A higher score is never in a lower tier. */
  lemma TierMonotone(a: real, b: real)
    requires a <= b
    ensures Tier(a) <= Tier(b)
  {
  }

  /** `getPerformanceScoreColor`. */
  function ScoreColor(score: Option<real>): (c: string)
    ensures c == GrayText <==> Falsy(score)
    ensures c == BlueText <==> !Falsy(score)
  {
    if Falsy(score) then GrayText else BlueText
  }

  /** `getPerformanceProgressColor`. */
  function ProgressColor(score: Option<real>): (c: string)
    ensures c == GrayBar <==> Falsy(score)
    ensures c == BlueBar <==> !Falsy(score)
  {
    if Falsy(score) then GrayBar else BlueBar
  }

  /** `getPerformanceScoreIcon`: a question mark for a falsy score, otherwise
    * the icon of its tier; a negative score falls to the lowest tier. */
  function ScoreIcon(score: Option<real>): (icon: string)
    ensures Falsy(score) ==> icon == QuestionIcon
    ensures !Falsy(score) ==> icon == TierIcons[Tier(score.value)]
  {
    if Falsy(score) then QuestionIcon
    else if score.value >= ExcellentFrom then RocketIcon
    else if score.value >= GoodFrom then LightningIcon
    else if score.value >= AverageFrom then ChartIcon
    else SnailIcon
  }

  /** `getPerformanceLevel`: unavailable for a falsy or non-positive score,
    * otherwise the name of its tier. */
  function PerformanceLevel(score: Option<real>): (level: string)
    ensures level == LevelUnavailable <==> score.None? || score.value <= 0.0
    ensures score.Some? && score.value > 0.0 ==> level == LevelNames[Tier(score.value)]
  {
    if Falsy(score) || score.value <= 0.0 then LevelUnavailable
    else if score.value >= ExcellentFrom then "Excellent"
    else if score.value >= GoodFrom then "Good"
    else if score.value >= AverageFrom then "Average"
    else "Below Average"
  }

  /** The index of a level name among `LevelNames`, and -1 for unavailable. */
  function LevelRank(level: string): int
  {
    if level == LevelNames[3] then 3
    else if level == LevelNames[2] then 2
    else if level == LevelNames[1] then 1
    else if level == LevelNames[0] then 0
    else -1
  }

  /** Among positive scores the level is monotone, and a positive score
    * always ranks above "unavailable". */
  lemma LevelMonotone(a: real, b: real)
    requires 0.0 < a <= b
    ensures 0 <= LevelRank(PerformanceLevel(Some(a))) <= LevelRank(PerformanceLevel(Some(b)))
    ensures LevelRank(PerformanceLevel(Some(a))) == Tier(a)
  {
  }

  /** Icon and level pick the same tier for every positive score. */
  lemma IconAgreesWithLevel(s: real)
    requires s > 0.0
    ensures ScoreIcon(Some(s)) == TierIcons[Tier(s)]
    ensures PerformanceLevel(Some(s)) == LevelNames[Tier(s)]
  {
  }

  /** A negative score gets the snail icon while its level is unavailable. */
  lemma NegativeScoreDisagrees(s: real)
    requires s < 0.0
    ensures ScoreIcon(Some(s)) == SnailIcon
    ensures PerformanceLevel(Some(s)) == LevelUnavailable
  {
  }

  /** What `getPerformanceScore` shows: the unavailable text, or the score
    * to be formatted with one decimal. */
  datatype ScoreText = Unavailable | Formatted(score: real)

  /** `getPerformanceScore`. */
  function PerformanceScore(score: Option<real>): (t: ScoreText)
    ensures t.Unavailable? <==> score.None? || score.value <= 0.0
    ensures t.Formatted? ==> score.Some? && t.score == score.value && t.score > 0.0
  {
    if score.None? || score.value <= 0.0 then Unavailable else Formatted(score.value)
  }

  /** The score text and the level agree on whether a score is available. */
  lemma ScoreAndLevelAgree(score: Option<real>)
    ensures PerformanceScore(score).Unavailable? <==> PerformanceLevel(score) == LevelUnavailable
  {
  }

  /** The card of one benchmark score. */
  datatype ComponentView =
    | NotAvailable
    | Scored(score: real, color: string, level: string, bar: string)

  /** One of the four benchmark cards: the "not available" text for a falsy
    * score, otherwise the score with its colour, level and bar colour. */
  function ComponentCard(score: Option<real>): (v: ComponentView)
    ensures v.NotAvailable? <==> Falsy(score)
    ensures v.Scored? ==> v.score == score.value && v.level == PerformanceLevel(score)
  {
    if Falsy(score) then NotAvailable
    else Scored(score.value, ScoreColor(score), PerformanceLevel(score), ProgressColor(score))
  }

  /** Inside a benchmark card the colour helpers never reach their gray
    * branch: the card is only drawn for a truthy score. */
  lemma CardsAreBlue(score: Option<real>)
    ensures ComponentCard(score).Scored? ==>
              ComponentCard(score).color == BlueText && ComponentCard(score).bar == BlueBar
  {
  }

  /** What the overall-score block draws below the heading: nothing, the
    * bare text "0" that React prints for a zero number, or the bar. */
  datatype BarView = NoBar | StrayZero | Bar(score: real, color: string)

  /** The overall bar as written, guarded by `score && (...)`: a zero score
    * is printed as "0". */
  function OverallBarAsWritten(score: Option<real>): (v: BarView)
    ensures v.NoBar? <==> score.None?
    ensures v.StrayZero? <==> score == Some(0.0)
    ensures v.Bar? ==> v.score == score.value && v.color == ProgressColor(score)
  {
    if score.None? then NoBar
    else if score.value == 0.0 then StrayZero
    else Bar(score.value, ProgressColor(score))
  }

  /** A zero overall score leaves a stray "0" under the heading. */
  lemma ZeroScoreShowsZero(score: Option<real>)
    requires score == Some(0.0)
    ensures OverallBarAsWritten(score) == StrayZero
    ensures PerformanceLevel(score) == LevelUnavailable
  {
  }

  /** The overall bar as evidently intended: drawn for a truthy score, and
    * then always blue. */
  function OverallBar(score: Option<real>): (v: BarView)
    ensures !v.StrayZero?
    ensures v.Bar? <==> !Falsy(score)
    ensures v.Bar? ==> v.score == score.value && v.color == BlueBar
  {
    if Falsy(score) then NoBar else Bar(score.value, ProgressColor(score))
  }

  /** The two agree except on a zero score. */
  lemma OverallBarsAgree(score: Option<real>)
    ensures OverallBar(score) == OverallBarAsWritten(score) <==> score != Some(0.0)
  {
  }
}
