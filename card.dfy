/**
 * The values a participant card derives from its props, and the card's one
 * piece of state: the text of the weight input.
 */
module Card {
  import opened Participants

  /** The progress percentage on the card; 0 while no goal is set, so it never divides by zero. */
  function Progress(p: Participant): (r: real)
    ensures p.weightGoal > 0.0 ==> r * p.weightGoal == p.weightLost * 100.0
    ensures p.weightGoal <= 0.0 ==> r == 0.0
  {
    if p.weightGoal > 0.0 then Ratio(p) else 0.0
  }

  /** The weight shown as current: what is left after the weight lost. */
  function CurrentWeight(p: Participant): (r: real)
    ensures r + p.weightLost == p.initialWeight
  {
    p.initialWeight - p.weightLost
  }

  /** Width of the progress bar in percent: the progress, capped at a full bar. */
  function BarWidth(progress: real): (r: real)
    ensures r <= 100.0 && r <= progress
    ensures r == progress || r == 100.0
  {
    if progress < 100.0 then progress else 100.0
  }

  /** What the card displays, apart from text copied straight from the props. */
  datatype CardView = CardView(
    progressText: real,
    barWidth: real,
    currentWeight: real,
    goalLabel: Option<real>,      // None is the "-" placeholder
    resetVisible: bool,
    inputDisabled: bool,
    submitDisabled: bool,
    lockNoticeShown: bool)

  function Render(p: Participant): (v: CardView)
    ensures v.progressText == Progress(p)
    ensures v.barWidth <= 100.0 && v.barWidth <= v.progressText
    ensures v.progressText <= 100.0 ==> v.barWidth == v.progressText
    ensures v.progressText > 100.0 ==> v.barWidth == 100.0
    ensures v.currentWeight + p.weightLost == p.initialWeight
    ensures v.goalLabel == None <==> p.weightGoal <= 0.0
    ensures v.goalLabel.Some? ==> v.goalLabel.value == p.weightGoal
    ensures v.resetVisible <==> p.weightLost > 0.0 || p.moneyAdded > 0.0
    ensures !v.inputDisabled <==> p.initialWeight > 0.0 && p.weightGoal > 0.0
    ensures v.submitDisabled == v.inputDisabled && v.lockNoticeShown == v.inputDisabled
  {
    var progress := Progress(p);
    // The card is complete once both the starting weight and the goal are entered.
    var complete := p.initialWeight > 0.0 && p.weightGoal > 0.0;
    CardView(
      progress,
      BarWidth(progress),
      CurrentWeight(p),
      if p.weightGoal > 0.0 then Some(p.weightGoal) else None,
      p.weightLost > 0.0 || p.moneyAdded > 0.0,
      !complete,
      !complete,
      !complete)
  }

  /** The call the card makes to its `onWeightUpdate` callback. */
  datatype WeightCall = WeightCall(id: int, newWeight: real)

  /** A card's local state: the participant it shows and the weight input's text. */
  class CardState {
    const id: int
    var newWeight: string

    constructor (id: int)
      ensures this.id == id && newWeight == ""
    {
      this.id := id;
      newWeight := "";
    }

    /** The input's change handler. */
    method SetNewWeight(text: string)
      modifies this
      ensures newWeight == text
    {
      newWeight := text;
    }

    /**
     * Form submission: a non-empty input is parsed and passed on, then cleared;
     * an empty input calls nothing. `parseFloat` stands for the number parser.
     */
    method HandleSubmit(parseFloat: string -> real) returns (call: Option<WeightCall>)
      modifies this
      ensures old(newWeight) == "" ==> call == None
      ensures old(newWeight) != "" ==> call == Some(WeightCall(id, parseFloat(old(newWeight))))
      ensures newWeight == ""
    {
      if newWeight != "" {
        call := Some(WeightCall(id, parseFloat(newWeight)));
        newWeight := "";
      } else {
        call := None;
      }
    }
  }
}
