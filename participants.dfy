/**
 * The participant record shared by the page, the cards and the server action,
 * and the progress formula that the page and the cards use.
 */
module Participants {

  datatype Option<T> = None | Some(value: T)

  /**
   * A participant row. Weights are kilograms and `moneyAdded` is the running
   * contribution total; `initialWeight` and `weightGoal` are 0 while unset.
   */
  datatype Participant = Participant(
    id: int,
    name: string,
    photoUrl: string,
    weightGoal: real,
    weightLost: real,
    color: string,
    initialWeight: real,
    moneyAdded: real)

  /** Percent of the goal reached, `weightLost / weightGoal * 100`, for a set goal. */
  function Ratio(p: Participant): (r: real)
    requires p.weightGoal > 0.0
    ensures r * p.weightGoal == p.weightLost * 100.0
  {
    p.weightLost / p.weightGoal * 100.0
  }

  /** The ratio has the sign of `weightLost` and reaches 100 exactly when the goal is met. */
  lemma RatioBounds(p: Participant)
    requires p.weightGoal > 0.0
    ensures 0.0 <= Ratio(p) <==> 0.0 <= p.weightLost
    ensures Ratio(p) <= 100.0 <==> p.weightLost <= p.weightGoal
    ensures Ratio(p) == 100.0 <==> p.weightLost == p.weightGoal
  {
    var r, g := Ratio(p), p.weightGoal;
    assert r * g == p.weightLost * 100.0;
    assert r * g - 100.0 * g == (r - 100.0) * g;
  }

  /** For a fixed goal, losing more never lowers the ratio. */
  lemma RatioMonotone(p: Participant, q: Participant)
    requires p.weightGoal > 0.0 && q.weightGoal == p.weightGoal
    ensures p.weightLost <= q.weightLost <==> Ratio(p) <= Ratio(q)
  {
  }

  /** No two participants of `ps` share an id. */
  predicate UniqueIds(ps: seq<Participant>) {
    forall i, j :: 0 <= i < j < |ps| ==> ps[i].id != ps[j].id
  }
}
