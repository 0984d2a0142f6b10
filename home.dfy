/**
 * The home page: the participant list it holds as client state, the
 * optimistic updates its handlers apply once the server answers, the
 * challenge leader, the ranking that orders the cards and the prize total.
 */
module Home {
  import opened Participants
  import StableSort
  import Card
  import History

  // Optimistic list updates

  /** Applies `change` to every participant whose id is `id` and keeps the rest in place (src/app/page.tsx:42-48). */
  function MapMatching(ps: seq<Participant>, id: int, change: Participant -> Participant): (r: seq<Participant>)
    ensures |r| == |ps|
  {
    seq(|ps|, i requires 0 <= i < |ps| => if ps[i].id == id then change(ps[i]) else ps[i])
  }

  /** The list after a weight log of `newWeight` for `id` was accepted. */
  function WithWeightLogged(ps: seq<Participant>, id: int, newWeight: real): (r: seq<Participant>)
    ensures |r| == |ps|
    ensures forall i :: 0 <= i < |ps| ==> r[i].id == ps[i].id
    ensures forall i :: 0 <= i < |ps| && ps[i].id != id ==> r[i] == ps[i]
    ensures forall i :: 0 <= i < |ps| && ps[i].id == id ==>
      r[i].weightLost == ps[i].weightLost + newWeight && r[i].(weightLost := ps[i].weightLost) == ps[i]
  {
    MapMatching(ps, id, (p: Participant) => p.(weightLost := p.weightLost + newWeight))
  }

  /** The list after a contribution of `amount` by `id` was accepted. */
  function WithMoneyAdded(ps: seq<Participant>, id: int, amount: real): (r: seq<Participant>)
    ensures |r| == |ps|
    ensures forall i :: 0 <= i < |ps| ==> r[i].id == ps[i].id
    ensures forall i :: 0 <= i < |ps| && ps[i].id != id ==> r[i] == ps[i]
    ensures forall i :: 0 <= i < |ps| && ps[i].id == id ==>
      r[i].moneyAdded == ps[i].moneyAdded + amount && r[i].(moneyAdded := ps[i].moneyAdded) == ps[i]
  {
    MapMatching(ps, id, (p: Participant) => p.(moneyAdded := p.moneyAdded + amount))
  }

  /** The list after a reset of `id` was accepted: both counters are zero again. */
  function WithReset(ps: seq<Participant>, id: int): (r: seq<Participant>)
    ensures |r| == |ps|
    ensures forall i :: 0 <= i < |ps| ==> r[i].id == ps[i].id
    ensures forall i :: 0 <= i < |ps| && ps[i].id != id ==> r[i] == ps[i]
    ensures forall i :: 0 <= i < |ps| && ps[i].id == id ==>
      r[i].weightLost == 0.0 && r[i].moneyAdded == 0.0 &&
      r[i].(weightLost := ps[i].weightLost, moneyAdded := ps[i].moneyAdded) == ps[i]
  {
    MapMatching(ps, id, (p: Participant) => p.(weightLost := 0.0, moneyAdded := 0.0))
  }

  /** Two accepted weight logs for one participant amount to one log of their sum. */
  lemma WeightLogsAdd(ps: seq<Participant>, id: int, a: real, b: real)
    ensures WithWeightLogged(WithWeightLogged(ps, id, a), id, b) == WithWeightLogged(ps, id, a + b)
  {
  }

  /** A reset discards earlier weight logs and contributions of that participant, and a second reset changes nothing. */
  lemma ResetForgets(ps: seq<Participant>, id: int, w: real, m: real)
    ensures WithReset(WithWeightLogged(ps, id, w), id) == WithReset(ps, id)
    ensures WithReset(WithMoneyAdded(ps, id, m), id) == WithReset(ps, id)
    ensures WithReset(WithReset(ps, id), id) == WithReset(ps, id)
  {
  }

  // Prize total

  /** The prize: the money every participant has added, summed from the front (src/app/page.tsx:179). */
  function PrizeTotal(ps: seq<Participant>): (r: real)
    ensures ps == [] ==> r == 0.0
    ensures (forall i :: 0 <= i < |ps| ==> ps[i].moneyAdded >= 0.0) ==> r >= 0.0
  {
    if ps == [] then 0.0 else PrizeTotal(ps[..|ps| - 1]) + ps[|ps| - 1].moneyAdded
  }

  /** How many participants of `ps` carry `id`. */
  function Occurrences(ps: seq<Participant>, id: int): nat {
    if ps == [] then 0
    else Occurrences(ps[..|ps| - 1], id) + (if ps[|ps| - 1].id == id then 1 else 0)
  }

  /** The contributions of the participants that carry `id`. */
  function MoneyOf(ps: seq<Participant>, id: int): real {
    if ps == [] then 0.0
    else MoneyOf(ps[..|ps| - 1], id) + (if ps[|ps| - 1].id == id then ps[|ps| - 1].moneyAdded else 0.0)
  }

  lemma {:induction false} PrizeTotalAppend(a: seq<Participant>, b: seq<Participant>)
    ensures PrizeTotal(a + b) == PrizeTotal(a) + PrizeTotal(b)
  {
    if b == [] {
      assert a + b == a;
    } else {
      assert (a + b)[..|a + b| - 1] == a + b[..|b| - 1];
      PrizeTotalAppend(a, b[..|b| - 1]);
    }
  }

  /** `n` contributions of `amount`. */
  function Times(amount: real, n: nat): real {
    if n == 0 then 0.0 else Times(amount, n - 1) + amount
  }

  /** An accepted contribution raises the prize by `amount` for each participant with that id. */
  lemma {:induction false} PrizeAfterMoney(ps: seq<Participant>, id: int, amount: real)
    ensures PrizeTotal(WithMoneyAdded(ps, id, amount)) == PrizeTotal(ps) + Times(amount, Occurrences(ps, id))
  {
    if ps != [] {
      var init := ps[..|ps| - 1];
      assert WithMoneyAdded(ps, id, amount)[..|ps| - 1] == WithMoneyAdded(init, id, amount);
      PrizeAfterMoney(init, id, amount);
    }
  }

  /** An accepted weight log leaves the prize as it was. */
  lemma {:induction false} PrizeAfterWeight(ps: seq<Participant>, id: int, newWeight: real)
    ensures PrizeTotal(WithWeightLogged(ps, id, newWeight)) == PrizeTotal(ps)
  {
    if ps != [] {
      assert WithWeightLogged(ps, id, newWeight)[..|ps| - 1] == WithWeightLogged(ps[..|ps| - 1], id, newWeight);
      PrizeAfterWeight(ps[..|ps| - 1], id, newWeight);
    }
  }

  /** An accepted reset takes that participant's contributions out of the prize. */
  lemma {:induction false} PrizeAfterReset(ps: seq<Participant>, id: int)
    ensures PrizeTotal(WithReset(ps, id)) == PrizeTotal(ps) - MoneyOf(ps, id)
  {
    if ps != [] {
      assert WithReset(ps, id)[..|ps| - 1] == WithReset(ps[..|ps| - 1], id);
      PrizeAfterReset(ps[..|ps| - 1], id);
    }
  }

  lemma {:induction false} OccurrencesAbsent(ps: seq<Participant>, id: int)
    requires forall i :: 0 <= i < |ps| ==> ps[i].id != id
    ensures Occurrences(ps, id) == 0
  {
    if ps != [] {
      OccurrencesAbsent(ps[..|ps| - 1], id);
    }
  }

  /** With unique ids, a participant that is listed occurs exactly once. */
  lemma {:induction false} OccurrencesUnique(ps: seq<Participant>, k: nat)
    requires UniqueIds(ps) && k < |ps|
    ensures Occurrences(ps, ps[k].id) == 1
  {
    var init := ps[..|ps| - 1];
    if k == |ps| - 1 {
      OccurrencesAbsent(init, ps[k].id);
    } else {
      OccurrencesUnique(init, k);
    }
  }

  /** With unique ids, a contribution by a listed participant raises the prize by exactly `amount`. */
  lemma PrizeAfterMoneyUnique(ps: seq<Participant>, k: nat, amount: real)
    requires UniqueIds(ps) && k < |ps|
    ensures PrizeTotal(WithMoneyAdded(ps, ps[k].id, amount)) == PrizeTotal(ps) + amount
  {
    PrizeAfterMoney(ps, ps[k].id, amount);
    OccurrencesUnique(ps, k);
    assert Times(amount, 1) == amount;
  }

  // Leader

  /** The filter of the leader banner: a goal is set and some weight was lost. */
  predicate HasProgress(p: Participant) {
    p.weightGoal > 0.0 && p.weightLost > 0.0
  }

  /** The participants who qualify for the leader banner, in list order (src/app/page.tsx:126). */
  function WithProgress(ps: seq<Participant>): (r: seq<Participant>)
    ensures forall p :: p in r ==> p in ps && HasProgress(p)
  {
    if ps == [] then []
    else (if HasProgress(ps[0]) then [ps[0]] else []) + WithProgress(ps[1..])
  }

  /**
   * The leader's reduce (src/app/page.tsx:130-134), seeded with `prev`: a later
   * participant replaces the current best only when strictly ahead.
   */
  function ReduceLeader(prev: Participant, rest: seq<Participant>): (r: Participant)
    requires HasProgress(prev)
    requires forall p :: p in rest ==> HasProgress(p)
    ensures r == prev || r in rest
    decreases |rest|
  {
    if rest == [] then prev
    else
      var current := rest[0];
      assert current in rest && HasProgress(current);
      ReduceLeader(if Ratio(current) > Ratio(prev) then current else prev, rest[1..])
  }

  /** The challenge leader, if any participant has progress. */
  function FindLeader(ps: seq<Participant>): (r: Option<Participant>)
    ensures r.Some? ==> r.value in ps && HasProgress(r.value)
  {
    var q := WithProgress(ps);
    if |q| == 0 then None else Some(ReduceLeader(q[0], q))
  }

  /** The percentage printed beside the leader's name. */
  function LeaderProgress(ps: seq<Participant>): (r: Option<real>)
    ensures r.Some? <==> FindLeader(ps).Some?
    ensures r.Some? ==> r.value > 0.0
    ensures r.Some? ==> r.value * FindLeader(ps).value.weightGoal == FindLeader(ps).value.weightLost * 100.0
  {
    match FindLeader(ps)
    case None => None
    case Some(leader) => Some(Ratio(leader))
  }

  /**
   * `ps[k]` has progress, no participant with progress is ahead of it, and
   * every participant with progress listed before it is strictly behind.
   */
  ghost predicate FirstMaximumAt(ps: seq<Participant>, k: int) {
    && 0 <= k < |ps|
    && HasProgress(ps[k])
    && (forall i :: 0 <= i < |ps| && HasProgress(ps[i]) ==> Ratio(ps[i]) <= Ratio(ps[k]))
    && (forall i :: 0 <= i < k && HasProgress(ps[i]) ==> Ratio(ps[i]) < Ratio(ps[k]))
  }

  /** One step of the reduce over the unfiltered list: participants without progress are passed over. */
  function Step(best: Participant, x: Participant): (r: Participant)
    requires HasProgress(best)
    ensures HasProgress(r)
  {
    if HasProgress(x) && Ratio(x) > Ratio(best) then x else best
  }

  function ScanFrom(best: Participant, ps: seq<Participant>, n: nat): (r: Participant)
    requires HasProgress(best) && n <= |ps|
    decreases |ps| - n
  {
    if n == |ps| then best else ScanFrom(Step(best, ps[n]), ps, n + 1)
  }

  lemma {:induction false} ReduceIsScan(best: Participant, ps: seq<Participant>, n: nat)
    requires HasProgress(best) && n <= |ps|
    ensures ReduceLeader(best, WithProgress(ps[n..])) == ScanFrom(best, ps, n)
    decreases |ps| - n
  {
    if n < |ps| {
      assert ps[n..][0] == ps[n];
      assert ps[n..][1..] == ps[n + 1..];
      var tail := WithProgress(ps[n + 1..]);
      ReduceIsScan(Step(best, ps[n]), ps, n + 1);
      if HasProgress(ps[n]) {
        assert WithProgress(ps[n..]) == [ps[n]] + tail;
        assert ([ps[n]] + tail)[1..] == tail;
      } else {
        assert WithProgress(ps[n..]) == tail;
      }
    }
  }

  lemma {:induction false} ScanFindsFirstMaximum(best: Participant, k: nat, ps: seq<Participant>, n: nat) returns (j: nat)
    requires k < |ps| && ps[k] == best && HasProgress(best) && n <= |ps|
    requires forall i :: 0 <= i < n && HasProgress(ps[i]) ==> Ratio(ps[i]) <= Ratio(best)
    requires forall i :: 0 <= i < n && i < k && HasProgress(ps[i]) ==> Ratio(ps[i]) < Ratio(best)
    requires forall i :: n <= i < k ==> !HasProgress(ps[i])
    ensures FirstMaximumAt(ps, j) && ScanFrom(best, ps, n) == ps[j]
    decreases |ps| - n
  {
    if n == |ps| {
      j := k;
    } else {
      var x := ps[n];
      assert ScanFrom(best, ps, n) == ScanFrom(Step(best, x), ps, n + 1);
      if HasProgress(x) && Ratio(x) > Ratio(best) {
        forall i | 0 <= i < n + 1 && HasProgress(ps[i]) ensures Ratio(ps[i]) <= Ratio(x) {
          if i < n {
            assert Ratio(ps[i]) <= Ratio(best);
          }
        }
        forall i | 0 <= i < n + 1 && i < n && HasProgress(ps[i]) ensures Ratio(ps[i]) < Ratio(x) {
          assert Ratio(ps[i]) <= Ratio(best);
        }
        j := ScanFindsFirstMaximum(x, n, ps, n + 1);
      } else {
        assert Step(best, x) == best;
        forall i | 0 <= i < n + 1 && HasProgress(ps[i]) ensures Ratio(ps[i]) <= Ratio(best) {
        }
        forall i | 0 <= i < n + 1 && i < k && HasProgress(ps[i]) ensures Ratio(ps[i]) < Ratio(best) {
        }
        j := ScanFindsFirstMaximum(best, k, ps, n + 1);
      }
    }
  }

  lemma {:induction false} WithProgressEmpty(ps: seq<Participant>)
    ensures WithProgress(ps) == [] <==> forall i :: 0 <= i < |ps| ==> !HasProgress(ps[i])
  {
    if ps != [] {
      WithProgressEmpty(ps[1..]);
      if HasProgress(ps[0]) {
        assert WithProgress(ps)[0] == ps[0];
      } else {
        forall i | 1 <= i < |ps| ensures ps[i] == ps[1..][i - 1] {}
      }
    }
  }

  lemma {:induction false} WithProgressFirst(ps: seq<Participant>)
    requires WithProgress(ps) != []
    ensures exists k :: 0 <= k < |ps| && ps[k] == WithProgress(ps)[0] &&
                        forall i :: 0 <= i < k ==> !HasProgress(ps[i])
  {
    if HasProgress(ps[0]) {
      assert WithProgress(ps)[0] == ps[0];
    } else {
      WithProgressFirst(ps[1..]);
      var k :| 0 <= k < |ps[1..]| && ps[1..][k] == WithProgress(ps[1..])[0] &&
        forall i :: 0 <= i < k ==> !HasProgress(ps[1..][i]);
      assert ps[k + 1] == WithProgress(ps)[0];
      forall i | 0 <= i < k + 1 ensures !HasProgress(ps[i]) {
        if 0 < i {
          assert ps[i] == ps[1..][i - 1];
        }
      }
    }
  }

  /**
   * There is no leader exactly when nobody has progress; otherwise the leader
   * is the first participant, in list order, whose progress is the highest.
   */
  lemma LeaderIsFirstMaximum(ps: seq<Participant>)
    ensures FindLeader(ps).None? <==> forall i :: 0 <= i < |ps| ==> !HasProgress(ps[i])
    ensures FindLeader(ps).Some? ==> exists k :: FirstMaximumAt(ps, k) && FindLeader(ps).value == ps[k]
  {
    WithProgressEmpty(ps);
    var q := WithProgress(ps);
    if q != [] {
      WithProgressFirst(ps);
      var k :| 0 <= k < |ps| && ps[k] == q[0] && forall i :: 0 <= i < k ==> !HasProgress(ps[i]);
      assert q[0] in q;
      assert ps[0..] == ps;
      ReduceIsScan(q[0], ps, 0);
      var j := ScanFindsFirstMaximum(q[0], k, ps, 0);
    }
  }

  /** The tie-break leaves no choice: at most one position is the first maximum. */
  lemma FirstMaximumUnique(ps: seq<Participant>, k: int, j: int)
    requires FirstMaximumAt(ps, k) && FirstMaximumAt(ps, j)
    ensures k == j
  {
  }

  // Ranking

  /** The sort key of a card: its progress, or -1 while no goal is set. */
  function RankKey(p: Participant): (r: real)
    ensures p.weightGoal > 0.0 ==> r == Card.Progress(p)
    ensures p.weightGoal <= 0.0 ==> r == -1.0
  {
    if p.weightGoal > 0.0 then Ratio(p) else -1.0
  }

  /** The comparator `progressB - progressA` sorts ascending in the negated key. */
  function DescendingKey(p: Participant): real {
    -RankKey(p)
  }

  /** The cards in display order: a stable sort by descending `RankKey`. */
  function Ranked(ps: seq<Participant>): (r: seq<Participant>)
    ensures |r| == |ps|
  {
    StableSort.SortBy(ps, DescendingKey)
  }

  /** The participants of `s` whose key is `progress`, in order. */
  function AtRank(s: seq<Participant>, progress: real): seq<Participant> {
    StableSort.WithKey(s, DescendingKey, -progress)
  }

  /** The ranking sorts a fresh copy of the list (src/app/page.tsx:191-195), so the list itself keeps its order. */
  method RankParticipants(ps: seq<Participant>) returns (r: seq<Participant>)
    ensures r == Ranked(ps)
  {
    var copy := new Participant[|ps|](i requires 0 <= i < |ps| => ps[i]);
    assert copy[..] == ps;
    StableSort.InsertionSort(copy, DescendingKey);
    r := copy[..];
  }

  /** The ranking holds the same participants, ordered by non-increasing key. */
  lemma RankedIsOrderedPermutation(ps: seq<Participant>)
    ensures multiset(Ranked(ps)) == multiset(ps)
    ensures forall i, j :: 0 <= i < j < |ps| ==> RankKey(Ranked(ps)[i]) >= RankKey(Ranked(ps)[j])
  {
    StableSort.SortByPermutes(ps, DescendingKey);
    StableSort.SortBySorted(ps, DescendingKey);
    var r := Ranked(ps);
    forall i, j | 0 <= i < j < |ps| ensures RankKey(r[i]) >= RankKey(r[j]) {
      assert DescendingKey(r[i]) <= DescendingKey(r[j]);
    }
  }

  /** Participants with equal keys keep their list order. */
  lemma RankedIsStable(ps: seq<Participant>, progress: real)
    ensures AtRank(Ranked(ps), progress) == AtRank(ps, progress)
  {
    StableSort.SortByStable(ps, DescendingKey, -progress);
  }

  /** Cards without a goal come after every card with a goal and no weight gained. */
  lemma UnsetGoalsAfterProgress(ps: seq<Participant>)
    ensures forall i, j :: 0 <= i < j < |ps| && Ranked(ps)[i].weightGoal <= 0.0 ==>
      !(Ranked(ps)[j].weightGoal > 0.0 && Ranked(ps)[j].weightLost >= 0.0)
  {
    RankedIsOrderedPermutation(ps);
    var r := Ranked(ps);
    forall i, j | 0 <= i < j < |ps| && r[i].weightGoal <= 0.0
      ensures !(r[j].weightGoal > 0.0 && r[j].weightLost >= 0.0)
    {
      if r[j].weightGoal > 0.0 && r[j].weightLost >= 0.0 {
        RatioBounds(r[j]);
      }
    }
  }

  /**
   * The -1 sentinel is not below every set goal: a participant who gained more
   * than 1% of the goal has a lower key and is ranked after one with no goal.
   */
  lemma WeightGainRankedAfterUnset()
    ensures var heavier := Participant(1, "", "", 10.0, -1.0, "", 80.0, 0.0);
            var unset := Participant(2, "", "", 0.0, 0.0, "", 0.0, 0.0);
            Ranked([heavier, unset]) == [unset, heavier]
  {
    var heavier := Participant(1, "", "", 10.0, -1.0, "", 80.0, 0.0);
    var unset := Participant(2, "", "", 0.0, 0.0, "", 0.0, 0.0);
    assert RankKey(heavier) == -10.0;
    assert [heavier, unset][..1] == [heavier];
    assert [heavier][..0] == [];
  }

  // How the updates show on the cards and the banner

  /** After a reset the card hides its reset button and shows no progress, and its input gate is unchanged. */
  lemma ResetClearsCard(ps: seq<Participant>, id: int, i: nat)
    requires i < |ps| && ps[i].id == id
    ensures var v := Card.Render(WithReset(ps, id)[i]);
      && !v.resetVisible
      && v.progressText == 0.0 && v.barWidth == 0.0
      && v.currentWeight == ps[i].initialWeight
      && v.inputDisabled == Card.Render(ps[i]).inputDisabled
  {
  }

  /** An accepted weight log lowers the card's current weight by the amount logged. */
  lemma WeightLogLowersCurrentWeight(ps: seq<Participant>, id: int, newWeight: real, i: nat)
    requires i < |ps| && ps[i].id == id
    ensures Card.CurrentWeight(WithWeightLogged(ps, id, newWeight)[i]) == Card.CurrentWeight(ps[i]) - newWeight
  {
  }

  /**
   * The running total stays equal to the modal's sum of the money history
   * when the same contribution is also appended there as a record.
   */
  lemma MoneyAddedMatchesHistory(ps: seq<Participant>, i: nat, mh: seq<History.MoneyRecord>, amount: real, at: int)
    requires i < |ps| && ps[i].moneyAdded == History.TotalContributed(mh)
    ensures WithMoneyAdded(ps, ps[i].id, amount)[i].moneyAdded
         == History.TotalContributed(mh + [History.MoneyRecord(amount, at)])
  {
    assert (mh + [History.MoneyRecord(amount, at)])[..|mh|] == mh;
  }

  /** A reset participant cannot be the leader. */
  lemma ResetLeavesLeaderboard(ps: seq<Participant>, id: int)
    ensures FindLeader(WithReset(ps, id)).Some? ==> FindLeader(WithReset(ps, id)).value.id != id
  {
  }

  // Client state

  /** The page's `participants` state and its handlers. */
  class HomeState {
    var participants: seq<Participant>

    constructor ()
      ensures participants == []
    {
      participants := [];
    }

    /** `fetchParticipants`: the list is replaced by what the server returned. */
    method FetchParticipants(data: seq<Participant>)
      modifies this
      ensures participants == data
    {
      participants := data;
    }

    /** `handleWeightUpdate`, once the PATCH request has answered with `responseOk`. */
    method HandleWeightUpdate(id: int, newWeight: real, responseOk: bool)
      modifies this
      ensures participants == if responseOk then WithWeightLogged(old(participants), id, newWeight)
                              else old(participants)
    {
      if responseOk {
        participants := WithWeightLogged(participants, id, newWeight);
      }
    }

    /** `handleMoneyAdd`, once the PATCH request has answered with `responseOk`. */
    method HandleMoneyAdd(id: int, amount: real, responseOk: bool)
      modifies this
      ensures participants == if responseOk then WithMoneyAdded(old(participants), id, amount)
                              else old(participants)
    {
      if responseOk {
        participants := WithMoneyAdded(participants, id, amount);
      }
    }

    /** `handleReset`, once the PATCH request has answered with `responseOk`. */
    method HandleReset(id: int, responseOk: bool)
      modifies this
      ensures participants == if responseOk then WithReset(old(participants), id)
                              else old(participants)
    {
      if responseOk {
        participants := WithReset(participants, id);
      }
    }

    /** The cards in display order; the state itself is not reordered. */
    method RankedCards() returns (r: seq<Participant>)
      ensures r == Ranked(participants)
      ensures multiset(r) == multiset(participants)
    {
      r := RankParticipants(participants);
      RankedIsOrderedPermutation(participants);
    }
  }
}
