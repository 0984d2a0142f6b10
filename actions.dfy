/**
 * The server action `updateParticipantWeight`: a read-modify-write of one
 * participant row in the store, keyed by id.
 */
module Actions {
  import opened Participants
  import Home

  /** Every stored row sits under its own id. */
  predicate Keyed(rows: map<int, Participant>) {
    forall k :: k in rows ==> rows[k].id == k
  }

  /** The store after `weightLost` of row `id` grew by `newWeight`. */
  function AfterWeightUpdate(rows: map<int, Participant>, id: int, newWeight: real): (r: map<int, Participant>)
    requires id in rows
    ensures r.Keys == rows.Keys
    ensures forall k :: k in rows && k != id ==> r[k] == rows[k]
    ensures r[id].weightLost == rows[id].weightLost + newWeight
    ensures r[id].(weightLost := rows[id].weightLost) == rows[id]
    ensures Keyed(rows) ==> Keyed(r)
  {
    rows[id := rows[id].(weightLost := rows[id].weightLost + newWeight)]
  }

  /** The participant table, as far as this action uses it. */
  class Store {
    var rows: map<int, Participant>

    ghost predicate Valid()
      reads this
    {
      Keyed(rows)
    }

    constructor (rows: map<int, Participant>)
      requires Keyed(rows)
      ensures Valid() && this.rows == rows
    {
      this.rows := rows;
    }

    /**
     * `findUnique` then `update`: an unknown id yields `None` and writes
     * nothing; otherwise the row's `weightLost` grows by `newWeight` and the
     * updated row is returned.
     */
    method UpdateParticipantWeight(id: int, newWeight: real) returns (result: Option<Participant>)
      requires Valid()
      modifies this
      ensures Valid()
      ensures id !in old(rows) ==> result == None && rows == old(rows)
      ensures id in old(rows) ==> rows == AfterWeightUpdate(old(rows), id, newWeight)
      ensures id in old(rows) ==> result == Some(rows[id])
    {
      if id in rows {
        var participant := rows[id];
        rows := rows[id := participant.(weightLost := participant.weightLost + newWeight)];
        result := Some(rows[id]);
      } else {
        result := None;
      }
    }
  }

  /** Every participant in the client's list is the stored row under its id. */
  predicate Mirrors(ps: seq<Participant>, rows: map<int, Participant>) {
    forall i :: 0 <= i < |ps| ==> ps[i].id in rows && rows[ps[i].id] == ps[i]
  }

  /**
   * Compares two rules for the same weight log: the page's optimistic list
   * update and this action's row update. The page does not call this action
   * (it sends a PATCH to the participant route); the lemma states that a list
   * mirroring the rows still mirrors them once each rule has applied the log.
   */
  lemma OptimisticUpdateAgrees(ps: seq<Participant>, rows: map<int, Participant>, id: int, newWeight: real)
    requires Mirrors(ps, rows) && id in rows
    ensures Mirrors(Home.WithWeightLogged(ps, id, newWeight), AfterWeightUpdate(rows, id, newWeight))
  {
    var after := Home.WithWeightLogged(ps, id, newWeight);
    var stored := AfterWeightUpdate(rows, id, newWeight);
    forall i | 0 <= i < |ps| ensures after[i].id in stored && stored[after[i].id] == after[i] {
      if ps[i].id == id {
        assert rows[id] == ps[i];
      }
    }
  }
}
