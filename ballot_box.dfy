/**
 * The ballot box: admits each encrypted ballot identifier at most once, and
 * only when the ballot is valid for the election, tagging it cast or spoiled.
 */
module BallotBox {
  import opened Optional
  import opened Election
  import opened Ballot

  /** A keyed store of submitted ballots: get, set and items over a dictionary. */
  class DataStore {
    var entries: map<string, SubmittedBallot>

    constructor ()
      ensures entries == map[]
    {
      entries := map[];
    }

    method Get(id: string) returns (r: Option<SubmittedBallot>)
      ensures r.Some? <==> id in entries
      ensures r.Some? ==> r.value == entries[id]
    {
      r := Optional.Get(entries, id);
    }

    method Set(id: string, ballot: SubmittedBallot)
      modifies this
      ensures entries == old(entries)[id := ballot]
    {
      entries := entries[id := ballot];
    }
  }

  /** What one acceptance returns and the store it leaves behind. */
  datatype AcceptOutcome = AcceptOutcome(result: Option<SubmittedBallot>, store: map<string, SubmittedBallot>)

  /**
   * The accept protocol on store values, with `isValid` the verdict of the
   * external validator: reject an invalid ballot, reject an identifier that is
   * already stored, otherwise store the ballot tagged with `state`.
   */
  function Accept(store: map<string, SubmittedBallot>, ballot: CiphertextBallot, state: BallotBoxState, isValid: bool): (r: AcceptOutcome)
    ensures r.result.Some? <==> isValid && ballot.objectId !in store
    ensures r.result.None? ==> r.store == store
    ensures r.result.Some? ==>
      && r.result.value.objectId == ballot.objectId
      && r.result.value.state == state
      && r.store.Keys == store.Keys + {ballot.objectId}
      && r.store[ballot.objectId] == r.result.value
    ensures forall id | id in store :: id in r.store && r.store[id] == store[id]
  {
    if !isValid then AcceptOutcome(None, store)
    else if ballot.objectId in store then AcceptOutcome(None, store)
    else
      var submitted := FromCiphertextBallot(ballot, state);
      AcceptOutcome(Some(submitted), store[submitted.objectId := submitted])
  }

  /**
   * `accept_ballot`: validate, check for an existing record, tag, write, and
   * return the record read back from the store.
   */
  method AcceptBallot(
    ballot: CiphertextBallot,
    state: BallotBoxState,
    metadata: InternalElectionDescription,
    context: CiphertextElectionContext,
    store: DataStore,
    isValidForElection: (CiphertextBallot, InternalElectionDescription, CiphertextElectionContext) -> bool)
    returns (r: Option<SubmittedBallot>)
    modifies store
    ensures AcceptOutcome(r, store.entries) ==
            Accept(old(store.entries), ballot, state, isValidForElection(ballot, metadata, context))
  {
    if !isValidForElection(ballot, metadata, context) {
      return None;
    }
    var existing := store.Get(ballot.objectId);
    if existing.Some? {
      return None;
    }
    var ballotBoxBallot := FromCiphertextBallot(ballot, state);
    store.Set(ballotBoxBallot.objectId, ballotBoxBallot);
    r := store.Get(ballotBoxBallot.objectId);
  }

  /** A ballot box over one election and its own store. */
  class BallotBox {
    const metadata: InternalElectionDescription
    const encryption: CiphertextElectionContext
    const store: DataStore

    /** A box with a fresh, empty store. */
    constructor (metadata: InternalElectionDescription, encryption: CiphertextElectionContext)
      ensures this.metadata == metadata && this.encryption == encryption
      ensures fresh(store) && store.entries == map[]
    {
      this.metadata := metadata;
      this.encryption := encryption;
      store := new DataStore();
    }

    /** A box over a store supplied by the caller. */
    constructor WithStore(metadata: InternalElectionDescription, encryption: CiphertextElectionContext, store: DataStore)
      ensures this.metadata == metadata && this.encryption == encryption && this.store == store
    {
      this.metadata := metadata;
      this.encryption := encryption;
      this.store := store;
    }

    method Cast(
      ballot: CiphertextBallot,
      isValidForElection: (CiphertextBallot, InternalElectionDescription, CiphertextElectionContext) -> bool)
      returns (r: Option<SubmittedBallot>)
      modifies store
      ensures AcceptOutcome(r, store.entries) ==
              Accept(old(store.entries), ballot, BallotBoxState.Cast, isValidForElection(ballot, metadata, encryption))
    {
      r := AcceptBallot(ballot, BallotBoxState.Cast, metadata, encryption, store, isValidForElection);
    }

    method Spoil(
      ballot: CiphertextBallot,
      isValidForElection: (CiphertextBallot, InternalElectionDescription, CiphertextElectionContext) -> bool)
      returns (r: Option<SubmittedBallot>)
      modifies store
      ensures AcceptOutcome(r, store.entries) ==
              Accept(old(store.entries), ballot, BallotBoxState.Spoiled, isValidForElection(ballot, metadata, encryption))
    {
      r := AcceptBallot(ballot, BallotBoxState.Spoiled, metadata, encryption, store, isValidForElection);
    }
  }

  /**
   * `get_ballots`: the stored records whose state is `state`, or every record
   * when no state is given.
   */
  function GetBallots(store: DataStore, state: Option<BallotBoxState>): (r: map<string, SubmittedBallot>)
    reads store
    ensures forall id :: id in r <==> id in store.entries && (state.None? || store.entries[id].state == state.value)
    ensures forall id | id in r :: r[id] == store.entries[id]
  {
    map id | id in store.entries && (state.None? || store.entries[id].state == state.value) :: store.entries[id]
  }

  /** With no state, the query returns the whole store. */
  lemma GetBallotsAll(store: DataStore)
    ensures GetBallots(store, None) == store.entries
  {
  }

  /**
   * The per-state queries partition the store: distinct states give disjoint
   * results, and together the three states cover every record.
   */
  lemma GetBallotsPartition(store: DataStore, s: BallotBoxState, t: BallotBoxState)
    ensures s != t ==> GetBallots(store, Some(s)).Keys !! GetBallots(store, Some(t)).Keys
    ensures GetBallots(store, Some(Cast)).Keys + GetBallots(store, Some(Spoiled)).Keys
            + GetBallots(store, Some(Unknown)).Keys == store.entries.Keys
  {
  }

  /** A second acceptance of an identifier that was accepted is always rejected, whatever state it asks for. */
  lemma AcceptAtMostOnce(
    store: map<string, SubmittedBallot>,
    first: CiphertextBallot, firstState: BallotBoxState, firstValid: bool,
    second: CiphertextBallot, secondState: BallotBoxState, secondValid: bool)
    requires first.objectId == second.objectId
    requires Accept(store, first, firstState, firstValid).result.Some?
    ensures var after := Accept(store, first, firstState, firstValid).store;
            && Accept(after, second, secondState, secondValid).result.None?
            && Accept(after, second, secondState, secondValid).store == after
            && after[first.objectId].state == firstState
  {
  }

  /** One request to the ballot box: the ballot, the requested state and the validator's verdict. */
  datatype AcceptRequest = AcceptRequest(ballot: CiphertextBallot, state: BallotBoxState, isValid: bool)

  datatype AcceptRun = AcceptRun(results: seq<Option<SubmittedBallot>>, store: map<string, SubmittedBallot>)

  /** A sequence of acceptances, applied one after another. */
  function AcceptAll(store: map<string, SubmittedBallot>, requests: seq<AcceptRequest>): (r: AcceptRun)
    ensures |r.results| == |requests|
    decreases |requests|
  {
    if requests == [] then AcceptRun([], store)
    else
      var step := Accept(store, requests[0].ballot, requests[0].state, requests[0].isValid);
      var rest := AcceptAll(step.store, requests[1..]);
      AcceptRun([step.result] + rest.results, rest.store)
  }

  /**
   * Over any sequence of requests: records already stored are never changed,
   * every successful acceptance is of a new identifier and is the record that
   * stays in the store, and no identifier is accepted twice.
   */
  lemma {:induction false} AcceptAllAtMostOnce(store: map<string, SubmittedBallot>, requests: seq<AcceptRequest>)
    decreases |requests|
    ensures var run := AcceptAll(store, requests);
      && (forall id | id in store :: id in run.store && run.store[id] == store[id])
      && (forall k | 0 <= k < |requests| && run.results[k].Some? ::
            && run.results[k].value.objectId == requests[k].ballot.objectId
            && run.results[k].value.state == requests[k].state
            && requests[k].ballot.objectId !in store
            && requests[k].ballot.objectId in run.store
            && run.store[requests[k].ballot.objectId] == run.results[k].value)
      && (forall k, l | 0 <= k < l < |requests| && run.results[k].Some? && run.results[l].Some? ::
            requests[k].ballot.objectId != requests[l].ballot.objectId)
  {
    if requests != [] {
      var step := Accept(store, requests[0].ballot, requests[0].state, requests[0].isValid);
      AcceptAllAtMostOnce(step.store, requests[1..]);
      var run := AcceptAll(store, requests);
      var rest := AcceptAll(step.store, requests[1..]);
      assert run.results == [step.result] + rest.results;
      forall k | 0 <= k < |requests| && run.results[k].Some?
        ensures requests[k].ballot.objectId !in store
        ensures requests[k].ballot.objectId in run.store
        ensures run.store[requests[k].ballot.objectId] == run.results[k].value
      {
        if k > 0 {
          assert run.results[k] == rest.results[k - 1];
          assert requests[k] == requests[1..][k - 1];
        }
      }
      forall k, l | 0 <= k < l < |requests| && run.results[k].Some? && run.results[l].Some?
        ensures requests[k].ballot.objectId != requests[l].ballot.objectId
      {
        assert run.results[l] == rest.results[l - 1];
        assert requests[l] == requests[1..][l - 1];
        if k > 0 {
          assert run.results[k] == rest.results[k - 1];
          assert requests[k] == requests[1..][k - 1];
        }
      }
    }
  }

  /**
   * Within a run, request `k` succeeds exactly when the validator accepts it,
   * its identifier was not stored at the start, and no earlier request of the
   * run was accepted with that identifier.
   */
  lemma {:induction false} AcceptAllSucceedsIff(store: map<string, SubmittedBallot>, requests: seq<AcceptRequest>, k: nat)
    requires k < |requests|
    ensures var run := AcceptAll(store, requests);
            var id := requests[k].ballot.objectId;
            run.results[k].Some? <==>
              && requests[k].isValid
              && id !in store
              && forall l | 0 <= l < k :: !(run.results[l].Some? && requests[l].ballot.objectId == id)
    decreases |requests|
  {
    var step := Accept(store, requests[0].ballot, requests[0].state, requests[0].isValid);
    var run := AcceptAll(store, requests);
    var rest := AcceptAll(step.store, requests[1..]);
    assert run.results == [step.result] + rest.results;
    if k > 0 {
      var id := requests[k].ballot.objectId;
      AcceptAllSucceedsIff(step.store, requests[1..], k - 1);
      assert requests[1..][k - 1] == requests[k];
      assert run.results[k] == rest.results[k - 1];
      assert (forall l | 0 <= l < k - 1 :: !(rest.results[l].Some? && requests[1..][l].ballot.objectId == id))
         <==> (forall l | 1 <= l < k :: !(run.results[l].Some? && requests[l].ballot.objectId == id)) by {
        forall l | 1 <= l < k ensures run.results[l] == rest.results[l - 1] && requests[l] == requests[1..][l - 1] {}
      }
      assert id !in step.store <==> id !in store && !(step.result.Some? && requests[0].ballot.objectId == id);
    }
  }
}
