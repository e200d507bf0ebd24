/** Plaintext, ciphertext and submitted ballots. */
module Ballot {
  import opened Optional
  import opened Election

  /** The state a ballot is given when the ballot box accepts it. */
  datatype BallotBoxState = Cast | Spoiled | Unknown

  datatype PlaintextBallotSelection = PlaintextBallotSelection(
    objectId: string,
    vote: bool,
    isPlaceholderSelection: bool,
    extendedData: Option<ExtendedData>)

  datatype PlaintextBallotContest = PlaintextBallotContest(
    objectId: string,
    ballotSelections: seq<PlaintextBallotSelection>)

  datatype PlaintextBallot = PlaintextBallot(
    objectId: string,
    ballotStyle: string,
    contests: seq<PlaintextBallotContest>)

  /** One encrypted contest: its selection ciphertexts and proofs, kept opaque. */
  datatype CiphertextBallotContest = CiphertextBallotContest(
    objectId: string,
    ciphertexts: seq<int>)

  /** An encrypted ballot before the ballot box has accepted it. */
  datatype CiphertextBallot = CiphertextBallot(
    objectId: string,
    styleId: string,
    descriptionHash: ElementModQ,
    previousTrackingHash: ElementModQ,
    contests: seq<CiphertextBallotContest>,
    trackingHash: ElementModQ,
    timestamp: int,
    cryptoHash: ElementModQ,
    nonce: Option<ElementModQ>)

  /** An encrypted ballot together with the state the ballot box gave it. */
  datatype SubmittedBallot = SubmittedBallot(
    objectId: string,
    styleId: string,
    descriptionHash: ElementModQ,
    previousTrackingHash: ElementModQ,
    contests: seq<CiphertextBallotContest>,
    trackingHash: ElementModQ,
    timestamp: int,
    cryptoHash: ElementModQ,
    nonce: Option<ElementModQ>,
    state: BallotBoxState)

  /**
   * Tags a ciphertext ballot with a ballot-box state. Only the identifier and
   * the state are relied on; the body stands in for the conversion by copying
   * the other fields and dropping the nonce.
   */
  function FromCiphertextBallot(ballot: CiphertextBallot, state: BallotBoxState): (r: SubmittedBallot)
    ensures r.objectId == ballot.objectId && r.state == state
  {
    SubmittedBallot(
      ballot.objectId, ballot.styleId, ballot.descriptionHash, ballot.previousTrackingHash,
      ballot.contests, ballot.trackingHash, ballot.timestamp, ballot.cryptoHash, None,
      state)
  }
}
