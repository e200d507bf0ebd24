/**
 * The parts of the election manifest and context that the ballot box and the
 * compact-ballot expansion consume. Both are read, never changed.
 */
module Election {

  /** An element of the group Z_q; the group arithmetic itself is external. */
  datatype ElementModQ = ElementModQ(value: int)

  /** Write-in text attached to one selection slot. */
  datatype ExtendedData = ExtendedData(value: string, length: int)

  datatype SelectionDescription = SelectionDescription(
    objectId: string,
    candidateId: string,
    sequenceOrder: int)

  /** A manifest contest, placeholders included. */
  datatype ContestDescription = ContestDescription(
    objectId: string,
    sequenceOrder: int,
    ballotSelections: seq<SelectionDescription>)

  /**
   * The internal election description. `contestsFor` stands for its
   * `get_contests_for(style_id)` lookup, which resolves a ballot style to the
   * contests that style covers; it is defined outside the modelled files.
   */
  datatype InternalElectionDescription = InternalElectionDescription(
    descriptionHash: ElementModQ,
    contests: seq<ContestDescription>,
    contestsFor: string -> seq<ContestDescription>)

  /** The cryptographic context of the election, opaque to this model. */
  datatype CiphertextElectionContext = CiphertextElectionContext(
    elgamalPublicKey: int,
    cryptoExtendedBaseHash: ElementModQ)
}
