# ElectionGuard ballot box and compact ballots, in Dafny

This project models two pieces of ElectionGuard's ballot handling and proves
properties of them.

**The ballot box** (`ballot_box.dfy`) holds submitted ballots in a keyed data
store. `accept_ballot` checks, then inserts:
- it rejects a ballot that the external validator finds invalid for the election;
- it rejects a ballot whose identifier is already in the store;
- otherwise it tags the ballot with the requested ballot-box state (cast or spoiled), writes it to the store and reads it back.

`BallotBox.cast` and `BallotBox.spoil` fix the state. `get_ballots` filters the store by state.

The data store is a class (`DataStore`) holding a `map` that its `Set` method
reassigns. `AcceptBallot`, `Cast` and `Spoil` are methods that change it, and
each is proved equal to a pure specification, `Accept`, of the old store.
The ensures clauses of `Accept` state:
- a ballot succeeds exactly when it is valid and its identifier is new;
- a rejection has no side effect;
- no other key changes.

The lemmas about `Accept` and about `AcceptAll` (a run of acceptances) state:
- first writer wins;
- no identifier is ever accepted twice;
- within a run, a request succeeds exactly when it is valid, its identifier
  was not stored, and no earlier request of the run accepted that identifier.

**Compact ballots** (`ballot_compact.dfy`) store a plaintext ballot as:
- the ballot and style identifiers;
- one flat list of booleans, one per selection of every contest in the manifest;
- a sparse map from slot number to write-in data.

Expansion walks the manifest's contests in ascending sequence order, and each
contest's selections in ascending sequence order. One cursor runs across all
contests. Each selection takes its vote and its extended data from the
cursor's slot. It is flagged as a placeholder when the ballot style does not
cover its contest.

The nested loops of `_get_plaintext_contests` are two methods,
`GetPlaintextContests` and `GetPlaintextSelections`. Each is proved equal to a
specification function (`ExpandContests`, `ExpandSelections`). The
properties are lemmas about those functions:
- contest and selection order;
- counts;
- the flat-cursor correspondence;
- the placeholder rule;
- the extended-data lookup.

Python's stable `sorted(key=sequence_order)` is a verified stable insertion sort
(`stable_sort.dfy`). It is proved sorted, a permutation of its input, and
order-preserving among equal keys. The submitted-ballot expansion copies
fields around the cryptographic calls, which are parameters.

Files:
- `optional.dfy`: `Option` and dictionary `get`.
- `election.dfy`: the manifest records the core reads.
- `ballot.dfy`: the plaintext, ciphertext and submitted ballot records, and `from_ciphertext_ballot`.
- `stable_sort.dfy`: the stable sort.
- `ballot_box.dfy`: the ballot box.
- `ballot_compact.dfy`: compact ballots.

Placeholder selections are meant to be non-effective, but the code (`src/electionguard/ballot_compact.py:118-124`) copies
the compact ballot's boolean verbatim and only sets the placeholder flag. The
model follows the code; `BallotCompact.ExpandExample` shows an out-of-style
selection whose vote stays `true`.

## Model

| member | source | states |
|---|---|---|
| Optional.Get | src/electionguard/ballot_compact.py:123 | dictionary `get`: `Some` exactly when the key is present, and then the stored value; `None` otherwise |
| Ballot.FromCiphertextBallot | src/electionguard/ballot_box.py:74 | the submitted record keeps the ballot's identifier and carries the requested state |
| BallotBox.DataStore.constructor | src/electionguard/ballot_box.py:25 | a new store is empty |
| BallotBox.DataStore.Get | src/electionguard/ballot_box.py:64-65 | the lookup is `Some` exactly when the identifier is stored, and then yields the stored record |
| BallotBox.DataStore.Set | src/electionguard/ballot_box.py:76 | the store afterwards is the old store with that one identifier mapped to the record |
| BallotBox.Accept | src/electionguard/ballot_box.py:61-77 | succeeds iff the ballot is valid and its identifier is not stored. On failure the store is unchanged. On success the result has the ballot's identifier and the requested state, exactly one key is added, and it maps to the result. Every previously stored record is kept unchanged |
| BallotBox.AcceptBallot | src/electionguard/ballot_box.py:48-77 | the validate / look up / tag / store / read-back sequence on a `DataStore` returns and leaves exactly what `Accept` of the old store gives |
| BallotBox.BallotBox.constructor | src/electionguard/ballot_box.py:17-25 | the box keeps the election description and context, with a fresh empty store |
| BallotBox.BallotBox.WithStore | src/electionguard/ballot_box.py:17-25 | the box keeps the description, context and the given store |
| BallotBox.BallotBox.Cast | src/electionguard/ballot_box.py:27-33 | `Accept` with state Cast, against the box's own store |
| BallotBox.BallotBox.Spoil | src/electionguard/ballot_box.py:35-45 | `Accept` with state Spoiled, against the box's own store |
| BallotBox.GetBallots | src/electionguard/ballot_box.py:80-87 | an identifier is in the result iff it is stored and either no state was asked for or its record has the asked state. Each value is the stored record, and the store is only read |
| BallotBox.GetBallotsAll | src/electionguard/ballot_box.py:80-87 | asking with no state returns the whole store |
| BallotBox.GetBallotsPartition | src/electionguard/ballot_box.py:80-87 | the results for two different states share no identifier, and the three states' results together hold every stored identifier |
| BallotBox.AcceptAtMostOnce | src/electionguard/ballot_box.py:64-77 | after a successful accept of an identifier, any later accept of that identifier fails, whatever state or validity, and the stored record stays the first one |
| BallotBox.AcceptAll | src/electionguard/ballot_box.py:64-77 | a run of acceptances yields one result per request |
| BallotBox.AcceptAllAtMostOnce | src/electionguard/ballot_box.py:64-77 | over any run: stored records never change; every success is of an identifier not stored before, with the requested state, and is the record left in the store; no two successes share an identifier |
| BallotBox.AcceptAllSucceedsIff | src/electionguard/ballot_box.py:61-77 | within a run, request k succeeds iff it is valid, its identifier was not stored at the start, and no earlier request of the run was accepted with that identifier |
| StableSort.SortBy | src/electionguard/ballot_compact.py:106-108 | sorting keeps the length |
| StableSort.SortByPermutes | src/electionguard/ballot_compact.py:106-108 | the sorted sequence is a permutation of the input |
| StableSort.SortBySorted | src/electionguard/ballot_compact.py:106-108 | the sorted sequence is in ascending key order |
| StableSort.SortByStable | src/electionguard/ballot_compact.py:106-108 | elements with equal keys keep their input order, as Python's `sorted` guarantees |
| BallotCompact.TotalSelectionsOrdered | src/electionguard/ballot_compact.py:106-108 | sorting the contests does not change the total number of selection slots |
| BallotCompact.ContestIdsMember | src/electionguard/ballot_compact.py:109-111 | an identifier is among the style's contest identifiers iff some style contest has it |
| BallotCompact.ContestsById | src/electionguard/ballot_compact.py:138 | the dictionary's keys are exactly the contests' identifiers, and each maps to the last contest with that identifier |
| BallotCompact.GetBallotStyleContests | src/electionguard/ballot_compact.py:134-138 | the style lookup is keyed by the identifiers of the contests `get_contests_for` returns for the style |
| BallotCompact.ExpandSelections | src/electionguard/ballot_compact.py:114-126 | one expanded selection per manifest selection |
| BallotCompact.ExpandContests | src/electionguard/ballot_compact.py:105-131 | one expanded contest per manifest contest |
| BallotCompact.GetPlaintextSelections | src/electionguard/ballot_compact.py:114-126 | the inner loop builds exactly `ExpandSelections` of the contest's selections in sequence order, and advances the cursor by the contest's selection count |
| BallotCompact.GetPlaintextContests | src/electionguard/ballot_compact.py:96-131 | given at least as many slots as manifest selections, the nested loops build exactly the contests `ExpandContests` specifies |
| BallotCompact.ExpandSelectionsAt | src/electionguard/ballot_compact.py:115-126 | selection `j` of a contest names selection `j`'s candidate and takes the vote and extended data of slot start + j |
| BallotCompact.ExpandContestsAt | src/electionguard/ballot_compact.py:100-130 | contest `i` is expanded with the cursor at the number of slots of the contests before it, and that contest's slots are in range |
| BallotCompact.FlattenExpandContestsLength | src/electionguard/ballot_compact.py:100-126 | as many selections are emitted, across all contests, as the contests have slots: the cursor ends at the total |
| BallotCompact.FlattenExpandContestsAt | src/electionguard/ballot_compact.py:100-126 | the k-th selection emitted overall takes its vote and extended data from slot k |
| BallotCompact.ExpandedSelectionAt | src/electionguard/ballot_compact.py:106-130 | selection `j` of contest `i` has that contest's identifier and candidate `j` in sequence order. It takes its vote and extended data from cursor (slots before contest `i`) + `j`, and is a placeholder iff the contest is not in the style lookup |
| BallotCompact.PlaintextSelectionAt | src/electionguard/ballot_compact.py:106-130 | the same on the whole expansion, with the contests in sequence order; the placeholder flag is set iff the contest's identifier is not among the style's contest identifiers |
| BallotCompact.PlaceholderIffOutOfStyle | src/electionguard/ballot_compact.py:109-122 | a selection is a placeholder iff no contest of the ballot's style has its contest's identifier |
| BallotCompact.PlaintextContestsOrder | src/electionguard/ballot_compact.py:106-131 | one contest per manifest contest, each with one selection per manifest selection. The contests follow a sorted, stable permutation of the manifest's, and the emitted selections number the total slot count |
| BallotCompact.OrderedSelectionsInSequenceOrder | src/electionguard/ballot_compact.py:115-117 | a contest's selections are taken sorted by sequence order, as a stable permutation of the manifest's |
| BallotCompact.FlatCursorCorrespondence | src/electionguard/ballot_compact.py:100-126 | on the expanded plaintext ballot, the k-th selection overall has the vote of slot k, and the extended data stored for k or none |
| BallotCompact.ExpandCompactPlaintextBallot | src/electionguard/ballot_compact.py:85-93 | the expanded ballot keeps the compact ballot's identifier and style, with one contest per manifest contest |
| BallotCompact.ExpandCompactSubmittedBallot | src/electionguard/ballot_compact.py:46-82 | defined iff encryption returns contests. The submitted ballot then copies the expanded ballot's identifier and style, the description hash, the timestamp and the ballot-box state. The tracking hashes and nonce are the converted integers. The contests are the encryption's result, and the crypto hash is the ballot hash of identifier, description hash and those contests |
| BallotCompact.ExpandExample | src/electionguard/ballot_compact.py:96-131 | a worked ballot: contests and selections listed out of order come out in sequence order, slot 1's write-in lands on the second selection, and the out-of-style contest's selection is a placeholder whose vote stays `true` |

## Left out

- Cryptography. `int_to_q_unchecked`, `encrypt_ballot_contests` and `create_ballot_hash` are function parameters (`Externals`), so only the field copying around them is proved. The nonce round trip depends on the encryptor and is not stated.
- `get_optional` raising on a missing encryption result is modelled as `ExpandCompactSubmittedBallot` returning `None`. The exception itself is not part of this model.
- `ballot_is_valid_for_election` is a boolean-valued function parameter of `AcceptBallot`, `Cast` and `Spoil`; the validator is not part of this model.
- Ballot.FromCiphertextBallot: `from_ciphertext_ballot` is in `src/electionguard/ballot.py`, which is not part of this model. Only the identifier and the requested state come from its call site and are promised. The body is a stand-in that copies the other ciphertext fields and drops the nonce, and no contract relies on those fields.
- `log_warning` on a duplicate identifier is logging I/O, with no effect on the result.
- `DataStore` internals are not part of this model. Only map semantics for `get`, `set` and `items` are kept.
- Concurrency: the check-then-set is not atomic in the source, and the model is single-threaded as the source is.
- The TODO on regenerating proofs or nonces in `accept_ballot` is unimplemented in the source and not modelled.
- `InternalElectionDescription.get_contests_for` is in a file not part of this model; it is a function field of the description.
- BallotCompact.GetPlaintextContests: requires at least as many slots as manifest selections. The source indexes without a bounds check and raises `IndexError` otherwise, and that error path is not modelled.
- BallotCompact.GetPlaintextSelections: the inner loop of `_get_plaintext_contests` is a separate method with its own cursor result, rather than inline code sharing the outer loop's variables.
- Ciphertexts, proofs and group elements are plain integers and records: no group arithmetic or bounds on them are modelled.
