/**
 * Compact ballots: a plaintext ballot reduced to one flat list of selection
 * booleans in manifest order, a sparse map of write-in data, and the stored
 * nonce and hashes. Expansion walks the manifest in sequence order to rebuild
 * the plaintext ballot, then re-encrypts and re-hashes it.
 */
module BallotCompact {
  import opened Optional
  import opened Election
  import opened Ballot
  import StableSort

  datatype CompactPlaintextBallot = CompactPlaintextBallot(
    objectId: string,
    styleId: string,
    selections: seq<bool>,
    extraData: map<int, ExtendedData>)

  datatype CompactSubmittedBallot = CompactSubmittedBallot(
    compactPlaintextBallot: CompactPlaintextBallot,
    timestamp: int,
    ballotNonce: int,
    previousTrackingHash: int,
    trackingHash: int,
    ballotBoxState: BallotBoxState)

  /**
   * The cryptographic operations expansion calls but does not define:
   * `int_to_q_unchecked`, `encrypt_ballot_contests` (None when encryption
   * fails) and `create_ballot_hash`.
   */
  datatype Externals = Externals(
    intToQUnchecked: int -> ElementModQ,
    encryptBallotContests: (PlaintextBallot, InternalElectionDescription, CiphertextElectionContext, ElementModQ)
                           -> Option<seq<CiphertextBallotContest>>,
    createBallotHash: (string, ElementModQ, seq<CiphertextBallotContest>) -> ElementModQ)

  // ---------------------------------------------------------------------------
  // Manifest order and selection counts

  function ContestOrder(c: ContestDescription): int { c.sequenceOrder }

  function SelectionOrder(s: SelectionDescription): int { s.sequenceOrder }

  /** The manifest's contests, stably sorted by sequence order. */
  function OrderedContests(cs: seq<ContestDescription>): seq<ContestDescription>
  {
    StableSort.SortBy(cs, ContestOrder)
  }

  /** A contest's selections, stably sorted by sequence order. */
  function OrderedSelections(c: ContestDescription): seq<SelectionDescription>
  {
    StableSort.SortBy(c.ballotSelections, SelectionOrder)
  }

  /** The number of selection slots of the contests `cs`, summed over them. */
  function TotalSelections(cs: seq<ContestDescription>): nat
  {
    if cs == [] then 0
    else TotalSelections(cs[..|cs| - 1]) + |cs[|cs| - 1].ballotSelections|
  }

  lemma {:induction false} TotalSelectionsCons(c: ContestDescription, cs: seq<ContestDescription>)
    ensures TotalSelections([c] + cs) == |c.ballotSelections| + TotalSelections(cs)
    decreases |cs|
  {
    if cs != [] {
      assert ([c] + cs)[..|cs|] == [c] + cs[..|cs| - 1];
      TotalSelectionsCons(c, cs[..|cs| - 1]);
    } else {
      assert ([c] + cs)[..0] == [];
    }
  }

  lemma {:induction false} TotalSelectionsInsert(c: ContestDescription, cs: seq<ContestDescription>)
    ensures TotalSelections(StableSort.Insert(c, cs, ContestOrder)) == |c.ballotSelections| + TotalSelections(cs)
  {
    if cs == [] || ContestOrder(c) <= ContestOrder(cs[0]) {
      TotalSelectionsCons(c, cs);
    } else {
      TotalSelectionsInsert(c, cs[1..]);
      TotalSelectionsCons(cs[0], StableSort.Insert(c, cs[1..], ContestOrder));
      TotalSelectionsCons(cs[0], cs[1..]);
      assert [cs[0]] + cs[1..] == cs;
    }
  }

  /** Sorting the contests does not change how many selection slots they hold. */
  lemma {:induction false} TotalSelectionsOrdered(cs: seq<ContestDescription>)
    ensures TotalSelections(OrderedContests(cs)) == TotalSelections(cs)
  {
    if cs != [] {
      TotalSelectionsOrdered(cs[1..]);
      TotalSelectionsInsert(cs[0], OrderedContests(cs[1..]));
      TotalSelectionsCons(cs[0], cs[1..]);
      assert [cs[0]] + cs[1..] == cs;
    }
  }

  /** The slots of the contests before `cs[i]` and of `cs[i]` itself all lie within the total. */
  lemma {:induction false} TotalSelectionsPrefix(cs: seq<ContestDescription>, i: nat)
    requires i < |cs|
    ensures TotalSelections(cs[..i + 1]) == TotalSelections(cs[..i]) + |cs[i].ballotSelections|
    ensures TotalSelections(cs[..i + 1]) <= TotalSelections(cs)
    decreases |cs|
  {
    assert cs[..i + 1][..i] == cs[..i];
    if i + 1 < |cs| {
      var prefix := cs[..|cs| - 1];
      TotalSelectionsPrefix(prefix, i);
      assert prefix[..i + 1] == cs[..i + 1] && prefix[..i] == cs[..i];
    } else {
      assert cs[..i + 1] == cs;
    }
  }

  // ---------------------------------------------------------------------------
  // Style contests

  /** The identifiers of the contests `cs`. */
  function ContestIds(cs: seq<ContestDescription>): set<string>
  {
    if cs == [] then {} else ContestIds(cs[..|cs| - 1]) + {cs[|cs| - 1].objectId}
  }

  lemma {:induction false} ContestIdsMember(cs: seq<ContestDescription>, id: string)
    ensures id in ContestIds(cs) <==> exists k | 0 <= k < |cs| :: cs[k].objectId == id
  {
    if cs != [] {
      var prefix := cs[..|cs| - 1];
      ContestIdsMember(prefix, id);
      if id in ContestIds(prefix) {
        var k :| 0 <= k < |prefix| && prefix[k].objectId == id;
        assert cs[k].objectId == id;
      }
      if exists k | 0 <= k < |cs| :: cs[k].objectId == id {
        var k :| 0 <= k < |cs| && cs[k].objectId == id;
        if k < |prefix| { assert prefix[k].objectId == id; }
      }
    }
  }

  /**
   * `m` is the dictionary keyed by contest identifier built from `cs`: its
   * keys are the identifiers of `cs`, and each key maps to the last contest of
   * `cs` that carries it (a later entry of a dictionary comprehension
   * overwrites an earlier one).
   */
  ghost predicate KeyedByLastId(m: map<string, ContestDescription>, cs: seq<ContestDescription>)
  {
    && m.Keys == ContestIds(cs)
    && forall id | id in m :: exists k | 0 <= k < |cs| ::
         && m[id] == cs[k] && cs[k].objectId == id
         && forall j | k < j < |cs| :: cs[j].objectId != id
  }

  /** The dictionary comprehension, one contest at a time. */
  function ContestsById(cs: seq<ContestDescription>): (r: map<string, ContestDescription>)
    ensures KeyedByLastId(r, cs)
    decreases |cs|
  {
    if cs == [] then map[]
    else
      var byId := ContestsById(cs[..|cs| - 1]);
      ContestsByIdStep(cs, byId);
      byId[cs[|cs| - 1].objectId := cs[|cs| - 1]]
  }

  /** Adding the last contest to the dictionary built from the others. */
  lemma ContestsByIdStep(cs: seq<ContestDescription>, byId: map<string, ContestDescription>)
    requires cs != [] && KeyedByLastId(byId, cs[..|cs| - 1])
    ensures KeyedByLastId(byId[cs[|cs| - 1].objectId := cs[|cs| - 1]], cs)
  {
    var prefix, last := cs[..|cs| - 1], cs[|cs| - 1];
    var r := byId[last.objectId := last];
    forall id | id in r
      ensures exists k | 0 <= k < |cs| ::
                && r[id] == cs[k] && cs[k].objectId == id
                && forall j | k < j < |cs| :: cs[j].objectId != id
    {
      if id == last.objectId {
        assert r[id] == cs[|cs| - 1];
      } else {
        var k :| 0 <= k < |prefix| && byId[id] == prefix[k] && prefix[k].objectId == id
                 && forall j | k < j < |prefix| :: prefix[j].objectId != id;
        assert r[id] == cs[k];
      }
    }
  }

  /** `_get_ballot_style_contests`: the style's contests keyed by their identifiers. */
  function GetBallotStyleContests(styleId: string, description: InternalElectionDescription): (r: map<string, ContestDescription>)
    ensures KeyedByLastId(r, description.contestsFor(styleId))
  {
    ContestsById(description.contestsFor(styleId))
  }

  // ---------------------------------------------------------------------------
  // Expansion of the plaintext ballot

  /** The selection built for the manifest selection `s` at flat cursor position `index`. */
  function ExpandedSelection(s: SelectionDescription, compact: CompactPlaintextBallot, index: nat, isPlaceholder: bool): PlaintextBallotSelection
    requires index < |compact.selections|
  {
    PlaintextBallotSelection(s.candidateId, compact.selections[index], isPlaceholder, Get(compact.extraData, index))
  }

  /** The selections of one contest, whose first slot is at cursor position `start`. */
  function ExpandSelections(sels: seq<SelectionDescription>, compact: CompactPlaintextBallot, start: nat, isPlaceholder: bool): (r: seq<PlaintextBallotSelection>)
    requires start + |sels| <= |compact.selections|
    ensures |r| == |sels|
    decreases |sels|
  {
    if sels == [] then []
    else
      ExpandSelections(sels[..|sels| - 1], compact, start, isPlaceholder)
      + [ExpandedSelection(sels[|sels| - 1], compact, start + |sels| - 1, isPlaceholder)]
  }

  /** Extending the prefix `sels[..j]` by one selection appends the selection at cursor `start + j`. */
  lemma ExpandSelectionsSnoc(sels: seq<SelectionDescription>, compact: CompactPlaintextBallot, start: nat, isPlaceholder: bool, j: nat)
    requires j < |sels| && start + |sels| <= |compact.selections|
    ensures ExpandSelections(sels[..j + 1], compact, start, isPlaceholder)
         == ExpandSelections(sels[..j], compact, start, isPlaceholder) + [ExpandedSelection(sels[j], compact, start + j, isPlaceholder)]
  {
    assert sels[..j + 1][..j] == sels[..j];
  }

  /** One contest: its selections in sequence order, placeholders when the style does not cover it. */
  function ExpandContest(c: ContestDescription, compact: CompactPlaintextBallot, styleContests: map<string, ContestDescription>, start: nat): PlaintextBallotContest
    requires start + |c.ballotSelections| <= |compact.selections|
  {
    PlaintextBallotContest(c.objectId, ExpandSelections(OrderedSelections(c), compact, start, c.objectId !in styleContests))
  }

  /** The contests `cs`, in the given order, with the cursor starting at 0. */
  function ExpandContests(cs: seq<ContestDescription>, compact: CompactPlaintextBallot, styleContests: map<string, ContestDescription>): (r: seq<PlaintextBallotContest>)
    requires TotalSelections(cs) <= |compact.selections|
    ensures |r| == |cs|
    decreases |cs|
  {
    if cs == [] then []
    else
      var prefix := cs[..|cs| - 1];
      ExpandContests(prefix, compact, styleContests)
      + [ExpandContest(cs[|cs| - 1], compact, styleContests, TotalSelections(prefix))]
  }

  /** What `_get_plaintext_contests` returns. */
  function PlaintextContests(compact: CompactPlaintextBallot, description: InternalElectionDescription): seq<PlaintextBallotContest>
    requires TotalSelections(description.contests) <= |compact.selections|
  {
    TotalSelectionsOrdered(description.contests);
    ExpandContests(OrderedContests(description.contests), compact, GetBallotStyleContests(compact.styleId, description))
  }

  /**
   * `_get_plaintext_contests`: walk the contests and then their selections in
   * sequence order, with one cursor over the flat selection list.
   */
  method GetPlaintextContests(compact: CompactPlaintextBallot, description: InternalElectionDescription)
    returns (contests: seq<PlaintextBallotContest>)
    requires TotalSelections(description.contests) <= |compact.selections|
    ensures contests == PlaintextContests(compact, description)
  {
    var index := 0;
    var ballotStyleContests := GetBallotStyleContests(compact.styleId, description);
    var ordered := OrderedContests(description.contests);
    TotalSelectionsOrdered(description.contests);
    contests := [];
    for i := 0 to |ordered|
      invariant index == TotalSelections(ordered[..i]) <= |compact.selections|
      invariant contests == ExpandContests(ordered[..i], compact, ballotStyleContests)
    {
      var contest := ordered[i];
      var contestInStyle := contest.objectId in ballotStyleContests;
      TotalSelectionsPrefix(ordered, i);
      var selections;
      selections, index := GetPlaintextSelections(contest, compact, index, !contestInStyle);
      assert ordered[..i + 1][..i] == ordered[..i];
      contests := contests + [PlaintextBallotContest(contest.objectId, selections)];
    }
    assert ordered[..|ordered|] == ordered;
  }

  /**
   * The inner loop of `_get_plaintext_contests`: one contest's selections in
   * sequence order, reading the flat list from cursor `start` on; returns the
   * advanced cursor.
   */
  method GetPlaintextSelections(contest: ContestDescription, compact: CompactPlaintextBallot, start: nat, isPlaceholder: bool)
    returns (selections: seq<PlaintextBallotSelection>, index: nat)
    requires start + |contest.ballotSelections| <= |compact.selections|
    ensures selections == ExpandSelections(OrderedSelections(contest), compact, start, isPlaceholder)
    ensures index == start + |contest.ballotSelections|
  {
    index := start;
    var sorted := OrderedSelections(contest);
    selections := [];
    for j := 0 to |sorted|
      invariant index == start + j
      invariant selections == ExpandSelections(sorted[..j], compact, start, isPlaceholder)
    {
      ExpandSelectionsSnoc(sorted, compact, start, isPlaceholder, j);
      selections := selections + [PlaintextBallotSelection(
        sorted[j].candidateId,
        compact.selections[index],
        isPlaceholder,
        Get(compact.extraData, index))];
      index := index + 1;
    }
    assert sorted[..|sorted|] == sorted;
  }

  /** `expand_compact_plaintext_ballot` */
  function ExpandCompactPlaintextBallot(compact: CompactPlaintextBallot, description: InternalElectionDescription): (r: PlaintextBallot)
    requires TotalSelections(description.contests) <= |compact.selections|
    ensures r.objectId == compact.objectId && r.ballotStyle == compact.styleId
    ensures |r.contests| == |description.contests|
  {
    TotalSelectionsOrdered(description.contests);
    PlaintextBallot(compact.objectId, compact.styleId, PlaintextContests(compact, description))
  }

  /**
   * `expand_compact_submitted_ballot`: convert the stored integers, expand the
   * plaintext, re-encrypt it with the stored nonce and hash the result. None
   * when the encryption fails.
   */
  function ExpandCompactSubmittedBallot(
    compactBallot: CompactSubmittedBallot,
    description: InternalElectionDescription,
    context: CiphertextElectionContext,
    ext: Externals): (r: Option<SubmittedBallot>)
    requires TotalSelections(description.contests) <= |compactBallot.compactPlaintextBallot.selections|
    ensures var plaintext := ExpandCompactPlaintextBallot(compactBallot.compactPlaintextBallot, description);
            var nonce := ext.intToQUnchecked(compactBallot.ballotNonce);
            var encrypted := ext.encryptBallotContests(plaintext, description, context, nonce);
            && (r.Some? <==> encrypted.Some?)
            && (r.Some? ==>
                && r.value.objectId == compactBallot.compactPlaintextBallot.objectId
                && r.value.styleId == compactBallot.compactPlaintextBallot.styleId
                && r.value.descriptionHash == description.descriptionHash
                && r.value.previousTrackingHash == ext.intToQUnchecked(compactBallot.previousTrackingHash)
                && r.value.trackingHash == ext.intToQUnchecked(compactBallot.trackingHash)
                && r.value.timestamp == compactBallot.timestamp
                && r.value.nonce == Some(nonce)
                && r.value.state == compactBallot.ballotBoxState
                && r.value.contests == encrypted.value
                && r.value.cryptoHash == ext.createBallotHash(
                     compactBallot.compactPlaintextBallot.objectId, description.descriptionHash, r.value.contests))
  {
    var trackingHash := ext.intToQUnchecked(compactBallot.trackingHash);
    var previousTrackingHash := ext.intToQUnchecked(compactBallot.previousTrackingHash);
    var ballotNonce := ext.intToQUnchecked(compactBallot.ballotNonce);
    var plaintextBallot := ExpandCompactPlaintextBallot(compactBallot.compactPlaintextBallot, description);
    match ext.encryptBallotContests(plaintextBallot, description, context, ballotNonce)
    case None => None
    case Some(contests) =>
      var cryptoHash := ext.createBallotHash(plaintextBallot.objectId, description.descriptionHash, contests);
      Some(SubmittedBallot(
        plaintextBallot.objectId,
        plaintextBallot.ballotStyle,
        description.descriptionHash,
        previousTrackingHash,
        contests,
        trackingHash,
        compactBallot.timestamp,
        cryptoHash,
        Some(ballotNonce),
        compactBallot.ballotBoxState))
  }

  // ---------------------------------------------------------------------------
  // What expansion produces, slot by slot

  /** Selection `j` of a contest is built from cursor position `start + j`. */
  lemma {:induction false} ExpandSelectionsAt(sels: seq<SelectionDescription>, compact: CompactPlaintextBallot, start: nat, isPlaceholder: bool, j: nat)
    requires start + |sels| <= |compact.selections| && j < |sels|
    ensures ExpandSelections(sels, compact, start, isPlaceholder)[j]
         == PlaintextBallotSelection(sels[j].candidateId, compact.selections[start + j], isPlaceholder, Get(compact.extraData, start + j))
    decreases |sels|
  {
    if j < |sels| - 1 {
      ExpandSelectionsAt(sels[..|sels| - 1], compact, start, isPlaceholder, j);
    }
  }

  /** Contest `i` is expanded with the cursor at the number of slots of the contests before it. */
  lemma {:induction false} ExpandContestsAt(cs: seq<ContestDescription>, compact: CompactPlaintextBallot, styleContests: map<string, ContestDescription>, i: nat)
    requires TotalSelections(cs) <= |compact.selections| && i < |cs|
    ensures TotalSelections(cs[..i]) + |cs[i].ballotSelections| <= |compact.selections|
    ensures ExpandContests(cs, compact, styleContests)[i] == ExpandContest(cs[i], compact, styleContests, TotalSelections(cs[..i]))
    decreases |cs|
  {
    TotalSelectionsPrefix(cs, i);
    var prefix := cs[..|cs| - 1];
    if i < |cs| - 1 {
      ExpandContestsAt(prefix, compact, styleContests, i);
      assert prefix[..i] == cs[..i];
    } else {
      assert prefix == cs[..i];
    }
  }

  /** All selections of `contests`, contest after contest: the order of the flat cursor. */
  function Flatten(contests: seq<PlaintextBallotContest>): seq<PlaintextBallotSelection>
  {
    if contests == [] then []
    else Flatten(contests[..|contests| - 1]) + contests[|contests| - 1].ballotSelections
  }

  /** As many selections are emitted as the contests have slots. */
  lemma {:induction false} FlattenExpandContestsLength(cs: seq<ContestDescription>, compact: CompactPlaintextBallot, styleContests: map<string, ContestDescription>)
    requires TotalSelections(cs) <= |compact.selections|
    ensures |Flatten(ExpandContests(cs, compact, styleContests))| == TotalSelections(cs)
    decreases |cs|
  {
    if cs != [] {
      var prefix := cs[..|cs| - 1];
      var expanded := ExpandContests(cs, compact, styleContests);
      FlattenExpandContestsLength(prefix, compact, styleContests);
      assert expanded[..|expanded| - 1] == ExpandContests(prefix, compact, styleContests);
    }
  }

  /**
   * The flat cursor: the k-th selection emitted overall, counting across
   * contest boundaries, takes its vote and its extended data from slot k.
   */
  lemma {:induction false} FlattenExpandContestsAt(cs: seq<ContestDescription>, compact: CompactPlaintextBallot, styleContests: map<string, ContestDescription>, k: nat)
    requires TotalSelections(cs) <= |compact.selections| && k < TotalSelections(cs)
    ensures |Flatten(ExpandContests(cs, compact, styleContests))| == TotalSelections(cs)
    ensures Flatten(ExpandContests(cs, compact, styleContests))[k].vote == compact.selections[k]
    ensures Flatten(ExpandContests(cs, compact, styleContests))[k].extendedData == Get(compact.extraData, k)
    decreases |cs|
  {
    FlattenExpandContestsLength(cs, compact, styleContests);
    var prefix, last := cs[..|cs| - 1], cs[|cs| - 1];
    var start := TotalSelections(prefix);
    var expanded := ExpandContests(cs, compact, styleContests);
    var before := ExpandContests(prefix, compact, styleContests);
    var tail := ExpandSelections(OrderedSelections(last), compact, start, last.objectId !in styleContests);
    assert expanded == before + [ExpandContest(last, compact, styleContests, start)];
    assert expanded[..|expanded| - 1] == before;
    assert Flatten(expanded) == Flatten(before) + tail;
    FlattenExpandContestsLength(prefix, compact, styleContests);
    var selection := Flatten(expanded)[k];
    if k < start {
      FlattenExpandContestsAt(prefix, compact, styleContests, k);
      assert selection == Flatten(before)[k];
    } else {
      assert selection == tail[k - start];
      ExpandSelectionsAt(OrderedSelections(last), compact, start, last.objectId !in styleContests, k - start);
      assert selection.vote == compact.selections[start + (k - start)];
    }
  }

  /** Selection `j` of contest `i`: the two cursors combined. */
  lemma ExpandedSelectionAt(cs: seq<ContestDescription>, compact: CompactPlaintextBallot, styleContests: map<string, ContestDescription>, i: nat, j: nat)
    requires TotalSelections(cs) <= |compact.selections| && i < |cs| && j < |cs[i].ballotSelections|
    ensures var contest := ExpandContests(cs, compact, styleContests)[i];
            var cursor := TotalSelections(cs[..i]);
            && contest.objectId == cs[i].objectId
            && |contest.ballotSelections| == |cs[i].ballotSelections|
            && cursor + j < |compact.selections|
            && contest.ballotSelections[j] == PlaintextBallotSelection(
                 OrderedSelections(cs[i])[j].candidateId,
                 compact.selections[cursor + j],
                 cs[i].objectId !in styleContests,
                 Get(compact.extraData, cursor + j))
  {
    ExpandContestsAt(cs, compact, styleContests, i);
    ExpandSelectionsAt(OrderedSelections(cs[i]), compact, TotalSelections(cs[..i]), cs[i].objectId !in styleContests, j);
  }

  /**
   * Slot by slot: contest `i` of the expansion is the i-th manifest contest in
   * sequence order; its selection `j` names the j-th selection of that contest
   * in sequence order, copies the vote and the extended data at cursor
   * position (slots of the earlier contests) + j, and is a placeholder exactly
   * when the ballot style does not cover the contest.
   */
  lemma PlaintextSelectionAt(compact: CompactPlaintextBallot, description: InternalElectionDescription, i: nat, j: nat)
    requires TotalSelections(description.contests) <= |compact.selections|
    requires i < |description.contests|
    requires j < |OrderedContests(description.contests)[i].ballotSelections|
    ensures var ordered := OrderedContests(description.contests);
            var contest := PlaintextContests(compact, description)[i];
            var cursor := TotalSelections(ordered[..i]);
            && contest.objectId == ordered[i].objectId
            && |contest.ballotSelections| == |ordered[i].ballotSelections|
            && cursor + j < |compact.selections|
            && contest.ballotSelections[j] == PlaintextBallotSelection(
                 OrderedSelections(ordered[i])[j].candidateId,
                 compact.selections[cursor + j],
                 ordered[i].objectId !in ContestIds(description.contestsFor(compact.styleId)),
                 Get(compact.extraData, cursor + j))
  {
    var ordered := OrderedContests(description.contests);
    var styleContests := GetBallotStyleContests(compact.styleId, description);
    TotalSelectionsOrdered(description.contests);
    assert PlaintextContests(compact, description) == ExpandContests(ordered, compact, styleContests);
    assert styleContests.Keys == ContestIds(description.contestsFor(compact.styleId));
    ExpandedSelectionAt(ordered, compact, styleContests, i, j);
  }

  /**
   * The placeholder flag of every selection of contest `i` is set exactly when
   * no contest of the ballot's style has that contest's identifier.
   */
  lemma PlaceholderIffOutOfStyle(compact: CompactPlaintextBallot, description: InternalElectionDescription, i: nat, j: nat)
    requires TotalSelections(description.contests) <= |compact.selections|
    requires i < |description.contests|
    requires j < |OrderedContests(description.contests)[i].ballotSelections|
    ensures var contest := PlaintextContests(compact, description)[i];
            var styleContests := description.contestsFor(compact.styleId);
            && j < |contest.ballotSelections|
            && (contest.ballotSelections[j].isPlaceholderSelection <==>
                  forall k | 0 <= k < |styleContests| :: styleContests[k].objectId != contest.objectId)
  {
    PlaintextSelectionAt(compact, description, i, j);
    ContestIdsMember(description.contestsFor(compact.styleId), OrderedContests(description.contests)[i].objectId);
  }

  /**
   * Order: one expanded contest per manifest contest, in ascending sequence
   * order (ties keep manifest order), each with one selection per manifest
   * selection; the flat cursor ends at the total number of selection slots.
   */
  lemma PlaintextContestsOrder(compact: CompactPlaintextBallot, description: InternalElectionDescription)
    requires TotalSelections(description.contests) <= |compact.selections|
    ensures var ordered := OrderedContests(description.contests);
            var contests := PlaintextContests(compact, description);
            && |contests| == |description.contests|
            && (forall i | 0 <= i < |contests| ::
                  contests[i].objectId == ordered[i].objectId
                  && |contests[i].ballotSelections| == |ordered[i].ballotSelections|)
            && StableSort.SortedBy(ordered, ContestOrder)
            && multiset(ordered) == multiset(description.contests)
            && (forall k :: StableSort.WithKey(ordered, ContestOrder, k) == StableSort.WithKey(description.contests, ContestOrder, k))
            && |Flatten(contests)| == TotalSelections(description.contests)
  {
    var ordered := OrderedContests(description.contests);
    var styleContests := GetBallotStyleContests(compact.styleId, description);
    TotalSelectionsOrdered(description.contests);
    forall i | 0 <= i < |ordered|
      ensures PlaintextContests(compact, description)[i].objectId == ordered[i].objectId
      ensures |PlaintextContests(compact, description)[i].ballotSelections| == |ordered[i].ballotSelections|
    {
      ExpandContestsAt(ordered, compact, styleContests, i);
    }
    StableSort.SortBySorted(description.contests, ContestOrder);
    StableSort.SortByPermutes(description.contests, ContestOrder);
    forall k ensures StableSort.WithKey(ordered, ContestOrder, k) == StableSort.WithKey(description.contests, ContestOrder, k) {
      StableSort.SortByStable(description.contests, ContestOrder, k);
    }
    FlattenExpandContestsLength(ordered, compact, styleContests);
  }

  /** Within a contest the selections are taken in ascending sequence order, ties in manifest order. */
  lemma OrderedSelectionsInSequenceOrder(c: ContestDescription)
    ensures var sorted := OrderedSelections(c);
            && StableSort.SortedBy(sorted, SelectionOrder)
            && multiset(sorted) == multiset(c.ballotSelections)
            && forall k :: StableSort.WithKey(sorted, SelectionOrder, k) == StableSort.WithKey(c.ballotSelections, SelectionOrder, k)
  {
    StableSort.SortBySorted(c.ballotSelections, SelectionOrder);
    StableSort.SortByPermutes(c.ballotSelections, SelectionOrder);
    forall k ensures StableSort.WithKey(OrderedSelections(c), SelectionOrder, k) == StableSort.WithKey(c.ballotSelections, SelectionOrder, k) {
      StableSort.SortByStable(c.ballotSelections, SelectionOrder, k);
    }
  }

  /**
   * The flat cursor over the whole ballot: the k-th selection of the expanded
   * ballot, counting across contests, has the vote and extended data of slot k.
   */
  lemma FlatCursorCorrespondence(compact: CompactPlaintextBallot, description: InternalElectionDescription, k: nat)
    requires TotalSelections(description.contests) <= |compact.selections|
    requires k < TotalSelections(description.contests)
    ensures var flat := Flatten(ExpandCompactPlaintextBallot(compact, description).contests);
            && k < |flat|
            && flat[k].vote == compact.selections[k]
            && flat[k].extendedData == Get(compact.extraData, k)
  {
    TotalSelectionsOrdered(description.contests);
    FlattenExpandContestsAt(OrderedContests(description.contests), compact, GetBallotStyleContests(compact.styleId, description), k);
  }

  // ---------------------------------------------------------------------------
  // A worked ballot

  /**
   * Two contests listed out of sequence order, the second outside the ballot
   * style, and three slots `[true, false, true]` with extended data on slot 1:
   * the contests and selections come out in sequence order, slot 1 carries
   * the write-in, and the out-of-style selection is a placeholder whose vote
   * stays `true`.
   */
  lemma ExpandExample()
    ensures var a1 := SelectionDescription("a1", "cand-a1", 1);
            var a2 := SelectionDescription("a2", "cand-a2", 0);
            var b1 := SelectionDescription("b1", "cand-b1", 0);
            var contestA := ContestDescription("contest-a", 0, [a1, a2]);
            var contestB := ContestDescription("contest-b", 1, [b1]);
            var description := InternalElectionDescription(
              ElementModQ(0), [contestB, contestA],
              (style: string) => if style == "style-1" then [contestA] else []);
            var writeIn := ExtendedData("write-in", 8);
            var compact := CompactPlaintextBallot("ballot-1", "style-1", [true, false, true], map[1 := writeIn]);
            && TotalSelections(description.contests) == |compact.selections|
            && ExpandCompactPlaintextBallot(compact, description) == PlaintextBallot("ballot-1", "style-1", [
                 PlaintextBallotContest("contest-a", [
                   PlaintextBallotSelection("cand-a2", true, false, None),
                   PlaintextBallotSelection("cand-a1", false, false, Some(writeIn))]),
                 PlaintextBallotContest("contest-b", [
                   PlaintextBallotSelection("cand-b1", true, true, None)])])
  {
    var a1 := SelectionDescription("a1", "cand-a1", 1);
    var a2 := SelectionDescription("a2", "cand-a2", 0);
    var b1 := SelectionDescription("b1", "cand-b1", 0);
    var contestA := ContestDescription("contest-a", 0, [a1, a2]);
    var contestB := ContestDescription("contest-b", 1, [b1]);
    var contests := [contestB, contestA];
    assert contests[1..] == [contestA] && contests[..1] == [contestB];
    assert TotalSelections(contests) == 3 by {
      assert TotalSelections([contestB]) == 1 by { assert [contestB][..0] == []; }
    }
    assert OrderedContests(contests) == [contestA, contestB] by {
      assert StableSort.SortBy([contestA], ContestOrder) == [contestA] by { assert [contestA][1..] == []; }
      assert StableSort.Insert(contestB, [contestA], ContestOrder) == [contestA, contestB] by { assert [contestA][1..] == []; }
    }
    assert OrderedSelections(contestA) == [a2, a1] by {
      assert [a1, a2][1..] == [a2] && [a2][1..] == [];
      assert StableSort.SortBy([a2], SelectionOrder) == [a2];
      assert StableSort.Insert(a1, [a2], SelectionOrder) == [a2, a1];
    }
    assert OrderedSelections(contestB) == [b1] by { assert [b1][1..] == []; }

    var description := InternalElectionDescription(
      ElementModQ(0), contests,
      (style: string) => if style == "style-1" then [contestA] else []);
    var writeIn := ExtendedData("write-in", 8);
    var compact := CompactPlaintextBallot("ballot-1", "style-1", [true, false, true], map[1 := writeIn]);
    var styleContests := GetBallotStyleContests("style-1", description);
    assert styleContests.Keys == {"contest-a"} by {
      assert ContestIds([contestA]) == {"contest-a"} by { assert [contestA][..0] == []; }
    }
    var expandedA := PlaintextBallotContest("contest-a", [
      PlaintextBallotSelection("cand-a2", true, false, None),
      PlaintextBallotSelection("cand-a1", false, false, Some(writeIn))]);
    var expandedB := PlaintextBallotContest("contest-b", [PlaintextBallotSelection("cand-b1", true, true, None)]);
    assert ExpandContest(contestA, compact, styleContests, 0) == expandedA by {
      assert "contest-a" in styleContests;
      assert [a2, a1][..1] == [a2] && [a2][..0] == [];
      assert ExpandSelections([a2], compact, 0, false) == [ExpandedSelection(a2, compact, 0, false)];
      assert Get(compact.extraData, 0) == None && Get(compact.extraData, 1) == Some(writeIn);
    }
    assert ExpandContest(contestB, compact, styleContests, 2) == expandedB by {
      assert [b1][..0] == [];
    }
    assert ExpandContests([contestA, contestB], compact, styleContests) == [expandedA, expandedB] by {
      assert [contestA, contestB][..1] == [contestA] && [contestA][..0] == [];
      assert TotalSelections([contestA]) == 2;
    }
  }
}
