/** The result of a run: a session's outcomes in claim order, and the record that carries them
    (source/connector_lifecycle.go). */
module RunResult {
  import opened Wrappers
  import opened Text
  import opened SourceModel
  import opened Collections
  import opened Json
  import opened ConnectorSession
  import opened SessionProtocol
  import opened SessionRuns

  // ---------- outcomes in claim order ----------

  predicate Ascending(keys: seq<nat>) {
    forall i, j | 0 <= i < j < |keys| :: keys[i] < keys[j]
  }

  /** `items` lists the outcomes by increasing sequence number, `keys` being those numbers. */
  ghost predicate InClaimOrder(outcomes: map<nat, Outcome>, keys: seq<nat>, items: seq<Outcome>) {
    && Ascending(keys) && (set i | 0 <= i < |keys| :: keys[i]) == outcomes.Keys
    && |items| == |keys| && forall i | 0 <= i < |items| :: keys[i] in outcomes && items[i] == outcomes[keys[i]]
  }

  lemma {:induction false} LeastExists(s: set<nat>) returns (least: nat)
    requires s != {}
    ensures least in s && forall k | k in s :: least <= k
  {
    var first :| first in s;
    if s == {first} {
      return first;
    }
    var other := LeastExists(s - {first});
    least := if other < first then other else first;
    assert forall k | k in s :: k == first || k in s - {first};
  }

  /** slices.Sorted(maps.Keys(...)) */
  method SortedSequences(outcomes: map<nat, Outcome>) returns (keys: seq<nat>)
    ensures Ascending(keys) && (set i | 0 <= i < |keys| :: keys[i]) == outcomes.Keys
  {
    keys := [];
    var remaining := outcomes.Keys;
    while remaining != {}
      invariant remaining <= outcomes.Keys && Ascending(keys)
      invariant (set i | 0 <= i < |keys| :: keys[i]) == outcomes.Keys - remaining
      invariant forall i, k | 0 <= i < |keys| && k in remaining :: keys[i] < k
    {
      ghost var _ := LeastExists(remaining);
      var least :| least in remaining && forall k | k in remaining :: least <= k;
      ghost var before := keys;
      keys := keys + [least];
      remaining := remaining - {least};
      assert (set i | 0 <= i < |keys| :: keys[i]) == (set i | 0 <= i < |before| :: before[i]) + {least} by {
        assert forall i | 0 <= i < |before| :: keys[i] == before[i];
        assert keys[|before|] == least;
      }
    }
  }

  /** ConnectorRunSession.Outcomes */
  method Outcomes(session: ConnectorRunSession) returns (keys: seq<nat>, items: seq<Outcome>)
    ensures InClaimOrder(session.outcomes, keys, items)
  {
    keys := SortedSequences(session.outcomes);
    assert forall i | 0 <= i < |keys| :: keys[i] in session.outcomes;
    items := [];
    for n := 0 to |keys|
      invariant |items| == n && forall i | 0 <= i < n :: items[i] == session.outcomes[keys[i]]
    {
      items := items + [session.outcomes[keys[n]]];
    }
  }

  // ---------- the result record ----------

  datatype RunStatus = Complete | Incomplete | OtherStatus

  datatype ConnectorRunResult = ConnectorRunResult(
    binding: Binding, status: RunStatus, previous: Checkpoint, proposed: Checkpoint, committed: Checkpoint,
    items: seq<Outcome>)

  predicate ValidItems(items: seq<Outcome>) {
    (forall i | 0 <= i < |items| :: ValidOutcome(items[i])) && DistinctIdentifiers(items)
  }

  predicate DistinctIdentifiers(items: seq<Outcome>) {
    forall i, j | 0 <= i < j < |items| :: items[i].itemID != items[j].itemID
  }

  /** NewConnectorRunResult refuses anything invalid and otherwise keeps what it is given. */
  method NewConnectorRunResult(binding: Binding, status: RunStatus, previous: Checkpoint, proposed: Checkpoint,
                               committed: Checkpoint, items: seq<Outcome>) returns (r: Option<ConnectorRunResult>)
    ensures r.Some? <==>
              && ValidBinding(binding) && status != OtherStatus
              && ValidCheckpoint(previous) && ValidCheckpoint(proposed) && ValidCheckpoint(committed) && proposed.found
              && ValidItems(items)
    ensures r.Some? ==> r.value == ConnectorRunResult(binding, status, previous, proposed, committed, items)
  {
    if !ValidBinding(binding) || status == OtherStatus {
      return None;
    }
    if !ValidCheckpoint(previous) || !ValidCheckpoint(proposed) || !ValidCheckpoint(committed) || !proposed.found {
      return None;
    }
    var ok := CheckItems(items);
    if !ok {
      return None;
    }
    return Some(ConnectorRunResult(binding, status, previous, proposed, committed, items));
  }

  /** The item loop of NewConnectorRunResult, with its set of seen identifiers. */
  method CheckItems(items: seq<Outcome>) returns (ok: bool)
    ensures ok == ValidItems(items)
  {
    ok := CheckDistinct(items, ValidOutcome, (o: Outcome) => o.itemID);
  }

  // ---------- sessions produce acceptable results ----------

  ghost predicate ValidDefinitions(definitions: set<string>) {
    forall name | name in definitions :: ValidText(name, MAX_TYPE_LENGTH)
  }

  /** The sink answered the claimer of slot n with a rejection whose detail its constructor,
      NewConnectorSubmissionRejectedError, would have refused. */
  ghost predicate IllFormedRejection(w: World, n: nat) {
    && n < |w.owners| && w.owners[n] in w.replies && w.replies[w.owners[n]].SinkRejected?
    && !ValidText(w.replies[w.owners[n]].detail, MAX_ID_LENGTH)
  }

  /** An earned outcome is valid unless it carries an ill-formed rejection of the sink. */
  lemma EarnedIsValid(definitions: set<string>, request: Request, reply: Option<SinkReply>, o: Outcome)
    requires ValidDefinitions(definitions) && Claimable(definitions, request) && Decision(request, reply) == Success(o)
    ensures o.itemID == request.itemID
    ensures ValidOutcome(o) <==> (request.SubmitItem? && reply.value.SinkRejected? ==> ValidText(reply.value.detail, MAX_ID_LENGTH))
  {}

  /** The valid outcomes are exactly those built for a bounded item and definition: accepted with a valid reference of that
      definition, or rejected or failed with a bounded detail. */
  lemma ValidOutcomeIff(o: Outcome)
    ensures ValidOutcome(o) <==>
              && ValidText(o.itemID, 256) && ValidText(o.definitionName, 128)
              && match o
                 case Outcome(item, definition, Accepted, Some(ref), None) =>
                   ValidText(ref.sourceType, 128) && ValidText(ref.sourceID, 256) && ref.sourceType == definition
                 case Outcome(item, definition, Rejected, None, Some(detail)) => ValidText(detail, 256)
                 case Outcome(item, definition, Failed, None, Some(detail)) => ValidText(detail, 256)
                 case _ => false
  {}

  /** In claim order the item identifiers are distinct and appear in the order they were claimed. */
  lemma ClaimOrderIsItemOrder(rules: Rules, w: World, keys: seq<nat>, items: seq<Outcome>)
    requires Fair(rules) && Inv(rules, w) && InClaimOrder(w.shared.outcomes, keys, items)
    ensures forall i | 0 <= i < |items| :: items[i].itemID in w.shared.itemIDs && w.shared.itemIDs[items[i].itemID] == keys[i]
    ensures forall i, j | 0 <= i < j < |items| :: items[i].itemID != items[j].itemID
  {
    forall i | 0 <= i < |items|
      ensures items[i].itemID in w.shared.itemIDs && w.shared.itemIDs[items[i].itemID] == keys[i]
    {
      OutcomeNamesItsClaim(rules, w, keys[i]);
    }
  }

  /** The request that claimed slot n decided its outcome. */
  ghost predicate Decided(definitions: set<string>, w: World, n: nat)
    requires n in w.shared.outcomes
  {
    && n < |w.owners| && w.owners[n] in w.calls
    && Claimable(definitions, w.calls[w.owners[n]].request)
    && Decision(w.calls[w.owners[n]].request, ReplyTo(w, w.owners[n])) == Success(w.shared.outcomes[n])
  }

  lemma SlotDecided(definitions: set<string>, w: World, n: nat)
    requires OutcomesInv(RulesOf(definitions), w) && n in w.shared.outcomes
    ensures Decided(definitions, w, n)
  {
    assert Earned(RulesOf(definitions), w.calls[w.owners[n]].request, ReplyTo(w, w.owners[n]), w.shared.outcomes[n]);
  }

  lemma ItemValidity(definitions: set<string>, w: World, n: nat)
    requires ValidDefinitions(definitions) && n in w.shared.outcomes && Decided(definitions, w, n) && AskedIsSubmit(w, n)
    ensures ValidOutcome(w.shared.outcomes[n]) <==> !IllFormedRejection(w, n)
  {
    var owner := w.owners[n];
    EarnedIsValid(definitions, w.calls[owner].request, ReplyTo(w, owner), w.shared.outcomes[n]);
  }

  /** Only Submit hears from the sink. */
  ghost predicate AskedIsSubmit(w: World, n: nat) {
    n < |w.owners| && w.owners[n] in w.calls && w.owners[n] in w.replies ==> w.calls[w.owners[n]].request.SubmitItem?
  }

  lemma SinkAsksSubmit(rules: Rules, w: World, n: nat)
    requires Fair(rules) && SinkInv(rules, w)
    ensures AskedIsSubmit(w, n)
  {}

  /** Whatever the interleaving, the outcomes a session reports in claim order are accepted by NewConnectorRunResult
      exactly when no recorded sink rejection is ill-formed. */
  lemma SessionResultsAccepted(definitions: set<string>, steps: seq<Step>, keys: seq<nat>, items: seq<Outcome>)
    requires IsRun(definitions, steps) && ValidDefinitions(definitions)
    requires InClaimOrder(EndOf(definitions, steps).shared.outcomes, keys, items)
    ensures var w := EndOf(definitions, steps);
            ValidItems(items) <==> forall n | n in w.shared.outcomes :: !IllFormedRejection(w, n)
  {
    RunInv(definitions, steps);
    var w := EndOf(definitions, steps);
    ClaimOrderIsItemOrder(RulesOf(definitions), w, keys, items);
    forall n | n in w.shared.outcomes ensures ValidOutcome(w.shared.outcomes[n]) <==> !IllFormedRejection(w, n) {
      SlotDecided(definitions, w, n);
      SinkAsksSubmit(RulesOf(definitions), w, n);
      ItemValidity(definitions, w, n);
    }
    if ValidItems(items) {
      forall n | n in w.shared.outcomes ensures ValidOutcome(w.shared.outcomes[n]) {
        assert n in (set i | 0 <= i < |keys| :: keys[i]);
        var i :| 0 <= i < |keys| && keys[i] == n;
        assert items[i] == w.shared.outcomes[n];
      }
    }
  }
}
