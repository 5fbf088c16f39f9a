/** The shared state of a Connector run session and its critical sections
    (source/connector_lifecycle.go). Each function on State is what one critical section does; the class
    performs the same updates in place. */
module ConnectorSession {
  import opened Wrappers
  import opened Text
  import opened SourceModel
  import opened Json

  // ---------- item outcomes ----------

  /** `Other` is any status string but the three declared ones, such as that of a zero value. */
  datatype Status = Accepted | Rejected | Failed | Other

  datatype Outcome = Outcome(
    itemID: string, definitionName: string, status: Status, sourceRef: Option<Ref>, detail: Option<string>)

  function AcceptedOutcome(itemID: string, definitionName: string, ref: Ref): Outcome {
    Outcome(itemID, definitionName, Accepted, Some(ref), None)
  }

  function UnsafeOutcome(itemID: string, definitionName: string, status: Status, detail: string): Outcome {
    Outcome(itemID, definitionName, status, None, Some(detail))
  }

  /** ConnectorItemOutcome.validate */
  predicate ValidOutcome(o: Outcome) {
    && ValidText(o.itemID, MAX_ID_LENGTH) && ValidText(o.definitionName, MAX_TYPE_LENGTH)
    && match o.status
       case Accepted =>
         && o.sourceRef.Some? && o.detail.None?
         && ValidRef(o.sourceRef.value) && o.sourceRef.value.sourceType == o.definitionName
       case Other => false
       case _ => o.sourceRef.None? && o.detail.Some? && ValidText(o.detail.value, MAX_ID_LENGTH)
  }

  datatype Error = RunError(field: string) | External(message: string)

  // ---------- the state and its critical sections ----------

  /** `drainCloses` counts the executions of close(drained); a second one would panic. */
  datatype State = State(
    outcomes: map<nat, Outcome>,
    itemIDs: map<string, nat>,
    nextSequence: nat,
    failure: Option<Error>,
    closed: bool,
    inFlight: int,
    drainClosed: bool,
    drainCloses: nat)

  const INITIAL := State(map[], map[], 0, None, false, 0, false, 0)

  /** Why claim refuses an item, if it does. */
  function ClaimError(definitions: set<string>, s: State, itemID: string, definitionName: string): Option<Error> {
    if !ValidText(itemID, MAX_ID_LENGTH) then Some(RunError("item_id"))
    else if s.closed then Some(RunError("session"))
    else if itemID in s.itemIDs then Some(RunError("duplicate_item"))
    else if definitionName !in definitions then Some(RunError("definition"))
    else None
  }

  function Claim(s: State, itemID: string, tracksSettlement: bool): State {
    s.(nextSequence := s.nextSequence + 1,
       itemIDs := s.itemIDs[itemID := s.nextSequence],
       inFlight := if tracksSettlement then s.inFlight + 1 else s.inFlight)
  }

  /** The first failure sticks. */
  function RecordFailure(s: State, e: Error): State {
    if s.failure.None? then s.(failure := Some(e)) else s
  }

  function RecordOutcome(s: State, sequence: nat, o: Outcome): State {
    s.(outcomes := s.outcomes[sequence := o])
  }

  function FinishDrain(s: State): State {
    if s.closed && s.inFlight == 0 && !s.drainClosed
    then s.(drainClosed := true, drainCloses := s.drainCloses + 1) else s
  }

  function Settle(s: State): State { FinishDrain(s.(inFlight := s.inFlight - 1)) }

  /** The critical section of Finalize. */
  function Close(s: State): State { FinishDrain(s.(closed := true)) }

  // ---------- what the sink may answer, and what Submit makes of it ----------

  datatype SinkReply = SinkAccepted(ref: Ref) | SinkRejected(detail: string) | SinkFailed(error: Error)

  /** Submit after the sink returned: an outcome to record, or an error. */
  function Interpret(itemID: string, definitionName: string, expected: Ref, reply: SinkReply): Result<Outcome, Error> {
    match reply
    case SinkRejected(detail) => Success(UnsafeOutcome(itemID, definitionName, Rejected, detail))
    case SinkFailed(error) => Failure(error)
    case SinkAccepted(ref) =>
      if ValidRef(ref) && ref.sourceType == definitionName && ref == expected
      then Success(AcceptedOutcome(itemID, definitionName, ref)) else Failure(RunError("source_ref"))
  }

  /** declaredConnectorDefinitions: a non-empty list of distinct valid names. */
  method DeclaredDefinitions(values: seq<string>) returns (r: Option<set<string>>)
    ensures r.Some? <==> && values != []
                         && (forall i | 0 <= i < |values| :: ValidText(values[i], MAX_TYPE_LENGTH))
                         && (forall i, j | 0 <= i < j < |values| :: values[i] != values[j])
    ensures r.Some? ==> r.value == (set i | 0 <= i < |values| :: values[i])
  {
    if values == [] {
      return None;
    }
    var names: set<string> := {};
    for n := 0 to |values|
      invariant names == set i | 0 <= i < n :: values[i]
      invariant forall i | 0 <= i < n :: ValidText(values[i], MAX_TYPE_LENGTH)
      invariant forall i, j | 0 <= i < j < n :: values[i] != values[j]
    {
      if !ValidText(values[n], MAX_TYPE_LENGTH) || values[n] in names {
        return None;
      }
      names := names + {values[n]};
    }
    return Some(names);
  }

  // ---------- the session object ----------

  datatype Binding = Binding(scopeID: string, bindingID: string, connectorName: string, connectorVersion: string)

  predicate ValidBinding(b: Binding) {
    && ValidText(b.scopeID, MAX_ID_LENGTH) && ValidText(b.bindingID, MAX_ID_LENGTH)
    && ValidText(b.connectorName, MAX_TYPE_LENGTH) && ValidText(b.connectorVersion, MAX_TYPE_LENGTH)
  }

  class ConnectorRunSession {
    const binding: Binding
    const checkpoint: Checkpoint
    const definitions: set<string>
    var outcomes: map<nat, Outcome>
    var itemIDs: map<string, nat>
    var nextSequence: nat
    var failure: Option<Error>
    var closed: bool
    var inFlight: int
    var drainClosed: bool
    var drainCloses: nat

    constructor (binding: Binding, checkpoint: Checkpoint, definitions: set<string>)
      ensures this.binding == binding && this.checkpoint == checkpoint && this.definitions == definitions
      ensures Snapshot() == INITIAL
    {
      this.binding, this.checkpoint, this.definitions := binding, checkpoint, definitions;
      outcomes, itemIDs, nextSequence, failure := map[], map[], 0, None;
      closed, inFlight, drainClosed, drainCloses := false, 0, false, 0;
    }

    /** The fields as one value. */
    function Snapshot(): State
      reads this
    { State(outcomes, itemIDs, nextSequence, failure, closed, inFlight, drainClosed, drainCloses) }

    method ClaimItem(itemID: string, definitionName: string, tracksSettlement: bool) returns (r: Result<nat, Error>)
      modifies this
      ensures r.Success? <==>
                && ValidText(itemID, MAX_ID_LENGTH) && !old(closed)
                && itemID !in old(itemIDs) && definitionName in definitions
      ensures r.Failure? ==>
                r.error == RunError(if !ValidText(itemID, MAX_ID_LENGTH) then "item_id" else if old(closed) then "session"
                                    else if itemID in old(itemIDs) then "duplicate_item" else "definition")
      ensures r.Success? ==> itemIDs == old(itemIDs)[itemID := r.value] && r.value == old(nextSequence) == nextSequence - 1
      ensures match ClaimError(definitions, old(Snapshot()), itemID, definitionName)
              case Some(e) => r == Failure(e) && Snapshot() == old(Snapshot())
              case None => r == Success(old(nextSequence)) && Snapshot() == Claim(old(Snapshot()), itemID, tracksSettlement)
    {
      if !ValidText(itemID, MAX_ID_LENGTH) {
        return Failure(RunError("item_id"));
      }
      if closed {
        return Failure(RunError("session"));
      }
      if itemID in itemIDs {
        return Failure(RunError("duplicate_item"));
      }
      if definitionName !in definitions {
        return Failure(RunError("definition"));
      }
      var sequence := nextSequence;
      nextSequence := nextSequence + 1;
      itemIDs := itemIDs[itemID := sequence];
      if tracksSettlement {
        inFlight := inFlight + 1;
      }
      return Success(sequence);
    }

    method NoteFailure(e: Error)
      modifies this
      ensures Snapshot() == RecordFailure(old(Snapshot()), e)
    {
      if failure.None? {
        failure := Some(e);
      }
    }

    method NoteOutcome(sequence: nat, outcome: Outcome)
      modifies this
      ensures Snapshot() == RecordOutcome(old(Snapshot()), sequence, outcome)
    {
      outcomes := outcomes[sequence := outcome];
    }

    method FinishDrainLocked()
      modifies this
      ensures Snapshot() == FinishDrain(old(Snapshot()))
    {
      if closed && inFlight == 0 && !drainClosed {
        drainCloses := drainCloses + 1;
        drainClosed := true;
      }
    }

    method SettleSubmission()
      modifies this
      ensures Snapshot() == Settle(old(Snapshot()))
    {
      inFlight := inFlight - 1;
      FinishDrainLocked();
    }

    method CloseForFinalize()
      modifies this
      ensures Snapshot() == Close(old(Snapshot()))
    {
      closed := true;
      FinishDrainLocked();
    }
  }

  /** NewConnectorRunSession: a fresh session on a valid binding and checkpoint, with a sink and distinct declared
      definitions; nothing otherwise. */
  method NewConnectorRunSession(binding: Binding, checkpoint: Checkpoint, definitions: seq<string>, hasSink: bool)
    returns (r: ConnectorRunSession?)
    ensures r != null <==>
              && ValidText(binding.scopeID, 256) && ValidText(binding.bindingID, 256)
              && ValidText(binding.connectorName, 128) && ValidText(binding.connectorVersion, 128)
              && ValidCheckpoint(checkpoint) && hasSink && definitions != []
              && (forall i | 0 <= i < |definitions| :: ValidText(definitions[i], MAX_TYPE_LENGTH))
              && (forall i, j | 0 <= i < j < |definitions| :: definitions[i] != definitions[j])
    ensures r != null ==>
              && fresh(r) && r.binding == binding && r.checkpoint == checkpoint
              && r.definitions == (set i | 0 <= i < |definitions| :: definitions[i]) && r.Snapshot() == INITIAL
  {
    if !ValidBinding(binding) || !ValidCheckpoint(checkpoint) || !hasSink {
      return null;
    }
    var declared := DeclaredDefinitions(definitions);
    if declared.None? {
      return null;
    }
    r := new ConnectorRunSession(binding, checkpoint, declared.value);
  }
}
