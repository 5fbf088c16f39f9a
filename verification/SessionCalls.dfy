/** Submit, Reject and Fail on a session object, and their agreement with the interleaved protocol: a call that no
    other call interrupts is one of the protocol's runs. */
module SessionCalls {
  import opened Wrappers
  import opened Text
  import opened SourceModel
  import opened ConnectorSession
  import opened SessionProtocol
  import Observation
  import opened SessionRuns
  import opened SessionDrain

  /** What a claimed call leaves once it has decided. */
  function Decided(s: State, request: Request, sequence: nat, decision: Result<Outcome, Error>): (State, CallResult) {
    var recorded := match decision
      case Success(o) => RecordOutcome(s, sequence, o)
      case Failure(e) => RecordFailure(s, e);
    (if request.SubmitItem? then Settle(recorded) else recorded,
     match decision case Success(o) => Returned(o) case Failure(e) => Errored(e))
  }

  function Heard(rules: Rules, request: Request, reply: SinkReply): Option<SinkReply> {
    if rules.asks(request) then Some(reply) else None
  }

  /** The state and result an uninterrupted Submit, Reject or Fail leaves. */
  function Alone(rules: Rules, s: State, request: Request, reply: SinkReply): (State, CallResult)
    requires !request.FinalizeRun?
  {
    var refusal := rules.refuses(s, request);
    if refusal.Some? then (RecordFailure(s, refusal.value), Errored(refusal.value))
    else Decided(Claim(s, request.itemID, request.SubmitItem?), request, s.nextSequence,
                 rules.decides(request, Heard(rules, request, reply)))
  }

  /** Submit; `reply` is what the sink answers if it is called. */
  method Submit(session: ConnectorRunSession, itemID: string, definitionName: string, observation: Option<SourceObservation>, reply: SinkReply)
    returns (result: CallResult)
    modifies session
    ensures (session.Snapshot(), result) ==
            Alone(RulesOf(session.definitions), old(session.Snapshot()), SubmitItem(itemID, definitionName, observation), reply)
  {
    var claim := session.ClaimItem(itemID, definitionName, true);
    if claim.Failure? {
      session.NoteFailure(claim.error);
      return Errored(claim.error);
    }
    if !Admitted(observation) {
      result := Errored(RunError("observation"));
      session.NoteFailure(result.error);
    } else if observation.value.ref.sourceType != definitionName {
      result := Errored(RunError("source_ref"));
      session.NoteFailure(result.error);
    } else {
      var outcome := Interpret(itemID, definitionName, observation.value.ref, reply);
      if outcome.Failure? {
        session.NoteFailure(outcome.error);
        result := Errored(outcome.error);
      } else {
        session.NoteOutcome(claim.value, outcome.value);
        result := Returned(outcome.value);
      }
    }
    session.SettleSubmission();
  }

  /** recordUnsafe, behind Reject and Fail. */
  method RecordUnsafe(session: ConnectorRunSession, itemID: string, definitionName: string, status: Status, detail: string)
    returns (result: CallResult)
    modifies session
    ensures status == Rejected ==>
              (session.Snapshot(), result)
                == Alone(RulesOf(session.definitions), old(session.Snapshot()), RejectItem(itemID, definitionName, detail), REPLY)
    ensures status == Failed ==>
              (session.Snapshot(), result)
                == Alone(RulesOf(session.definitions), old(session.Snapshot()), FailItem(itemID, definitionName, detail), REPLY)
    ensures status != Rejected && status != Failed ==>
            result == Errored(RunError("status")) && session.Snapshot() == old(session.Snapshot())
  {
    if status != Rejected && status != Failed {
      return Errored(RunError("status"));
    }
    var claim := session.ClaimItem(itemID, definitionName, false);
    if claim.Failure? {
      session.NoteFailure(claim.error);
      return Errored(claim.error);
    }
    if !ValidText(detail, MAX_ID_LENGTH) {
      session.NoteFailure(RunError("detail"));
      return Errored(RunError("detail"));
    }
    var outcome := UnsafeOutcome(itemID, definitionName, status, detail);
    session.NoteOutcome(claim.value, outcome);
    return Returned(outcome);
  }

  /** The claim of an item is granted: a valid identifier no call has claimed, a declared definition, an open session. */
  predicate Granted(definitions: set<string>, s: State, itemID: string, definitionName: string) {
    ValidText(itemID, MAX_ID_LENGTH) && !s.closed && itemID !in s.itemIDs && definitionName in definitions
  }

  /** The observation is there, is valid and belongs to the definition. */
  predicate Offered(definitionName: string, observation: Option<SourceObservation>) {
    && observation.Some? && Observation.ValidObservation(observation.value)
    && observation.value.ref.sourceType == definitionName
  }

  /** `after` holds the claim, with `o` in its slot and nothing else changed. */
  ghost predicate Recorded(s: State, itemID: string, o: Outcome, after: State) {
    && after.outcomes == s.outcomes[s.nextSequence := o] && after.failure == s.failure
    && after.itemIDs == s.itemIDs[itemID := s.nextSequence] && after.nextSequence == s.nextSequence + 1
  }

  /** `after` holds a failure, which is `e` unless there was one before, and no new outcome. */
  ghost predicate NotRecorded(s: State, e: Error, after: State) {
    after.outcomes == s.outcomes && after.failure == if s.failure.Some? then s.failure else Some(e)
  }

  /** A refused claim and a decided error leave a failure, a decided outcome is recorded; nothing stays in flight. */
  lemma AloneCases(rules: Rules, s: State, request: Request, reply: SinkReply)
    requires !request.FinalizeRun?
    ensures var (after, result) := Alone(rules, s, request, reply);
            && after.inFlight == s.inFlight
            && match rules.refuses(s, request)
               case Some(e) => result == Errored(e) && NotRecorded(s, e, after)
               case None =>
                 match rules.decides(request, Heard(rules, request, reply))
                 case Success(o) => result == Returned(o) && Recorded(s, request.itemID, o, after)
                 case Failure(e) =>
                   && result == Errored(e) && NotRecorded(s, e, after)
                   && after.itemIDs == s.itemIDs[request.itemID := s.nextSequence]
  {}

  lemma GrantedIff(definitions: set<string>, s: State, request: Request)
    requires !request.FinalizeRun?
    ensures RulesOf(definitions).refuses(s, request).None? <==> Granted(definitions, s, request.itemID, request.definitionName)
  {}

  /** What Submit decides once it has claimed. */
  lemma SubmitDecides(definitions: set<string>, itemID: string, definitionName: string, observation: Option<SourceObservation>, reply: SinkReply)
    ensures var request := SubmitItem(itemID, definitionName, observation);
            var decision := RulesOf(definitions).decides(request, Heard(RulesOf(definitions), request, reply));
            if !Offered(definitionName, observation) then decision.Failure? else
            match reply
            case SinkRejected(detail) => decision == Success(Outcome(itemID, definitionName, Rejected, None, Some(detail)))
            case SinkFailed(e) => decision == Failure(e)
            case SinkAccepted(ref) =>
              if ref == observation.value.ref
              then decision == Success(Outcome(itemID, definitionName, Accepted, Some(ref), None)) else decision.Failure?
  {}

  /** Submit records an accepted outcome exactly when the claim is granted, the observation is acceptable and the sink
      returns its very reference; it records a rejection exactly when the sink rejects; in every other case no outcome is
      written and a failure is on record. Either way nothing stays in flight. */
  lemma SubmitOutcome(definitions: set<string>, s: State, itemID: string, definitionName: string, observation: Option<SourceObservation>, reply: SinkReply)
    ensures var (after, result) := Alone(RulesOf(definitions), s, SubmitItem(itemID, definitionName, observation), reply);
            var granted := Granted(definitions, s, itemID, definitionName) && Offered(definitionName, observation);
            && after.inFlight == s.inFlight
            && if granted && reply.SinkAccepted? && reply.ref == observation.value.ref then
                 && result == Returned(Outcome(itemID, definitionName, Accepted, Some(observation.value.ref), None))
                 && Recorded(s, itemID, result.outcome, after)
               else if granted && reply.SinkRejected? then
                 && result == Returned(Outcome(itemID, definitionName, Rejected, None, Some(reply.detail)))
                 && Recorded(s, itemID, result.outcome, after)
               else result.Errored? && NotRecorded(s, result.error, after)
  {
    var request := SubmitItem(itemID, definitionName, observation);
    AloneCases(RulesOf(definitions), s, request, reply);
    GrantedIff(definitions, s, request);
    SubmitDecides(definitions, itemID, definitionName, observation, reply);
  }

  /** Which error Submit returns, and records as the failure if it is the first. */
  lemma SubmitError(definitions: set<string>, s: State, itemID: string, definitionName: string, observation: Option<SourceObservation>, reply: SinkReply)
    ensures var (after, result) := Alone(RulesOf(definitions), s, SubmitItem(itemID, definitionName, observation), reply);
            result.Errored? ==>
              result.error ==
              if !ValidText(itemID, MAX_ID_LENGTH) then RunError("item_id")
              else if s.closed then RunError("session")
              else if itemID in s.itemIDs then RunError("duplicate_item")
              else if definitionName !in definitions then RunError("definition")
              else if observation.None? || !Observation.ValidObservation(observation.value) then RunError("observation")
              else if observation.value.ref.sourceType != definitionName then RunError("source_ref")
              else if reply.SinkFailed? then reply.error
              else RunError("source_ref")
  {}

  /** Reject and Fail record their outcome exactly when the claim is granted and the detail is valid. A refused claim
      leaves no trace but the failure; an invalid detail leaves the claim as well. */
  lemma UnsafeCallOutcome(definitions: set<string>, s: State, itemID: string, definitionName: string, detail: string, failed: bool, reply: SinkReply)
    ensures var request := if failed then FailItem(itemID, definitionName, detail) else RejectItem(itemID, definitionName, detail);
            var (after, result) := Alone(RulesOf(definitions), s, request, reply);
            && after.inFlight == s.inFlight
            && if Granted(definitions, s, itemID, definitionName) && ValidText(detail, MAX_ID_LENGTH) then
                 && result == Returned(Outcome(itemID, definitionName, if failed then Failed else Rejected, None, Some(detail)))
                 && Recorded(s, itemID, result.outcome, after)
               else
                 && result.Errored? && NotRecorded(s, result.error, after)
                 && (Granted(definitions, s, itemID, definitionName) ==>
                       result.error == RunError("detail") && after.itemIDs == s.itemIDs[itemID := s.nextSequence])
  {
    var request := if failed then FailItem(itemID, definitionName, detail) else RejectItem(itemID, definitionName, detail);
    AloneCases(RulesOf(definitions), s, request, reply);
    GrantedIff(definitions, s, request);
  }

  /** Letting one call run from its first step to its last. */
  lemma {:induction false} Finish(rules: Rules, w: World, id: nat, reply: SinkReply) returns (steps: seq<Step>)
    requires id in w.calls && !w.calls[id].request.FinalizeRun? && !w.calls[id].pc.Waiting?
    requires w.calls[id].pc.Settling? ==> w.calls[id].request.SubmitItem?
    ensures Legal(rules, w, steps)
    ensures var w' := After(rules, w, steps);
            && id in w'.calls && w'.calls[id].pc.Done?
            && (w'.shared, w'.calls[id].pc.result) == Outlook(rules, w.shared, w.calls[id], reply)
    decreases Distance(w.calls[id].pc)
  {
    if w.calls[id].pc.Done? {
      return [];
    }
    var step := Advance(id, reply, false);
    var w1 := Next(rules, w, step);
    OutlookKept(rules, w, id, reply);
    var rest := Finish(rules, w1, id, reply);
    steps := [step] + rest;
    assert steps[1..] == rest;
  }

  function Distance(pc: Pc): nat {
    match pc
    case Start => 5
    case Refused(_) => 1
    case Claimed(_) => 3
    case Failing(_) => 2
    case Recording(_, _) => 2
    case Settling(_) => 1
    case Waiting => 1
    case Done(_) => 0
  }

  /** Where a call would end if it ran on uninterrupted. */
  function Outlook(rules: Rules, s: State, c: Call, reply: SinkReply): (State, CallResult)
    requires !c.request.FinalizeRun?
  {
    match c.pc
    case Start => Alone(rules, s, c.request, reply)
    case Refused(e) => (RecordFailure(s, e), Errored(e))
    case Claimed(n) => Decided(s, c.request, n, rules.decides(c.request, Heard(rules, c.request, reply)))
    case Failing(e) => Decided(s, c.request, 0, Failure(e))
    case Recording(n, o) => Decided(s, c.request, n, Success(o))
    case Settling(r) => (Settle(s), r)
    case Waiting => (s, Cancelled)
    case Done(r) => (s, r)
  }

  lemma OutlookKept(rules: Rules, w: World, id: nat, reply: SinkReply)
    requires id in w.calls && !w.calls[id].request.FinalizeRun? && !w.calls[id].pc.Waiting? && !w.calls[id].pc.Done?
    requires w.calls[id].pc.Settling? ==> w.calls[id].request.SubmitItem?
    ensures var w' := Next(rules, w, Advance(id, reply, false));
            && id in w'.calls && w'.calls[id].request == w.calls[id].request
            && !w'.calls[id].pc.Waiting? && Distance(w'.calls[id].pc) < Distance(w.calls[id].pc)
            && (w'.calls[id].pc.Settling? ==> w'.calls[id].request.SubmitItem?)
            && Outlook(rules, w'.shared, w'.calls[id], reply) == Outlook(rules, w.shared, w.calls[id], reply)
  {}

  /** An uninterrupted call is a run of the protocol, from whatever state the other calls left. */
  lemma AloneIsARun(rules: Rules, w: World, id: nat, request: Request, reply: SinkReply) returns (steps: seq<Step>)
    requires id !in w.calls && !request.FinalizeRun?
    ensures Legal(rules, w, steps)
    ensures var w' := After(rules, w, steps);
            && id in w'.calls && w'.calls[id].pc.Done?
            && (w'.shared, w'.calls[id].pc.result) == Alone(rules, w.shared, request, reply)
  {
    var w1 := Next(rules, w, Begin(id, request));
    var rest := Finish(rules, w1, id, reply);
    steps := [Begin(id, request)] + rest;
    assert steps[1..] == rest;
  }
}
