/** Concurrent calls on one run session, as interleaved atomic steps. Every critical section of
    source/connector_lifecycle.go is one step; so is the sink's reply to a Submit call. */
module SessionProtocol {
  import opened Wrappers
  import opened Text
  import opened SourceModel
  import opened ConnectorSession
  import Observation

  type SourceObservation = Observation.SourceObservation

  // ---------- calls ----------

  /** AdmittedObservation.Validate: there is an observation, and it is valid. */
  predicate Admitted(observation: Option<SourceObservation>) {
    observation.Some? && Observation.ValidObservation(observation.value)
  }

  datatype Request =
    | SubmitItem(itemID: string, definitionName: string, observation: Option<SourceObservation>)
    | RejectItem(itemID: string, definitionName: string, detail: string)
    | FailItem(itemID: string, definitionName: string, detail: string)
    | FinalizeRun

  datatype CallResult = Returned(outcome: Outcome) | Errored(error: Error) | Drained | Cancelled

  /** Where a call stands: before its claim, about to record the refusal of that claim, holding a claim, about to
      record an error or an outcome, about to settle, waiting for the drain, or back at its caller. */
  datatype Pc =
    | Start
    | Refused(error: Error)
    | Claimed(sequence: nat)
    | Failing(error: Error)
    | Recording(sequence: nat, outcome: Outcome)
    | Settling(result: CallResult)
    | Waiting
    | Done(result: CallResult)

  /** `claim` remembers the sequence number the call obtained. */
  datatype Call = Call(request: Request, claim: Option<nat>, pc: Pc)

  /** The shared state and every call made so far, with three histories: which call claimed each sequence number,
      what the sink replied to each call, and how often the sink was called. */
  datatype World = World(
    shared: State,
    calls: map<nat, Call>,
    owners: seq<nat>,
    replies: map<nat, SinkReply>,
    sinkCalls: nat)

  const INITIAL_WORLD := World(INITIAL, map[], [], map[], 0)

  // ---------- steps ----------

  /** A caller makes a request, or a call advances; `reply` is what the sink answers if the step calls it and
      `cancel` whether a waiting Finalize observes cancellation. */
  datatype Step = Begin(id: nat, request: Request) | Advance(id: nat, reply: SinkReply, cancel: bool)

  predicate Enabled(w: World, step: Step) {
    match step
    case Begin(id, _) => id !in w.calls
    case Advance(id, _, cancel) =>
      && id in w.calls && !w.calls[id].pc.Done?
      && (w.calls[id].pc.Waiting? ==> cancel || w.shared.drainClosed)
  }

  /** The world after call `id` became `c` and the shared state `s`. */
  function Put(w: World, s: State, id: nat, c: Call): World {
    World(s, w.calls[id := c], w.owners, w.replies, w.sinkCalls)
  }

  /** What a session decides about a request, apart from interleaving: whether it may ever claim, why its claim is
      refused in a given state, whether it calls the sink, and what it records once it has claimed and heard the sink. */
  datatype Rules = Rules(
    claims: Request -> bool,
    refuses: (State, Request) -> Option<Error>,
    asks: Request -> bool,
    decides: (Request, Option<SinkReply>) -> Result<Outcome, Error>)

  /** All the protocol relies on: a closed session and a claimed item refuse, only Submit calls the sink, and an outcome
      names the item of its request. */
  ghost predicate Fair(rules: Rules) {
    && (forall s, r | rules.refuses(s, r).None? ::
          !r.FinalizeRun? && !s.closed && r.itemID !in s.itemIDs && rules.claims(r))
    && (forall r | rules.asks(r) :: r.SubmitItem?)
    && (forall r, reply | rules.decides(r, reply).Success? ::
          !r.FinalizeRun? && rules.decides(r, reply).value.itemID == r.itemID)
  }

  /** The first critical section of a call. */
  function EnterStep(rules: Rules, w: World, id: nat): World
    requires id in w.calls
  {
    var call := w.calls[id];
    if call.request.FinalizeRun? then Put(w, Close(w.shared), id, call.(pc := Waiting)) else
    var refusal := rules.refuses(w.shared, call.request);
    if refusal.Some? then Put(w, w.shared, id, call.(pc := Refused(refusal.value)))
    else ClaimStep(w, id, call.request.itemID, call.request.SubmitItem?)
  }

  function ClaimStep(w: World, id: nat, itemID: string, tracksSettlement: bool): World
    requires id in w.calls
  {
    var n := w.shared.nextSequence;
    Put(w, Claim(w.shared, itemID, tracksSettlement), id, Call(w.calls[id].request, Some(n), Claimed(n)))
      .(owners := w.owners + [id])
  }

  /** What a claimed call does next, once it has decided. */
  function PcOf(sequence: nat, decision: Result<Outcome, Error>): Pc {
    match decision
    case Success(outcome) => Recording(sequence, outcome)
    case Failure(error) => Failing(error)
  }

  /** A claimed call decides; some requests call the sink to do so. */
  function DecideStep(rules: Rules, w: World, id: nat, sequence: nat, reply: SinkReply): World
    requires id in w.calls
  {
    var call := w.calls[id];
    if rules.asks(call.request) then
      Put(w, w.shared, id, call.(pc := PcOf(sequence, rules.decides(call.request, Some(reply)))))
        .(replies := w.replies[id := reply], sinkCalls := w.sinkCalls + 1)
    else
      Put(w, w.shared, id, call.(pc := PcOf(sequence, rules.decides(call.request, None))))
  }

  /** After recording, Submit still has to settle; Reject and Fail return. */
  function AfterRecord(request: Request, result: CallResult): Pc {
    if request.SubmitItem? then Settling(result) else Done(result)
  }

  function Next(rules: Rules, w: World, step: Step): World
    requires Enabled(w, step)
  {
    match step
    case Begin(id, request) => Put(w, w.shared, id, Call(request, None, Start))
    case Advance(id, reply, cancel) => Advanced(rules, w, id, reply, cancel)
  }

  function Advanced(rules: Rules, w: World, id: nat, reply: SinkReply, cancel: bool): World
    requires id in w.calls && !w.calls[id].pc.Done?
  {
    var call := w.calls[id];
    match call.pc
    case Start => EnterStep(rules, w, id)
    case Refused(e) => Put(w, RecordFailure(w.shared, e), id, call.(pc := Done(Errored(e))))
    case Claimed(n) => DecideStep(rules, w, id, n, reply)
    case Failing(e) => Put(w, RecordFailure(w.shared, e), id, call.(pc := AfterRecord(call.request, Errored(e))))
    case Recording(n, o) => Put(w, RecordOutcome(w.shared, n, o), id, call.(pc := AfterRecord(call.request, Returned(o))))
    case Settling(r) => Put(w, Settle(w.shared), id, call.(pc := Done(r)))
    case Waiting => Put(w, w.shared, id, call.(pc := Done(if cancel then Cancelled else Drained)))
  }

  // ---------- the rules of a Connector session ----------

  /** Submit's checks before the sink is called. */
  predicate Submittable(request: Request) {
    request.SubmitItem? && Admitted(request.observation) && request.observation.value.ref.sourceType == request.definitionName
  }

  /** What a claimed request records; `heard` is the sink's reply, which every submittable request receives. */
  function Decision(request: Request, heard: Option<SinkReply>): Result<Outcome, Error> {
    match request
    case SubmitItem(itemID, definitionName, observation) =>
      if !Admitted(observation) then Failure(RunError("observation")) else
      if observation.value.ref.sourceType != definitionName then Failure(RunError("source_ref")) else
      if heard.None? then Failure(RunError("sink"))
      else Interpret(itemID, definitionName, observation.value.ref, heard.value)
    case RejectItem(itemID, definitionName, detail) =>
      if !ValidText(detail, MAX_ID_LENGTH) then Failure(RunError("detail"))
      else Success(UnsafeOutcome(itemID, definitionName, Rejected, detail))
    case FailItem(itemID, definitionName, detail) =>
      if !ValidText(detail, MAX_ID_LENGTH) then Failure(RunError("detail"))
      else Success(UnsafeOutcome(itemID, definitionName, Failed, detail))
    case FinalizeRun => Failure(RunError("session"))
  }

  predicate Claimable(definitions: set<string>, request: Request) {
    !request.FinalizeRun? && ValidText(request.itemID, MAX_ID_LENGTH) && request.definitionName in definitions
  }

  function Refusal(definitions: set<string>, s: State, request: Request): Option<Error> {
    if request.FinalizeRun? then Some(RunError("session"))
    else ClaimError(definitions, s, request.itemID, request.definitionName)
  }

  function RulesOf(definitions: set<string>): Rules {
    Rules(r => Claimable(definitions, r), (s, r) => Refusal(definitions, s, r), Submittable, Decision)
  }

  lemma RulesAreFair(definitions: set<string>)
    ensures Fair(RulesOf(definitions))
  {}

  // ---------- the invariant ----------

  /** A Submit call that has claimed and not settled. */
  predicate InFlight(c: Call) {
    c.request.SubmitItem? && (c.pc.Claimed? || c.pc.Failing? || c.pc.Recording? || c.pc.Settling?)
  }

  ghost function InFlightCalls(calls: map<nat, Call>): set<nat> {
    set id | id in calls && InFlight(calls[id])
  }

  function ReplyTo(w: World, id: nat): Option<SinkReply> {
    if id in w.replies then Some(w.replies[id]) else None
  }

  /** `o` is what this request, given that reply, is entitled to record. */
  ghost predicate Earned(rules: Rules, request: Request, reply: Option<SinkReply>, o: Outcome) {
    rules.claims(request) && rules.decides(request, reply) == Success(o)
  }

  /** The result of a claimed call is what it decided, and that is on record. */
  ghost predicate Accounted(rules: Rules, s: State, c: Call, reply: Option<SinkReply>, result: CallResult)
    requires c.claim.Some?
  {
    match result
    case Returned(o) =>
      && c.claim.value in s.outcomes && s.outcomes[c.claim.value] == o && rules.decides(c.request, reply) == Success(o)
    case Errored(e) => s.failure.Some? && rules.decides(c.request, reply) == Failure(e)
    case _ => false
  }

  /** The result of a call that claimed nothing: an error on record, or the end of a Finalize. */
  ghost predicate Unclaimed(s: State, request: Request, result: CallResult) {
    match result
    case Errored(_) => s.failure.Some? && !request.FinalizeRun?
    case Drained => s.drainClosed && request.FinalizeRun?
    case Cancelled => request.FinalizeRun?
    case Returned(_) => false
  }

  ghost predicate CallInv(rules: Rules, s: State, reply: Option<SinkReply>, c: Call) {
    match c.pc
    case Start => c.claim.None? && reply.None?
    case Refused(_) => c.claim.None? && reply.None? && !c.request.FinalizeRun?
    case Claimed(n) => c.claim == Some(n) && n !in s.outcomes && reply.None?
    case Failing(e) => c.claim.Some? && c.claim.value !in s.outcomes && rules.decides(c.request, reply) == Failure(e)
    case Recording(n, o) => c.claim == Some(n) && n !in s.outcomes && Earned(rules, c.request, reply, o)
    case Settling(r) => c.request.SubmitItem? && c.claim.Some? && Accounted(rules, s, c, reply, r)
    case Waiting => c.request.FinalizeRun? && c.claim.None? && s.closed
    case Done(r) => if c.claim.Some? then Accounted(rules, s, c, reply, r) else Unclaimed(s, c.request, r)
  }

  ghost predicate CallsInv(rules: Rules, w: World) {
    forall id | id in w.calls :: CallInv(rules, w.shared, ReplyTo(w, id), w.calls[id])
  }

  /** Sequence numbers, claiming calls and item identifiers correspond one to one. */
  ghost predicate ClaimsInv(rules: Rules, w: World) {
    && |w.owners| == w.shared.nextSequence
    && (forall n | 0 <= n < |w.owners| :: w.owners[n] in w.calls && w.calls[w.owners[n]].claim == Some(n))
    && (forall id | id in w.calls && w.calls[id].claim.Some? :: ClaimInv(rules, w, id))
    && (forall item | item in w.shared.itemIDs ::
          w.shared.itemIDs[item] < |w.owners| && ItemOf(w, w.shared.itemIDs[item]) == Some(item))
  }

  ghost predicate ClaimInv(rules: Rules, w: World, id: nat)
    requires id in w.calls && w.calls[id].claim.Some?
  {
    var c := w.calls[id];
    && c.claim.value < |w.owners| && w.owners[c.claim.value] == id
    && !c.request.FinalizeRun? && c.request.itemID in w.shared.itemIDs
    && w.shared.itemIDs[c.request.itemID] == c.claim.value
    && rules.claims(c.request)
  }

  /** The item claimed under a sequence number. */
  function ItemOf(w: World, n: nat): Option<string> {
    if n < |w.owners| && w.owners[n] in w.calls && !w.calls[w.owners[n]].request.FinalizeRun?
    then Some(w.calls[w.owners[n]].request.itemID) else None
  }

  /** Every recorded outcome was earned by the call that claimed its slot. */
  ghost predicate OutcomesInv(rules: Rules, w: World) {
    forall n | n in w.shared.outcomes ::
      && n < |w.owners| && w.owners[n] in w.calls
      && Earned(rules, w.calls[w.owners[n]].request, ReplyTo(w, w.owners[n]), w.shared.outcomes[n])
  }

  ghost predicate SinkInv(rules: Rules, w: World) {
    && w.sinkCalls == |w.replies|
    && forall id | id in w.replies :: id in w.calls && rules.asks(w.calls[id].request) && w.calls[id].claim.Some?
  }

  ghost predicate DrainInv(w: World) {
    && w.shared.inFlight == |InFlightCalls(w.calls)|
    && (w.shared.drainClosed <==> w.shared.closed && w.shared.inFlight == 0)
    && w.shared.drainCloses == if w.shared.drainClosed then 1 else 0
  }

  ghost predicate Inv(rules: Rules, w: World) {
    CallsInv(rules, w) && ClaimsInv(rules, w) && OutcomesInv(rules, w) && SinkInv(rules, w) && DrainInv(w)
  }

  // ---------- preservation ----------

  lemma InitialInv(rules: Rules)
    ensures Inv(rules, INITIAL_WORLD)
  {
    assert InFlightCalls(INITIAL_WORLD.calls) == {};
  }

  /** Replacing one call moves at most that call in or out of the in-flight set. */
  lemma InFlightUpdate(calls: map<nat, Call>, id: nat, c: Call)
    ensures var before, after := InFlightCalls(calls), InFlightCalls(calls[id := c]);
            && (InFlight(c) && id !in before ==> |after| == |before| + 1)
            && (!InFlight(c) && id in before ==> |after| == |before| - 1)
            && (InFlight(c) == (id in before) ==> |after| == |before|)
  {
    var before, after := InFlightCalls(calls), InFlightCalls(calls[id := c]);
    if InFlight(c) {
      assert after == before + {id};
    } else {
      assert after == before - {id};
    }
  }

  /** What no step undoes: recorded outcomes, the first failure, closing, and the drain. */
  ghost predicate Grows(s: State, s': State) {
    && (forall n | n in s.outcomes :: n in s'.outcomes && s'.outcomes[n] == s.outcomes[n])
    && (s.failure.Some? ==> s'.failure == s.failure)
    && (s.closed ==> s'.closed)
    && (s.drainClosed ==> s'.drainClosed)
  }

  /** Only the call `id` changes, to `c`, which keeps its request and any claim. */
  ghost predicate Replaces(w: World, w': World, id: nat, c: Call) {
    && w'.calls == w.calls[id := c]
    && (id in w.calls ==> c.request == w.calls[id].request && (w.calls[id].claim.Some? ==> c.claim == w.calls[id].claim))
    && (id !in w.calls ==> c.claim.None?)
  }

  /** Nobody but `id` heard from the sink. */
  ghost predicate SameReplies(w: World, w': World, id: nat) {
    w'.replies == w.replies || (id in w'.replies && w'.replies == w.replies[id := w'.replies[id]])
  }

  lemma CallsKept(rules: Rules, w: World, w': World, id: nat, c: Call)
    requires CallsInv(rules, w) && Replaces(w, w', id, c) && Grows(w.shared, w'.shared) && SameReplies(w, w', id)
    requires w'.shared.outcomes == w.shared.outcomes && CallInv(rules, w'.shared, ReplyTo(w', id), c)
    ensures CallsInv(rules, w')
  {
    forall k | k in w'.calls ensures CallInv(rules, w'.shared, ReplyTo(w', k), w'.calls[k]) {
      if k != id {
        assert CallInv(rules, w.shared, ReplyTo(w, k), w.calls[k]);
      }
    }
  }

  /** The outcome recorded in slot n is nobody else's. */
  lemma CallsRecorded(rules: Rules, w: World, w': World, id: nat, c: Call, n: nat, o: Outcome)
    requires CallsInv(rules, w) && Replaces(w, w', id, c) && Grows(w.shared, w'.shared) && w'.replies == w.replies
    requires w'.shared.outcomes == w.shared.outcomes[n := o] && CallInv(rules, w'.shared, ReplyTo(w', id), c)
    requires forall k | k in w.calls && k != id && w.calls[k].claim.Some? :: w.calls[k].claim.value != n
    ensures CallsInv(rules, w')
  {
    forall k | k in w'.calls ensures CallInv(rules, w'.shared, ReplyTo(w', k), w'.calls[k]) {
      if k != id {
        assert CallInv(rules, w.shared, ReplyTo(w, k), w.calls[k]);
      }
    }
  }

  lemma ClaimsKept(rules: Rules, w: World, w': World, id: nat, c: Call)
    requires ClaimsInv(rules, w) && Replaces(w, w', id, c)
    requires w'.owners == w.owners && w'.shared.itemIDs == w.shared.itemIDs && w'.shared.nextSequence == w.shared.nextSequence
    requires c.claim.Some? ==> id in w.calls && c.claim == w.calls[id].claim
    ensures ClaimsInv(rules, w')
  {
    forall k | k in w'.calls && w'.calls[k].claim.Some? ensures ClaimInv(rules, w', k) {
      assert ClaimInv(rules, w, k);
    }
    forall item | item in w'.shared.itemIDs ensures ItemOf(w', w'.shared.itemIDs[item]) == Some(item) {
      assert ItemOf(w, w.shared.itemIDs[item]) == Some(item);
    }
  }

  lemma OutcomesKept(rules: Rules, w: World, w': World, id: nat, c: Call)
    requires OutcomesInv(rules, w) && Replaces(w, w', id, c)
    requires w'.shared.outcomes == w.shared.outcomes && w'.replies == w.replies && w.owners <= w'.owners
    ensures OutcomesInv(rules, w')
  {}

  /** The call that hears from the sink has no outcome yet. */
  lemma OutcomesUnheard(rules: Rules, w: World, w': World, id: nat, c: Call)
    requires OutcomesInv(rules, w) && ClaimsInv(rules, w) && Replaces(w, w', id, c) && SameReplies(w, w', id)
    requires id in w.calls && w.calls[id].claim.Some? && w.calls[id].claim.value !in w.shared.outcomes
    requires w'.shared.outcomes == w.shared.outcomes && w'.owners == w.owners
    ensures OutcomesInv(rules, w')
  {
    forall n | n in w.shared.outcomes ensures w.owners[n] in w.calls && w.owners[n] != id {
      assert w.calls[w.owners[n]].claim == Some(n);
    }
  }

  lemma SinkKept(rules: Rules, w: World, w': World, id: nat, c: Call)
    requires SinkInv(rules, w) && Replaces(w, w', id, c) && w'.replies == w.replies && w'.sinkCalls == w.sinkCalls
    ensures SinkInv(rules, w')
  {}

  /** The drain bookkeeping matches the calls once `id` has become `c`. */
  ghost predicate DrainMatches(w: World, s: State, id: nat, c: Call) {
    var delta := (if InFlight(c) then 1 else 0) - (if id in w.calls && InFlight(w.calls[id]) then 1 else 0);
    && s.inFlight == w.shared.inFlight + delta
    && (s.drainClosed <==> s.closed && s.inFlight == 0)
    && s.drainCloses == if s.drainClosed then 1 else 0
  }

  lemma DrainKept(w: World, w': World, id: nat, c: Call)
    requires DrainInv(w) && w'.calls == w.calls[id := c] && DrainMatches(w, w'.shared, id, c)
    ensures DrainInv(w')
  {
    InFlightUpdate(w.calls, id, c);
  }

  ghost predicate SameClaims(s: State, s': State) {
    s'.itemIDs == s.itemIDs && s'.nextSequence == s.nextSequence && s'.outcomes == s.outcomes
  }

  /** A step that changes one call and leaves claims, outcomes and replies alone. */
  lemma QuietStep(rules: Rules, w: World, s: State, id: nat, c: Call)
    requires Inv(rules, w) && SameClaims(w.shared, s) && Grows(w.shared, s)
    requires if id in w.calls then c.request == w.calls[id].request && c.claim == w.calls[id].claim else c.claim.None?
    requires CallInv(rules, s, ReplyTo(w, id), c) && DrainMatches(w, s, id, c)
    ensures Inv(rules, Put(w, s, id, c))
  {
    var w' := Put(w, s, id, c);
    assert Replaces(w, w', id, c);
    CallsKept(rules, w, w', id, c);
    ClaimsKept(rules, w, w', id, c);
    OutcomesKept(rules, w, w', id, c);
    SinkKept(rules, w, w', id, c);
    DrainKept(w, w', id, c);
  }

  lemma BeginInv(rules: Rules, w: World, id: nat, request: Request)
    requires Inv(rules, w) && id !in w.calls
    ensures Inv(rules, Put(w, w.shared, id, Call(request, None, Start)))
  {
    QuietStep(rules, w, w.shared, id, Call(request, None, Start));
  }

  lemma CloseInv(rules: Rules, w: World, id: nat)
    requires Inv(rules, w) && id in w.calls && w.calls[id].pc.Start? && w.calls[id].request.FinalizeRun?
    ensures Inv(rules, Put(w, Close(w.shared), id, w.calls[id].(pc := Waiting)))
  {
    QuietStep(rules, w, Close(w.shared), id, w.calls[id].(pc := Waiting));
  }

  lemma RefuseInv(rules: Rules, w: World, id: nat, e: Error)
    requires Inv(rules, w) && id in w.calls && w.calls[id].pc.Start? && !w.calls[id].request.FinalizeRun?
    ensures Inv(rules, Put(w, w.shared, id, w.calls[id].(pc := Refused(e))))
  {
    assert CallInv(rules, w.shared, ReplyTo(w, id), w.calls[id]);
    QuietStep(rules, w, w.shared, id, w.calls[id].(pc := Refused(e)));
  }

  lemma RefusedInv(rules: Rules, w: World, id: nat, e: Error)
    requires Inv(rules, w) && id in w.calls && w.calls[id].pc == Refused(e)
    ensures Inv(rules, Put(w, RecordFailure(w.shared, e), id, w.calls[id].(pc := Done(Errored(e)))))
  {
    assert CallInv(rules, w.shared, ReplyTo(w, id), w.calls[id]);
    QuietStep(rules, w, RecordFailure(w.shared, e), id, w.calls[id].(pc := Done(Errored(e))));
  }

  lemma FailInv(rules: Rules, w: World, id: nat, e: Error)
    requires Inv(rules, w) && id in w.calls && w.calls[id].pc == Failing(e)
    ensures Inv(rules, Put(w, RecordFailure(w.shared, e), id,
                                 w.calls[id].(pc := AfterRecord(w.calls[id].request, Errored(e)))))
  {
    assert CallInv(rules, w.shared, ReplyTo(w, id), w.calls[id]);
    QuietStep(rules, w, RecordFailure(w.shared, e), id, w.calls[id].(pc := AfterRecord(w.calls[id].request, Errored(e))));
  }

  lemma SettleInv(rules: Rules, w: World, id: nat, r: CallResult)
    requires Inv(rules, w) && id in w.calls && w.calls[id].pc == Settling(r)
    ensures Inv(rules, Put(w, Settle(w.shared), id, w.calls[id].(pc := Done(r))))
  {
    assert CallInv(rules, w.shared, ReplyTo(w, id), w.calls[id]);
    assert id in InFlightCalls(w.calls);
    QuietStep(rules, w, Settle(w.shared), id, w.calls[id].(pc := Done(r)));
  }

  lemma WakeInv(rules: Rules, w: World, id: nat, r: CallResult)
    requires Inv(rules, w) && id in w.calls && w.calls[id].pc.Waiting?
    requires r == Cancelled || (r == Drained && w.shared.drainClosed)
    ensures Inv(rules, Put(w, w.shared, id, w.calls[id].(pc := Done(r))))
  {
    assert CallInv(rules, w.shared, ReplyTo(w, id), w.calls[id]);
    QuietStep(rules, w, w.shared, id, w.calls[id].(pc := Done(r)));
  }

  /** Claiming appends the caller to the owners and the item to the table. */
  lemma ClaimsExtended(rules: Rules, w: World, w': World, id: nat, c: Call, item: string)
    requires ClaimsInv(rules, w) && Replaces(w, w', id, c)
    requires id in w.calls && w.calls[id].claim.None? && !c.request.FinalizeRun? && c.request.itemID == item
    requires item !in w.shared.itemIDs && rules.claims(c.request)
    requires c.claim == Some(|w.owners|) && w'.owners == w.owners + [id]
    requires w'.shared.nextSequence == |w.owners| + 1 && w'.shared.itemIDs == w.shared.itemIDs[item := |w.owners|]
    ensures ClaimsInv(rules, w')
  {
    forall n | 0 <= n < |w'.owners| ensures w'.owners[n] in w'.calls && w'.calls[w'.owners[n]].claim == Some(n) {
      if n < |w.owners| { assert w'.owners[n] == w.owners[n]; }
    }
    forall k | k in w'.calls && w'.calls[k].claim.Some? ensures ClaimInv(rules, w', k) {
      if k != id { assert ClaimInv(rules, w, k); }
    }
    forall i | i in w'.shared.itemIDs
      ensures w'.shared.itemIDs[i] < |w'.owners| && ItemOf(w', w'.shared.itemIDs[i]) == Some(i)
    {
      if i != item { assert ItemOf(w, w.shared.itemIDs[i]) == Some(i); }
    }
  }

  lemma ClaimStepInv(rules: Rules, w: World, id: nat)
    requires Inv(rules, w) && id in w.calls && w.calls[id].pc.Start? && !w.calls[id].request.FinalizeRun?
    requires w.calls[id].request.itemID !in w.shared.itemIDs && !w.shared.closed && rules.claims(w.calls[id].request)
    ensures Inv(rules, ClaimStep(w, id, w.calls[id].request.itemID, w.calls[id].request.SubmitItem?))
  {
    var request := w.calls[id].request;
    var c := Call(request, Some(|w.owners|), Claimed(|w.owners|));
    ClaimedInv(rules, w, ClaimStep(w, id, request.itemID, request.SubmitItem?), id, c);
  }

  lemma ClaimedInv(rules: Rules, w: World, w': World, id: nat, c: Call)
    requires Inv(rules, w) && id in w.calls && w.calls[id].pc.Start? && c.request == w.calls[id].request
    requires c.claim == Some(|w.owners|) && c.pc == Claimed(|w.owners|)
    requires w'.calls == w.calls[id := c] && w'.owners == w.owners + [id] && w'.replies == w.replies && w'.sinkCalls == w.sinkCalls
    requires !c.request.FinalizeRun? && c.request.itemID !in w.shared.itemIDs && !w.shared.closed && rules.claims(c.request)
    requires w'.shared == Claim(w.shared, c.request.itemID, c.request.SubmitItem?)
    ensures Inv(rules, w')
  {
    assert CallInv(rules, w.shared, ReplyTo(w, id), w.calls[id]);
    assert Replaces(w, w', id, c);
    ClaimsExtended(rules, w, w', id, c, c.request.itemID);
    assert CallsInv(rules, w') by {
      assert |w.owners| !in w.shared.outcomes;
      CallsKept(rules, w, w', id, c);
    }
    OutcomesKept(rules, w, w', id, c);
    SinkKept(rules, w, w', id, c);
    DrainKept(w, w', id, c);
  }

  lemma SinkAsked(rules: Rules, w: World, w': World, id: nat, c: Call, reply: SinkReply)
    requires SinkInv(rules, w) && Replaces(w, w', id, c) && id !in w.replies
    requires w'.replies == w.replies[id := reply] && w'.sinkCalls == w.sinkCalls + 1
    requires rules.asks(c.request) && c.claim.Some?
    ensures SinkInv(rules, w')
  {
    assert w'.replies.Keys == w.replies.Keys + {id};
    assert |w'.replies| == |w.replies| + 1;
  }

  /** A claimed call is entitled to what it decides. */
  lemma DecisionInv(rules: Rules, s: State, c: Call, n: nat, reply: Option<SinkReply>)
    requires c.claim == Some(n) && n !in s.outcomes && rules.claims(c.request)
    ensures CallInv(rules, s, reply, c.(pc := PcOf(n, rules.decides(c.request, reply))))
  {}

  lemma DecideInv(rules: Rules, w: World, id: nat, n: nat, reply: SinkReply)
    requires Fair(rules) && Inv(rules, w) && id in w.calls && w.calls[id].pc == Claimed(n)
    ensures Inv(rules, DecideStep(rules, w, id, n, reply))
  {
    if rules.asks(w.calls[id].request) {
      AskInv(rules, w, id, n, reply);
    } else {
      DecideAloneInv(rules, w, id, n);
    }
  }

  lemma DecideAloneInv(rules: Rules, w: World, id: nat, n: nat)
    requires Inv(rules, w) && id in w.calls && w.calls[id].pc == Claimed(n)
    ensures Inv(rules, Put(w, w.shared, id, w.calls[id].(pc := PcOf(n, rules.decides(w.calls[id].request, None)))))
  {
    assert CallInv(rules, w.shared, ReplyTo(w, id), w.calls[id]);
    assert ClaimInv(rules, w, id);
    DecisionInv(rules, w.shared, w.calls[id], n, None);
    QuietStep(rules, w, w.shared, id, w.calls[id].(pc := PcOf(n, rules.decides(w.calls[id].request, None))));
  }

  lemma AskInv(rules: Rules, w: World, id: nat, n: nat, reply: SinkReply)
    requires Fair(rules) && Inv(rules, w) && id in w.calls && w.calls[id].pc == Claimed(n) && rules.asks(w.calls[id].request)
    ensures Inv(rules, DecideStep(rules, w, id, n, reply))
  {
    var c := w.calls[id].(pc := PcOf(n, rules.decides(w.calls[id].request, Some(reply))));
    assert CallInv(rules, w.shared, ReplyTo(w, id), w.calls[id]);
    assert ClaimInv(rules, w, id);
    DecisionInv(rules, w.shared, w.calls[id], n, Some(reply));
    AskedInv(rules, w, DecideStep(rules, w, id, n, reply), id, c, reply);
  }

  lemma AskedInv(rules: Rules, w: World, w': World, id: nat, c: Call, reply: SinkReply)
    requires Inv(rules, w) && id in w.calls && w.calls[id].pc.Claimed? && rules.asks(c.request)
    requires c.request == w.calls[id].request && c.claim == w.calls[id].claim && InFlight(c)
    requires w' == Put(w, w.shared, id, c).(replies := w.replies[id := reply], sinkCalls := w.sinkCalls + 1)
    requires CallInv(rules, w.shared, Some(reply), c)
    ensures Inv(rules, w')
  {
    assert CallInv(rules, w.shared, ReplyTo(w, id), w.calls[id]);
    assert Replaces(w, w', id, c);
    CallsKept(rules, w, w', id, c);
    ClaimsKept(rules, w, w', id, c);
    OutcomesUnheard(rules, w, w', id, c);
    SinkAsked(rules, w, w', id, c, reply);
    DrainKept(w, w', id, c);
  }

  lemma OutcomesExtended(rules: Rules, w: World, w': World, id: nat, c: Call, n: nat, o: Outcome)
    requires OutcomesInv(rules, w) && Replaces(w, w', id, c) && id in w.calls
    requires w'.owners == w.owners && w'.replies == w.replies && w'.shared.outcomes == w.shared.outcomes[n := o]
    requires n < |w.owners| && w.owners[n] == id && Earned(rules, c.request, ReplyTo(w, id), o)
    ensures OutcomesInv(rules, w')
  {}

  lemma RecordInv(rules: Rules, w: World, id: nat, n: nat, o: Outcome)
    requires Inv(rules, w) && id in w.calls && w.calls[id].pc == Recording(n, o)
    ensures Inv(rules, Put(w, RecordOutcome(w.shared, n, o), id,
                           w.calls[id].(pc := AfterRecord(w.calls[id].request, Returned(o)))))
  {
    var c := w.calls[id].(pc := AfterRecord(w.calls[id].request, Returned(o)));
    assert CallInv(rules, w.shared, ReplyTo(w, id), w.calls[id]);
    assert ClaimInv(rules, w, id);
    RecordedInv(rules, w, Put(w, RecordOutcome(w.shared, n, o), id, c), id, c, n, o);
  }

  lemma RecordedInv(rules: Rules, w: World, w': World, id: nat, c: Call, n: nat, o: Outcome)
    requires Inv(rules, w) && id in w.calls && c.request == w.calls[id].request && c.claim == w.calls[id].claim == Some(n)
    requires n < |w.owners| && w.owners[n] == id && n !in w.shared.outcomes && Earned(rules, c.request, ReplyTo(w, id), o)
    requires InFlight(c) == InFlight(w.calls[id]) && c.pc == AfterRecord(c.request, Returned(o))
    requires w' == Put(w, RecordOutcome(w.shared, n, o), id, c)
    ensures Inv(rules, w')
  {
    assert Replaces(w, w', id, c);
    OtherClaims(rules, w, id, n);
    CallsRecorded(rules, w, w', id, c, n, o);
    ClaimsKept(rules, w, w', id, c);
    OutcomesExtended(rules, w, w', id, c, n, o);
    SinkKept(rules, w, w', id, c);
    DrainKept(w, w', id, c);
  }

  lemma OtherClaims(rules: Rules, w: World, id: nat, n: nat)
    requires ClaimsInv(rules, w) && n < |w.owners| && w.owners[n] == id
    ensures forall k | k in w.calls && k != id && w.calls[k].claim.Some? :: w.calls[k].claim.value != n
  {
    forall k | k in w.calls && k != id && w.calls[k].claim.Some? ensures w.calls[k].claim.value != n {
      assert ClaimInv(rules, w, k);
    }
  }

  lemma EnterInv(rules: Rules, w: World, id: nat)
    requires Fair(rules) && Inv(rules, w) && id in w.calls && w.calls[id].pc.Start?
    ensures Inv(rules, EnterStep(rules, w, id))
  {
    var request := w.calls[id].request;
    if request.FinalizeRun? {
      CloseInv(rules, w, id);
    } else if rules.refuses(w.shared, request).Some? {
      RefuseInv(rules, w, id, rules.refuses(w.shared, request).value);
    } else {
      ClaimStepInv(rules, w, id);
    }
  }

  lemma SameWorld(rules: Rules, a: World, b: World)
    requires a == b && Inv(rules, a)
    ensures Inv(rules, b)
  {}

  lemma RecordingMoves(rules: Rules, w: World, id: nat, reply: SinkReply, cancel: bool)
    requires id in w.calls && w.calls[id].pc.Recording?
    ensures var call := w.calls[id];
            Advanced(rules, w, id, reply, cancel) ==
            Put(w, RecordOutcome(w.shared, call.pc.sequence, call.pc.outcome), id,
                call.(pc := AfterRecord(call.request, Returned(call.pc.outcome))))
  {}

  lemma SettlingMoves(rules: Rules, w: World, id: nat, reply: SinkReply, cancel: bool)
    requires id in w.calls && w.calls[id].pc.Settling?
    ensures Advanced(rules, w, id, reply, cancel) == Put(w, Settle(w.shared), id, w.calls[id].(pc := Done(w.calls[id].pc.result)))
  {}

  lemma WaitingMoves(rules: Rules, w: World, id: nat, reply: SinkReply, cancel: bool)
    requires id in w.calls && w.calls[id].pc.Waiting?
    ensures Advanced(rules, w, id, reply, cancel) == Put(w, w.shared, id, w.calls[id].(pc := Done(if cancel then Cancelled else Drained)))
  {}

  lemma AdvanceStart(rules: Rules, w: World, id: nat, reply: SinkReply, cancel: bool)
    requires Fair(rules) && Inv(rules, w) && id in w.calls && w.calls[id].pc.Start?
    ensures Inv(rules, Advanced(rules, w, id, reply, cancel))
  {
    EnterInv(rules, w, id);
  }

  lemma AdvanceRefused(rules: Rules, w: World, id: nat, reply: SinkReply, cancel: bool)
    requires Fair(rules) && Inv(rules, w) && id in w.calls && w.calls[id].pc.Refused?
    ensures Inv(rules, Advanced(rules, w, id, reply, cancel))
  {
    RefusedInv(rules, w, id, w.calls[id].pc.error);
  }

  lemma AdvanceClaimed(rules: Rules, w: World, id: nat, reply: SinkReply, cancel: bool)
    requires Fair(rules) && Inv(rules, w) && id in w.calls && w.calls[id].pc.Claimed?
    ensures Inv(rules, Advanced(rules, w, id, reply, cancel))
  {
    DecideInv(rules, w, id, w.calls[id].pc.sequence, reply);
  }

  lemma AdvanceFailing(rules: Rules, w: World, id: nat, reply: SinkReply, cancel: bool)
    requires Fair(rules) && Inv(rules, w) && id in w.calls && w.calls[id].pc.Failing?
    ensures Inv(rules, Advanced(rules, w, id, reply, cancel))
  {
    FailInv(rules, w, id, w.calls[id].pc.error);
  }

  lemma AdvanceRecording(rules: Rules, w: World, id: nat, reply: SinkReply, cancel: bool)
    requires Fair(rules) && Inv(rules, w) && id in w.calls && w.calls[id].pc.Recording?
    ensures Inv(rules, Advanced(rules, w, id, reply, cancel))
  {
    var call := w.calls[id];
    RecordInv(rules, w, id, call.pc.sequence, call.pc.outcome);
    RecordingMoves(rules, w, id, reply, cancel);
    SameWorld(rules, Put(w, RecordOutcome(w.shared, call.pc.sequence, call.pc.outcome), id,
                         call.(pc := AfterRecord(call.request, Returned(call.pc.outcome)))), Advanced(rules, w, id, reply, cancel));
  }

  lemma AdvanceSettling(rules: Rules, w: World, id: nat, reply: SinkReply, cancel: bool)
    requires Fair(rules) && Inv(rules, w) && id in w.calls && w.calls[id].pc.Settling?
    ensures Inv(rules, Advanced(rules, w, id, reply, cancel))
  {
    SettleInv(rules, w, id, w.calls[id].pc.result);
    SettlingMoves(rules, w, id, reply, cancel);
    SameWorld(rules, Put(w, Settle(w.shared), id, w.calls[id].(pc := Done(w.calls[id].pc.result))), Advanced(rules, w, id, reply, cancel));
  }

  lemma AdvanceWaiting(rules: Rules, w: World, id: nat, reply: SinkReply, cancel: bool)
    requires Fair(rules) && Inv(rules, w) && id in w.calls && w.calls[id].pc.Waiting? && (cancel || w.shared.drainClosed)
    ensures Inv(rules, Advanced(rules, w, id, reply, cancel))
  {
    WakeInv(rules, w, id, if cancel then Cancelled else Drained);
    WaitingMoves(rules, w, id, reply, cancel);
    SameWorld(rules, Put(w, w.shared, id, w.calls[id].(pc := Done(if cancel then Cancelled else Drained))), Advanced(rules, w, id, reply, cancel));
  }

  lemma AdvanceInv(rules: Rules, w: World, id: nat, reply: SinkReply, cancel: bool)
    requires Fair(rules) && Inv(rules, w) && Enabled(w, Advance(id, reply, cancel))
    ensures Inv(rules, Advanced(rules, w, id, reply, cancel))
  {
    match w.calls[id].pc
    case Start => AdvanceStart(rules, w, id, reply, cancel);
    case Refused(_) => AdvanceRefused(rules, w, id, reply, cancel);
    case Claimed(_) => AdvanceClaimed(rules, w, id, reply, cancel);
    case Failing(_) => AdvanceFailing(rules, w, id, reply, cancel);
    case Recording(_, _) => AdvanceRecording(rules, w, id, reply, cancel);
    case Settling(_) => AdvanceSettling(rules, w, id, reply, cancel);
    case Waiting => AdvanceWaiting(rules, w, id, reply, cancel);
  }

  /** Every step, of whichever call, keeps the invariant. */
  lemma StepInv(rules: Rules, w: World, step: Step)
    requires Fair(rules) && Inv(rules, w) && Enabled(w, step)
    ensures Inv(rules, Next(rules, w, step))
  {
    match step
    case Begin(id, request) => BeginInv(rules, w, id, request);
    case Advance(id, reply, cancel) => AdvanceInv(rules, w, id, reply, cancel);
  }
}
