/** What holds over whole runs of a session, for every interleaving of Submit, Reject, Fail and Finalize. */
module SessionRuns {
  import opened Wrappers
  import opened Text
  import opened SourceModel
  import opened ConnectorSession
  import opened SessionProtocol

  // ---------- runs ----------

  /** Every step is enabled where it is taken. */
  predicate Legal(rules: Rules, w: World, steps: seq<Step>)
    decreases |steps|
  {
    steps != [] ==> Enabled(w, steps[0]) && Legal(rules, Next(rules, w, steps[0]), steps[1..])
  }

  function After(rules: Rules, w: World, steps: seq<Step>): World
    requires Legal(rules, w, steps)
    decreases |steps|
  { if steps == [] then w else After(rules, Next(rules, w, steps[0]), steps[1..]) }

  /** `steps` is a run of a fresh session with these declared definitions. */
  predicate IsRun(definitions: set<string>, steps: seq<Step>) { Legal(RulesOf(definitions), INITIAL_WORLD, steps) }

  function EndOf(definitions: set<string>, steps: seq<Step>): World
    requires IsRun(definitions, steps)
  { After(RulesOf(definitions), INITIAL_WORLD, steps) }

  lemma {:induction false} AfterInv(rules: Rules, w: World, steps: seq<Step>)
    requires Fair(rules) && Inv(rules, w) && Legal(rules, w, steps)
    ensures Inv(rules, After(rules, w, steps))
    decreases |steps|
  {
    if steps != [] {
      StepInv(rules, w, steps[0]);
      AfterInv(rules, Next(rules, w, steps[0]), steps[1..]);
    }
  }

  /** The invariant holds at the end of every run. */
  lemma RunInv(definitions: set<string>, steps: seq<Step>)
    requires IsRun(definitions, steps)
    ensures Fair(RulesOf(definitions)) && Inv(RulesOf(definitions), EndOf(definitions, steps))
  {
    RulesAreFair(definitions);
    InitialInv(RulesOf(definitions));
    AfterInv(RulesOf(definitions), INITIAL_WORLD, steps);
  }

  /** The same for conclusions that do not depend on what the rules are. */
  lemma SomeInv(definitions: set<string>, steps: seq<Step>) returns (rules: Rules)
    requires IsRun(definitions, steps)
    ensures Fair(rules) && Inv(rules, EndOf(definitions, steps))
  {
    RunInv(definitions, steps);
    rules := RulesOf(definitions);
  }

  lemma {:induction false} AfterConcat(rules: Rules, w: World, first: seq<Step>, second: seq<Step>)
    requires Legal(rules, w, first) && Legal(rules, After(rules, w, first), second)
    ensures Legal(rules, w, first + second)
    ensures After(rules, w, first + second) == After(rules, After(rules, w, first), second)
    decreases |first|
  {
    if first == [] {
      assert first + second == second;
    } else {
      AfterConcat(rules, Next(rules, w, first[0]), first[1..], second);
      assert (first + second)[1..] == first[1..] + second;
    }
  }

  lemma StepThen(rules: Rules, w: World, step: Step, rest: seq<Step>)
    requires Enabled(w, step) && Legal(rules, Next(rules, w, step), rest)
    ensures Legal(rules, w, [step] + rest)
    ensures After(rules, w, [step] + rest) == After(rules, Next(rules, w, step), rest)
  {
    assert ([step] + rest)[1..] == rest;
  }

  // ---------- no item is lost ----------

  /** The item of a claiming call has exactly one recorded outcome, in the slot it claimed. */
  ghost predicate RecordedOnce(w: World, id: nat)
    requires id in w.calls && w.calls[id].claim.Some? && !w.calls[id].request.FinalizeRun?
  {
    var c := w.calls[id];
    && c.claim.value in w.shared.outcomes
    && w.shared.outcomes[c.claim.value].itemID == c.request.itemID
    && forall n | n in w.shared.outcomes && w.shared.outcomes[n].itemID == c.request.itemID :: n == c.claim.value
  }

  /** A recorded outcome names the item that was claimed under its sequence number. */
  lemma OutcomeNamesItsClaim(rules: Rules, w: World, n: nat)
    requires Fair(rules) && ClaimsInv(rules, w) && OutcomesInv(rules, w) && n in w.shared.outcomes
    ensures var item := w.shared.outcomes[n].itemID; item in w.shared.itemIDs && w.shared.itemIDs[item] == n
  {
    var owner := w.owners[n];
    assert Earned(rules, w.calls[owner].request, ReplyTo(w, owner), w.shared.outcomes[n]);
    assert w.calls[owner].claim == Some(n);
    assert ClaimInv(rules, w, owner);
  }

  lemma RecordedItem(rules: Rules, w: World, id: nat)
    requires Fair(rules) && Inv(rules, w) && id in w.calls && w.calls[id].claim.Some?
    requires w.calls[id].claim.value in w.shared.outcomes
    ensures !w.calls[id].request.FinalizeRun? && RecordedOnce(w, id)
  {
    assert ClaimInv(rules, w, id);
    var c := w.calls[id];
    OutcomeNamesItsClaim(rules, w, c.claim.value);
    assert Earned(rules, c.request, ReplyTo(w, id), w.shared.outcomes[c.claim.value]);
    forall n | n in w.shared.outcomes && w.shared.outcomes[n].itemID == c.request.itemID ensures n == c.claim.value {
      OutcomeNamesItsClaim(rules, w, n);
    }
  }

  /** Once the session is drained with no failure recorded, every item claimed by Submit has exactly one outcome. */
  lemma NothingLost(definitions: set<string>, steps: seq<Step>, id: nat)
    requires IsRun(definitions, steps)
    requires var w := EndOf(definitions, steps);
             && w.shared.drainClosed && w.shared.failure.None?
             && id in w.calls && w.calls[id].request.SubmitItem? && w.calls[id].claim.Some?
    ensures RecordedOnce(EndOf(definitions, steps), id)
  {
    var rules := SomeInv(definitions, steps);
    var w := EndOf(definitions, steps);
    SubmitSettled(rules, w, id);
    RecordedItem(rules, w, id);
  }

  /** Drained means that every claimed Submit is back at its caller with its item accounted for. */
  lemma SubmitSettled(rules: Rules, w: World, id: nat)
    requires Inv(rules, w) && w.shared.drainClosed
    requires id in w.calls && w.calls[id].request.SubmitItem? && w.calls[id].claim.Some?
    ensures w.calls[id].pc.Done? && Accounted(rules, w.shared, w.calls[id], ReplyTo(w, id), w.calls[id].pc.result)
  {
    assert |InFlightCalls(w.calls)| == 0;
    assert id !in InFlightCalls(w.calls);
    assert CallInv(rules, w.shared, ReplyTo(w, id), w.calls[id]);
  }

  /** When Finalize has returned without error, the same holds of every later state: each Submit that claimed has
      returned, and its item has an outcome unless a failure is on record. */
  lemma FinalizedMeansSettled(definitions: set<string>, steps: seq<Step>, waiter: nat, id: nat)
    requires IsRun(definitions, steps)
    requires var w := EndOf(definitions, steps);
             && waiter in w.calls && w.calls[waiter].pc == Done(Drained)
             && id in w.calls && w.calls[id].request.SubmitItem? && w.calls[id].claim.Some?
    ensures var w := EndOf(definitions, steps);
            && w.shared.closed && w.shared.inFlight == 0 && w.calls[id].pc.Done?
            && (w.shared.failure.None? ==> RecordedOnce(w, id))
  {
    var rules := SomeInv(definitions, steps);
    var w := EndOf(definitions, steps);
    assert CallInv(rules, w.shared, ReplyTo(w, waiter), w.calls[waiter]);
    SubmitSettled(rules, w, id);
    if w.shared.failure.None? {
      RecordedItem(rules, w, id);
    }
  }

  /** Whatever else goes on, a claimed call returns what its request and the sink's reply decide, and its outcome or a
      failure is on record. */
  lemma ResultsAreDecided(definitions: set<string>, steps: seq<Step>, id: nat)
    requires IsRun(definitions, steps)
    requires var w := EndOf(definitions, steps); id in w.calls && w.calls[id].claim.Some? && w.calls[id].pc.Done?
    ensures var w := EndOf(definitions, steps);
            var result := w.calls[id].pc.result;
            match Decision(w.calls[id].request, ReplyTo(w, id))
            case Success(o) =>
              result == Returned(o) && w.calls[id].claim.value in w.shared.outcomes && w.shared.outcomes[w.calls[id].claim.value] == o
            case Failure(e) => result == Errored(e) && w.shared.failure.Some?
  {
    RunInv(definitions, steps);
    var w := EndOf(definitions, steps);
    assert CallInv(RulesOf(definitions), w.shared, ReplyTo(w, id), w.calls[id]);
  }

  /** An accepted outcome exists only where the sink returned the very reference of the submitted observation. */
  lemma AcceptedIsDurable(definitions: set<string>, steps: seq<Step>, n: nat)
    requires IsRun(definitions, steps)
    requires var w := EndOf(definitions, steps); n in w.shared.outcomes && w.shared.outcomes[n].status == Accepted
    ensures var w := EndOf(definitions, steps);
            && n < |w.owners| && w.owners[n] in w.calls && w.owners[n] in w.replies
            && var c := w.calls[w.owners[n]];
               && Submittable(c.request) && c.claim == Some(n)
               && w.replies[w.owners[n]] == SinkAccepted(c.request.observation.value.ref)
               && w.shared.outcomes[n] == AcceptedOutcome(c.request.itemID, c.request.definitionName, c.request.observation.value.ref)
  {
    RunInv(definitions, steps);
    var w := EndOf(definitions, steps);
    DecidedAccepted(w.calls[w.owners[n]].request, ReplyTo(w, w.owners[n]), w.shared.outcomes[n]);
  }

  lemma DecidedAccepted(request: Request, reply: Option<SinkReply>, o: Outcome)
    requires Decision(request, reply) == Success(o) && o.status == Accepted
    ensures Submittable(request) && reply == Some(SinkAccepted(request.observation.value.ref))
    ensures o == AcceptedOutcome(request.itemID, request.definitionName, request.observation.value.ref)
  {}

  /** The caller, or the sink answering it, asked for this rejected or failed outcome. */
  predicate Explains(request: Request, reply: Option<SinkReply>, o: Outcome) {
    match request
    case RejectItem(item, definition, detail) => o == Outcome(item, definition, Rejected, None, Some(detail))
    case FailItem(item, definition, detail) => o == Outcome(item, definition, Failed, None, Some(detail))
    case SubmitItem(item, definition, _) =>
      o.detail.Some? && reply == Some(SinkRejected(o.detail.value)) && o == Outcome(item, definition, Rejected, None, o.detail)
    case FinalizeRun => false
  }

  lemma DecidedUnsafe(request: Request, reply: Option<SinkReply>, o: Outcome)
    requires Decision(request, reply) == Success(o) && o.status != Accepted
    ensures Explains(request, reply, o)
  {}

  /** A rejected or failed outcome exists only where its claimer was told so: by a Reject or Fail call with that detail, or
      by the sink rejecting the submitted observation with that detail. */
  lemma UnsafeIsExplained(definitions: set<string>, steps: seq<Step>, n: nat)
    requires IsRun(definitions, steps)
    requires var w := EndOf(definitions, steps); n in w.shared.outcomes && w.shared.outcomes[n].status != Accepted
    ensures var w := EndOf(definitions, steps);
            && n < |w.owners| && w.owners[n] in w.calls
            && Explains(w.calls[w.owners[n]].request, ReplyTo(w, w.owners[n]), w.shared.outcomes[n])
  {
    RunInv(definitions, steps);
    var w := EndOf(definitions, steps);
    DecidedUnsafe(w.calls[w.owners[n]].request, ReplyTo(w, w.owners[n]), w.shared.outcomes[n]);
  }

  /** The sink is asked at most once per item: distinct sink calls are for distinct items. */
  lemma SinkAskedOncePerItem(definitions: set<string>, steps: seq<Step>)
    requires IsRun(definitions, steps)
    ensures var w := EndOf(definitions, steps);
            && w.sinkCalls == |w.replies|
            && forall a, b | a in w.replies && b in w.replies && a != b ::
                 && a in w.calls && b in w.calls && w.calls[a].request.SubmitItem? && w.calls[b].request.SubmitItem?
                 && w.calls[a].request.itemID != w.calls[b].request.itemID
  {
    var rules := SomeInv(definitions, steps);
    var w := EndOf(definitions, steps);
    forall a, b | a in w.replies && b in w.replies && a != b
      ensures
        && a in w.calls && b in w.calls && w.calls[a].request.SubmitItem? && w.calls[b].request.SubmitItem?
        && w.calls[a].request.itemID != w.calls[b].request.itemID
    {
      assert ClaimInv(rules, w, a) && ClaimInv(rules, w, b);
    }
  }

  /** Some call holds a claim of this item. */
  ghost predicate Taken(w: World, itemID: string) {
    exists k | k in w.calls && w.calls[k].claim.Some? && !w.calls[k].request.FinalizeRun? :: w.calls[k].request.itemID == itemID
  }

  lemma TakenIffClaimed(rules: Rules, w: World, itemID: string)
    requires ClaimsInv(rules, w)
    ensures Taken(w, itemID) <==> itemID in w.shared.itemIDs
  {
    if itemID in w.shared.itemIDs {
      var n := w.shared.itemIDs[itemID];
      assert ItemOf(w, n) == Some(itemID);
      assert w.calls[w.owners[n]].claim == Some(n);
    }
    if k :| k in w.calls && w.calls[k].claim.Some? && !w.calls[k].request.FinalizeRun? && w.calls[k].request.itemID == itemID {
      assert ClaimInv(rules, w, k);
    }
  }

  /** A Submit, Reject or Fail that enters the session obtains the next sequence number exactly when the session is open,
      its identifier is valid and not taken, and its definition is declared. */
  lemma ClaimIsGrantedIff(definitions: set<string>, steps: seq<Step>, id: nat, reply: SinkReply)
    requires IsRun(definitions, steps)
    requires var w := EndOf(definitions, steps);
             id in w.calls && w.calls[id].pc.Start? && !w.calls[id].request.FinalizeRun?
    ensures var w := EndOf(definitions, steps);
            var w' := Next(RulesOf(definitions), w, Advance(id, reply, false));
            var request := w.calls[id].request;
            && id in w'.calls
            && (w'.calls[id].claim.Some? <==>
                  && !w.shared.closed && ValidText(request.itemID, MAX_ID_LENGTH)
                  && !Taken(w, request.itemID) && request.definitionName in definitions)
            && (w'.calls[id].claim.Some? ==> w'.calls[id].claim == Some(w.shared.nextSequence))
  {
    var rules := SomeInv(definitions, steps);
    var w := EndOf(definitions, steps);
    TakenIffClaimed(rules, w, w.calls[id].request.itemID);
    StartUnclaimed(rules, w, id);
    EntryClaims(definitions, w, id);
  }

  lemma StartUnclaimed(rules: Rules, w: World, id: nat)
    requires CallsInv(rules, w) && id in w.calls && w.calls[id].pc.Start?
    ensures w.calls[id].claim.None?
  {
    assert CallInv(rules, w.shared, ReplyTo(w, id), w.calls[id]);
  }

  lemma EntryClaims(definitions: set<string>, w: World, id: nat)
    requires id in w.calls && w.calls[id].claim.None? && !w.calls[id].request.FinalizeRun?
    ensures var w' := EnterStep(RulesOf(definitions), w, id);
            var request := w.calls[id].request;
            && id in w'.calls
            && w'.calls[id].claim == (
                 if !w.shared.closed && ValidText(request.itemID, MAX_ID_LENGTH)
                    && request.itemID !in w.shared.itemIDs && request.definitionName in definitions
                 then Some(w.shared.nextSequence) else None)
  {}

  /** Some item was claimed under this sequence number. */
  ghost predicate IsClaimed(s: State, n: nat) {
    exists item | item in s.itemIDs :: s.itemIDs[item] == n
  }

  /** Claimed identifiers correspond one to one with 0 .. nextSequence-1, and each outcome sits in the slot of its
      own item. */
  lemma ClaimsAreABijection(definitions: set<string>, steps: seq<Step>)
    requires IsRun(definitions, steps)
    ensures var s := EndOf(definitions, steps).shared;
            && (forall item | item in s.itemIDs :: s.itemIDs[item] < s.nextSequence)
            && (forall a, b | a in s.itemIDs && b in s.itemIDs && a != b :: s.itemIDs[a] != s.itemIDs[b])
            && (forall n | 0 <= n < s.nextSequence :: IsClaimed(s, n))
            && (forall n | n in s.outcomes :: s.outcomes[n].itemID in s.itemIDs && s.itemIDs[s.outcomes[n].itemID] == n)
  {
    var rules := SomeInv(definitions, steps);
    var w := EndOf(definitions, steps);
    var s := w.shared;
    forall a, b | a in s.itemIDs && b in s.itemIDs && a != b ensures s.itemIDs[a] != s.itemIDs[b] {
      DistinctItems(rules, w, a, b);
    }
    forall n | 0 <= n < s.nextSequence ensures IsClaimed(s, n) {
      SequenceIsClaimed(rules, w, n);
    }
    forall n | n in s.outcomes ensures s.outcomes[n].itemID in s.itemIDs && s.itemIDs[s.outcomes[n].itemID] == n {
      OutcomeNamesItsClaim(rules, w, n);
    }
  }

  lemma DistinctItems(rules: Rules, w: World, a: string, b: string)
    requires ClaimsInv(rules, w) && a in w.shared.itemIDs && b in w.shared.itemIDs && a != b
    ensures w.shared.itemIDs[a] != w.shared.itemIDs[b]
  {
    assert ItemOf(w, w.shared.itemIDs[a]) == Some(a) && ItemOf(w, w.shared.itemIDs[b]) == Some(b);
  }

  lemma SequenceIsClaimed(rules: Rules, w: World, n: nat)
    requires ClaimsInv(rules, w) && n < w.shared.nextSequence
    ensures IsClaimed(w.shared, n)
  {
    assert w.calls[w.owners[n]].claim == Some(n);
    assert ClaimInv(rules, w, w.owners[n]);
  }

  // ---------- what never changes again ----------

  /** After closing, claims are frozen and the in-flight count only falls. */
  ghost predicate ClosedStays(s: State, s': State) {
    s.closed ==> s'.itemIDs == s.itemIDs && s'.nextSequence == s.nextSequence && s'.inFlight <= s.inFlight
  }

  lemma StepGrows(rules: Rules, w: World, step: Step)
    requires Fair(rules) && Enabled(w, step)
    requires step.Advance? && w.calls[step.id].pc.Recording? ==> w.calls[step.id].pc.sequence !in w.shared.outcomes
    ensures Grows(w.shared, Next(rules, w, step).shared) && ClosedStays(w.shared, Next(rules, w, step).shared)
  {
    if step.Advance? {
      match w.calls[step.id].pc
      case Start => EnterGrows(rules, w, step.id);
      case Claimed(n) => assert Next(rules, w, step).shared == w.shared;
      case _ =>
    }
  }

  lemma EnterGrows(rules: Rules, w: World, id: nat)
    requires Fair(rules) && id in w.calls
    ensures Grows(w.shared, EnterStep(rules, w, id).shared) && ClosedStays(w.shared, EnterStep(rules, w, id).shared)
  {}

  lemma InvStepGrows(rules: Rules, w: World, step: Step)
    requires Fair(rules) && Inv(rules, w) && Enabled(w, step)
    ensures Grows(w.shared, Next(rules, w, step).shared) && ClosedStays(w.shared, Next(rules, w, step).shared)
  {
    if step.Advance? {
      assert CallInv(rules, w.shared, ReplyTo(w, step.id), w.calls[step.id]);
    }
    StepGrows(rules, w, step);
  }

  lemma {:induction false} AfterGrows(rules: Rules, w: World, steps: seq<Step>)
    requires Fair(rules) && Inv(rules, w) && Legal(rules, w, steps)
    ensures Grows(w.shared, After(rules, w, steps).shared)
    ensures ClosedStays(w.shared, After(rules, w, steps).shared)
    decreases |steps|
  {
    if steps != [] {
      InvStepGrows(rules, w, steps[0]);
      StepInv(rules, w, steps[0]);
      AfterGrows(rules, Next(rules, w, steps[0]), steps[1..]);
    }
  }

  /** However a run continues, no recorded outcome is rewritten, the first failure stays the failure, a closed
      session accepts no further claim, and a drained one stays drained. */
  lemma HistoryIsKept(definitions: set<string>, steps: seq<Step>, more: seq<Step>)
    requires IsRun(definitions, steps) && Legal(RulesOf(definitions), EndOf(definitions, steps), more)
    ensures IsRun(definitions, steps + more)
    ensures var s, s' := EndOf(definitions, steps).shared, EndOf(definitions, steps + more).shared;
            Grows(s, s') && ClosedStays(s, s')
  {
    RunInv(definitions, steps);
    AfterGrows(RulesOf(definitions), EndOf(definitions, steps), more);
    AfterConcat(RulesOf(definitions), INITIAL_WORLD, steps, more);
  }
}
