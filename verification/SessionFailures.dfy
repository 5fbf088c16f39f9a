/** When a session that drained without a failure can still record one. */
module SessionFailures {
  import opened Wrappers
  import opened Text
  import opened ConnectorSession
  import opened SessionProtocol
  import opened SessionRuns
  import opened SessionDrain

  // ---------- every recorded failure was reported to a caller ----------

  predicate Reports(c: Call, e: Error) { c.pc == Done(Errored(e)) || c.pc == Settling(Errored(e)) }

  /** The failure on record is one that some call returned, or is about to return. */
  ghost predicate FailureReported(w: World) {
    w.shared.failure.Some? ==> exists id | id in w.calls :: Reports(w.calls[id], w.shared.failure.value)
  }

  lemma ReportedStep(rules: Rules, w: World, step: Step)
    requires FailureReported(w) && Enabled(w, step)
    ensures FailureReported(Next(rules, w, step))
  {
    var w' := Next(rules, w, step);
    FailureStep(rules, w, step);
    if w'.shared.failure.Some? {
      if w.shared.failure.Some? {
        var id :| id in w.calls && Reports(w.calls[id], w.shared.failure.value);
        assert id in w'.calls && Reports(w'.calls[id], w.shared.failure.value);
      } else {
        assert step.id in w'.calls && Reports(w'.calls[step.id], w'.shared.failure.value);
      }
    }
  }

  /** A step keeps the failure there is, or records the one its call is about to report. Other calls, and what a call
      reports, stay as they are. */
  lemma FailureStep(rules: Rules, w: World, step: Step)
    requires Enabled(w, step)
    ensures var w' := Next(rules, w, step);
            && (w.shared.failure.Some? ==> w'.shared.failure == w.shared.failure)
            && (forall id | id in w.calls && id != step.id :: id in w'.calls && w'.calls[id] == w.calls[id])
            && step.id in w'.calls
            && (w.shared.failure.None? && w'.shared.failure.Some? ==> Reports(w'.calls[step.id], w'.shared.failure.value))
            && forall e | step.id in w.calls && Reports(w.calls[step.id], e) :: Reports(w'.calls[step.id], e)
  {
    if step.Advance? {
      AdvancedFailure(rules, w, step.id, step.reply, step.cancel);
    }
  }

  lemma AdvancedFailure(rules: Rules, w: World, id: nat, reply: SinkReply, cancel: bool)
    requires id in w.calls && !w.calls[id].pc.Done?
    ensures var w' := Advanced(rules, w, id, reply, cancel);
            && (w.shared.failure.Some? ==> w'.shared.failure == w.shared.failure)
            && id in w'.calls && w'.calls == w.calls[id := w'.calls[id]]
            && (w.shared.failure.None? && w'.shared.failure.Some? ==> Reports(w'.calls[id], w'.shared.failure.value))
            && forall e | Reports(w.calls[id], e) :: Reports(w'.calls[id], e)
  {
    if w.calls[id].pc.Start? {
      EnteredFailure(rules, w, id);
    }
  }

  lemma EnteredFailure(rules: Rules, w: World, id: nat)
    requires id in w.calls
    ensures var w' := EnterStep(rules, w, id);
            w'.shared.failure == w.shared.failure && id in w'.calls && w'.calls == w.calls[id := w'.calls[id]]
  {}

  // ---------- what a continuation leaves alone ----------

  /** Calls keep their requests and claims, returned calls stay as they are, and once closed nobody claims. */
  ghost predicate Persists(w: World, w': World) {
    && (forall id | id in w.calls :: id in w'.calls && w'.calls[id].request == w.calls[id].request)
    && (forall id | id in w.calls && w.calls[id].claim.Some? :: id in w'.calls && w'.calls[id].claim == w.calls[id].claim)
    && (forall id | id in w.calls && w.calls[id].pc.Done? :: id in w'.calls && w'.calls[id] == w.calls[id])
    && (w.shared.closed ==>
          && w'.shared.closed
          && forall id | id in w'.calls && w'.calls[id].claim.Some? :: id in w.calls && w.calls[id].claim == w'.calls[id].claim)
  }

  /** A call that advances keeps its request and its claim, and claims nothing once the session is closed. */
  lemma AdvancedKeeps(rules: Rules, w: World, id: nat, reply: SinkReply, cancel: bool)
    requires Fair(rules) && id in w.calls && !w.calls[id].pc.Done? && (w.calls[id].pc.Start? ==> w.calls[id].claim.None?)
    ensures var w' := Advanced(rules, w, id, reply, cancel);
            && id in w'.calls && w'.calls == w.calls[id := w'.calls[id]]
            && w'.calls[id].request == w.calls[id].request && (w.shared.closed ==> w'.shared.closed)
            && (w.calls[id].claim.Some? || w.shared.closed ==> w'.calls[id].claim == w.calls[id].claim)
  {
    if w.calls[id].pc.Start? {
      EnteredKeeps(rules, w, id);
    }
  }

  lemma EnteredKeeps(rules: Rules, w: World, id: nat)
    requires Fair(rules) && id in w.calls && w.calls[id].claim.None?
    ensures var w' := EnterStep(rules, w, id);
            && id in w'.calls && w'.calls == w.calls[id := w'.calls[id]]
            && w'.calls[id].request == w.calls[id].request && (w.shared.closed ==> w'.shared.closed)
            && (w.shared.closed ==> w'.calls[id].claim == w.calls[id].claim)
  {}

  lemma StepPersists(rules: Rules, w: World, step: Step)
    requires Fair(rules) && CallsInv(rules, w) && Enabled(w, step)
    ensures Persists(w, Next(rules, w, step))
  {
    if step.Advance? {
      assert CallInv(rules, w.shared, ReplyTo(w, step.id), w.calls[step.id]);
      AdvancedKeeps(rules, w, step.id, step.reply, step.cancel);
    }
  }

  lemma {:induction false} AfterPersists(rules: Rules, w: World, steps: seq<Step>)
    requires Fair(rules) && Inv(rules, w) && Legal(rules, w, steps) && FailureReported(w)
    ensures Persists(w, After(rules, w, steps)) && FailureReported(After(rules, w, steps))
    decreases |steps|
  {
    if steps != [] {
      var w1 := Next(rules, w, steps[0]);
      StepPersists(rules, w, steps[0]);
      ReportedStep(rules, w, steps[0]);
      StepInv(rules, w, steps[0]);
      AfterPersists(rules, w1, steps[1..]);
      PersistsTransitive(w, w1, After(rules, w, steps));
    }
  }

  lemma PersistsTransitive(a: World, b: World, c: World)
    requires Persists(a, b) && Persists(b, c)
    ensures Persists(a, c)
  {}

  // ---------- late failures ----------

  /** A Submit, Reject or Fail call that returned between the two worlds. */
  predicate ReturnedBetween(w: World, w': World, id: nat) {
    && id in w'.calls && w'.calls[id].pc.Done? && !w'.calls[id].request.FinalizeRun?
    && !(id in w.calls && w.calls[id].pc.Done?)
  }

  /** A Reject or Fail with a valid detail that had claimed its item. */
  predicate Harmless(w: World, id: nat) {
    && id in w.calls && w.calls[id].claim.Some?
    && match w.calls[id].request
       case RejectItem(_, _, detail) => ValidText(detail, MAX_ID_LENGTH)
       case FailItem(_, _, detail) => ValidText(detail, MAX_ID_LENGTH)
       case _ => false
  }

  /** The same, in terms of the rules. */
  ghost predicate Succeeds(rules: Rules, w: World, id: nat) {
    && id in w.calls && w.calls[id].claim.Some?
    && !w.calls[id].request.SubmitItem? && rules.decides(w.calls[id].request, None).Success?
  }

  lemma NotAsked(rules: Rules, w: World, id: nat)
    requires Fair(rules) && SinkInv(rules, w) && id in w.calls && !w.calls[id].request.SubmitItem?
    ensures ReplyTo(w, id).None?
  {}

  /** A call that returned after the drain reported no error exactly when it was bound to succeed. */
  lemma ReturnedWell(rules: Rules, w: World, w': World, id: nat)
    requires Fair(rules) && Inv(rules, w) && Inv(rules, w') && Persists(w, w')
    requires w.shared.drainClosed && ReturnedBetween(w, w', id)
    ensures w'.calls[id].pc.result.Errored? <==> !Succeeds(rules, w, id)
  {
    var c := w'.calls[id];
    assert CallInv(rules, w'.shared, ReplyTo(w', id), c);
    if c.claim.Some? {
      assert id in w.calls && w.calls[id].claim == c.claim;
      if w.calls[id].request.SubmitItem? {
        SubmitSettled(rules, w, id);
        assert false;
      }
      NotAsked(rules, w', id);
    }
  }

  lemma LateFailure(rules: Rules, w: World, w': World)
    requires Fair(rules) && Inv(rules, w) && Inv(rules, w') && Persists(w, w') && FailureReported(w')
    requires w.shared.drainClosed && w'.shared.drainClosed && w.shared.failure.None?
    ensures w'.shared.failure.None? <==> forall id | ReturnedBetween(w, w', id) :: Succeeds(rules, w, id)
  {
    if w'.shared.failure.Some? {
      var id := Culprit(rules, w, w');
    } else {
      forall id | ReturnedBetween(w, w', id) ensures Succeeds(rules, w, id) {
        NoCulprit(rules, w, w', id);
      }
    }
  }

  lemma Culprit(rules: Rules, w: World, w': World) returns (id: nat)
    requires Fair(rules) && Inv(rules, w) && Inv(rules, w') && Persists(w, w') && FailureReported(w')
    requires w.shared.drainClosed && w'.shared.drainClosed && w.shared.failure.None? && w'.shared.failure.Some?
    ensures ReturnedBetween(w, w', id) && !Succeeds(rules, w, id)
  {
    id := LateReporter(rules, w, w');
    ReturnedWell(rules, w, w', id);
  }

  lemma NoCulprit(rules: Rules, w: World, w': World, id: nat)
    requires Fair(rules) && Inv(rules, w) && Inv(rules, w') && Persists(w, w')
    requires w.shared.drainClosed && w'.shared.failure.None? && ReturnedBetween(w, w', id)
    ensures Succeeds(rules, w, id)
  {
    ReturnedWell(rules, w, w', id);
    if w'.calls[id].pc.result.Errored? {
      ErrorOnRecord(rules, w', id);
    }
  }

  lemma ErrorOnRecord(rules: Rules, w: World, id: nat)
    requires CallsInv(rules, w) && id in w.calls && w.calls[id].pc.Done? && w.calls[id].pc.result.Errored?
    ensures w.shared.failure.Some?
  {
    assert CallInv(rules, w.shared, ReplyTo(w, id), w.calls[id]);
  }

  /** The call that reported the late failure returned it since. */
  lemma LateReporter(rules: Rules, w: World, w': World) returns (id: nat)
    requires CallsInv(rules, w) && Inv(rules, w') && Persists(w, w') && FailureReported(w')
    requires w'.shared.drainClosed && w.shared.failure.None? && w'.shared.failure.Some?
    ensures ReturnedBetween(w, w', id) && w'.calls[id].pc.result.Errored?
  {
    id :| id in w'.calls && Reports(w'.calls[id], w'.shared.failure.value);
    ReporterReturned(rules, w', id, w'.shared.failure.value);
    if id in w.calls && w.calls[id].pc.Done? {
      ErrorOnRecord(rules, w, id);
    }
  }

  /** Once drained, a call that reports an error has returned it. */
  lemma ReporterReturned(rules: Rules, w: World, id: nat, e: Error)
    requires CallsInv(rules, w) && ClaimsInv(rules, w) && DrainInv(w) && w.shared.drainClosed
    requires id in w.calls && Reports(w.calls[id], e)
    ensures w.calls[id].pc == Done(Errored(e)) && !w.calls[id].request.FinalizeRun?
  {
    assert CallInv(rules, w.shared, ReplyTo(w, id), w.calls[id]);
    assert id !in InFlightCalls(w.calls);
    if w.calls[id].claim.Some? {
      assert ClaimInv(rules, w, id);
    }
  }

  lemma RulesDecide(definitions: set<string>, w: World, id: nat)
    ensures Succeeds(RulesOf(definitions), w, id) <==> Harmless(w, id)
  {}

  /** A session that drained without a failure stays without one, however the run continues, exactly when every Submit,
      Reject or Fail that returns from then on is a Reject or Fail that had claimed its item and has a valid detail. */
  lemma LateFailureIff(definitions: set<string>, steps: seq<Step>, more: seq<Step>)
    requires IsRun(definitions, steps) && Legal(RulesOf(definitions), EndOf(definitions, steps), more)
    requires EndOf(definitions, steps).shared.drainClosed && EndOf(definitions, steps).shared.failure.None?
    ensures var w := EndOf(definitions, steps);
            var w' := After(RulesOf(definitions), w, more);
            w'.shared.failure.None? <==> forall id | ReturnedBetween(w, w', id) :: Harmless(w, id)
  {
    var rules, w := RulesOf(definitions), EndOf(definitions, steps);
    var w' := After(rules, w, more);
    RunInv(definitions, steps);
    AfterInv(rules, w, more);
    AfterGrows(rules, w, more);
    AfterPersists(rules, w, more);
    LateFailure(rules, w, w');
    forall id ensures Succeeds(rules, w, id) <==> Harmless(w, id) {
      RulesDecide(definitions, w, id);
    }
  }

  /** Such a call exists: one made after the drain is refused, and its refusal is recorded. */
  lemma FailureAfterDrain() returns (steps: seq<Step>, more: seq<Step>)
    ensures IsRun({"d"}, steps) && Legal(RulesOf({"d"}), EndOf({"d"}, steps), more)
    ensures EndOf({"d"}, steps).shared.drainClosed && EndOf({"d"}, steps).shared.failure.None?
    ensures After(RulesOf({"d"}), EndOf({"d"}, steps), more).shared.failure == Some(RunError("session"))
  {
    ShortTextIsValid('a');
    var d := RulesOf({"d"});
    var s0, s1 := Begin(0, FinalizeRun), Advance(0, REPLY, false);
    var s2, s3 := Begin(1, RejectItem("a", "d", "x")), Advance(1, REPLY, false);
    var w1 := Next(d, INITIAL_WORLD, s0);
    var w2 := Next(d, w1, s1);
    assert w2.shared == Close(INITIAL);
    var w3 := Next(d, w2, s2);
    var w4 := Next(d, w3, s3);
    assert w4.calls[1].pc == Refused(RunError("session"));
    StepThen(d, w1, s1, []);
    StepThen(d, INITIAL_WORLD, s0, [s1]);
    StepThen(d, w4, s3, []);
    StepThen(d, w3, s3, [s3]);
    StepThen(d, w2, s2, [s3, s3]);
    assert [s1] + [] == [s1] && [s3] + [] == [s3] && [s3] + [s3] == [s3, s3];
    steps, more := [s0] + [s1], [s2] + [s3, s3];
  }
}
