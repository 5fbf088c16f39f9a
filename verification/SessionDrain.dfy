/** How a session drains, for every interleaving: when the drain is signalled, that it is reached under every schedule, and
    what it does not wait for. */
module SessionDrain {
  import opened Wrappers
  import opened Text
  import opened ConnectorSession
  import opened SessionProtocol
  import opened SessionRuns

  /** In every reachable state inFlight counts the Submit calls that claimed and have not settled, the drain is
      signalled exactly when the session is closed and that count is zero, and the channel was closed at most once. */
  lemma DrainIsExact(definitions: set<string>, steps: seq<Step>)
    requires IsRun(definitions, steps)
    ensures var w := EndOf(definitions, steps);
            && w.shared.inFlight == |InFlightCalls(w.calls)|
            && (w.shared.drainClosed <==> w.shared.closed && InFlightCalls(w.calls) == {})
            && w.shared.drainCloses == (if w.shared.drainClosed then 1 else 0)
  {
    var rules := SomeInv(definitions, steps);
  }

  /** After closing, only settling changes the in-flight count, by exactly one, and the settle that reaches zero is
      the step that signals the drain. */
  lemma SettlesCountDown(definitions: set<string>, steps: seq<Step>, step: Step)
    requires IsRun(definitions, steps) && EndOf(definitions, steps).shared.closed && Enabled(EndOf(definitions, steps), step)
    ensures var w := EndOf(definitions, steps);
            var w' := Next(RulesOf(definitions), w, step);
            var settles := step.Advance? && w.calls[step.id].pc.Settling?;
            && w'.shared.inFlight == (if settles then w.shared.inFlight - 1 else w.shared.inFlight)
            && (!w.shared.drainClosed && w'.shared.drainClosed <==> settles && w.shared.inFlight == 1)
  {
    RulesAreFair(definitions);
    var rules := SomeInv(definitions, steps);
    CountedStep(RulesOf(definitions), EndOf(definitions, steps), step);
  }

  /** The same, from the bookkeeping of the drain alone. */
  lemma CountedStep(rules: Rules, w: World, step: Step)
    requires Fair(rules) && Enabled(w, step) && w.shared.closed && (w.shared.drainClosed <==> w.shared.inFlight == 0)
    ensures var w' := Next(rules, w, step);
            var settles := step.Advance? && w.calls[step.id].pc.Settling?;
            && w'.shared.inFlight == (if settles then w.shared.inFlight - 1 else w.shared.inFlight)
            && (!w.shared.drainClosed && w'.shared.drainClosed <==> settles && w.shared.inFlight == 1)
  {
    if step.Advance? {
      match w.calls[step.id].pc
      case Start => assert EnterStep(rules, w, step.id).shared in {w.shared, Close(w.shared)};
      case Claimed(n) => assert Next(rules, w, step).shared == w.shared;
      case _ =>
    }
  }

  // ---------- the work left ----------

  /** How many steps a Submit that claimed is from having settled. */
  function Remaining(c: Call): nat {
    if !InFlight(c) then 0
    else match c.pc
      case Claimed(_) => 3
      case Failing(_) => 2
      case Recording(_, _) => 2
      case _ => 1
  }

  /** One unit for each step that each in-flight call has left. */
  ghost function Units(calls: map<nat, Call>): set<(nat, nat)> {
    set id, k: nat | id in calls && k < Remaining(calls[id]) :: (id, k)
  }

  ghost function Work(w: World): nat { |Units(w.calls)| }

  predicate AdvancesInFlight(w: World, step: Step) {
    step.Advance? && step.id in w.calls && InFlight(w.calls[step.id])
  }

  /** How many steps of a run advance an in-flight call. */
  function InFlightSteps(rules: Rules, w: World, steps: seq<Step>): nat
    requires Legal(rules, w, steps)
    decreases |steps|
  {
    if steps == [] then 0
    else (if AdvancesInFlight(w, steps[0]) then 1 else 0) + InFlightSteps(rules, Next(rules, w, steps[0]), steps[1..])
  }

  lemma SameUnits(calls: map<nat, Call>, id: nat, c: Call)
    requires Remaining(c) == if id in calls then Remaining(calls[id]) else 0
    ensures Units(calls[id := c]) == Units(calls)
  {}

  lemma OneUnitLess(calls: map<nat, Call>, id: nat, c: Call)
    requires id in calls && Remaining(calls[id]) == Remaining(c) + 1
    ensures |Units(calls)| == |Units(calls[id := c])| + 1
  {
    var before, after, unit := Units(calls), Units(calls[id := c]), (id, Remaining(c));
    forall u | u in before ensures u in after + {unit} {
      assert u.0 in calls && u.1 < Remaining(calls[u.0]);
      assert u.0 != id ==> u in after;
    }
    forall u | u in after ensures u in before {
      assert u.0 in calls[id := c] && u.1 < Remaining(calls[id := c][u.0]);
    }
    assert before == after + {unit} && unit !in after;
  }

  /** In a closed session a step of an in-flight call takes it one step closer to settling; no other step puts a call in
      flight. */
  lemma RemainingStep(rules: Rules, w: World, step: Step)
    requires Fair(rules) && Enabled(w, step) && w.shared.closed
    ensures var w' := Next(rules, w, step);
            && step.id in w'.calls && w'.calls == w.calls[step.id := w'.calls[step.id]]
            && if AdvancesInFlight(w, step) then Remaining(w.calls[step.id]) == Remaining(w'.calls[step.id]) + 1
               else Remaining(w'.calls[step.id]) == if step.id in w.calls then Remaining(w.calls[step.id]) else 0
  {
    if step.Advance? {
      AdvancedCall(rules, w, step.id, step.reply, step.cancel);
    }
  }

  lemma AdvancedCall(rules: Rules, w: World, id: nat, reply: SinkReply, cancel: bool)
    requires Fair(rules) && id in w.calls && !w.calls[id].pc.Done? && w.shared.closed
    ensures var w' := Advanced(rules, w, id, reply, cancel);
            && id in w'.calls && w'.calls == w.calls[id := w'.calls[id]]
            && if InFlight(w.calls[id]) then Remaining(w.calls[id]) == Remaining(w'.calls[id]) + 1
               else Remaining(w'.calls[id]) == 0
  {}

  lemma WorkStep(rules: Rules, w: World, step: Step)
    requires Fair(rules) && Enabled(w, step) && w.shared.closed
    ensures Work(Next(rules, w, step)) == Work(w) - (if AdvancesInFlight(w, step) then 1 else 0)
  {
    RemainingStep(rules, w, step);
    var c := Next(rules, w, step).calls[step.id];
    if AdvancesInFlight(w, step) {
      OneUnitLess(w.calls, step.id, c);
    } else {
      SameUnits(w.calls, step.id, c);
    }
  }

  lemma {:induction false} WorkSpent(rules: Rules, w: World, steps: seq<Step>)
    requires Fair(rules) && Inv(rules, w) && w.shared.closed && Legal(rules, w, steps)
    ensures Work(After(rules, w, steps)) + InFlightSteps(rules, w, steps) == Work(w)
    decreases |steps|
  {
    if steps != [] {
      WorkStep(rules, w, steps[0]);
      StepInv(rules, w, steps[0]);
      InvStepGrows(rules, w, steps[0]);
      WorkSpent(rules, Next(rules, w, steps[0]), steps[1..]);
    }
  }

  lemma DrainedWithoutWork(rules: Rules, w: World)
    requires DrainInv(w) && w.shared.closed
    ensures w.shared.drainClosed <==> Work(w) == 0
  {
    if id :| id in InFlightCalls(w.calls) {
      assert (id, 0) in Units(w.calls);
    }
    if u :| u in Units(w.calls) {
      assert u.0 in InFlightCalls(w.calls);
    }
  }

  /** Whatever the schedule and whatever the sink answers, a closed session is drained exactly when its in-flight calls
      have made, between them, as many steps as they had left; more they cannot make. */
  lemma EveryScheduleDrains(definitions: set<string>, steps: seq<Step>, more: seq<Step>)
    requires IsRun(definitions, steps) && EndOf(definitions, steps).shared.closed
    requires Legal(RulesOf(definitions), EndOf(definitions, steps), more)
    ensures var w := EndOf(definitions, steps);
            var made := InFlightSteps(RulesOf(definitions), w, more);
            && made <= Work(w)
            && (After(RulesOf(definitions), w, more).shared.drainClosed <==> made == Work(w))
  {
    var rules, w := RulesOf(definitions), EndOf(definitions, steps);
    RunInv(definitions, steps);
    WorkSpent(rules, w, more);
    AfterGrows(rules, w, more);
    AfterInv(rules, w, more);
    DrainedWithoutWork(rules, After(rules, w, more));
  }

  /** Until then some in-flight call can advance. */
  lemma WorkCanProceed(definitions: set<string>, steps: seq<Step>, replies: nat -> SinkReply) returns (id: nat)
    requires IsRun(definitions, steps) && EndOf(definitions, steps).shared.closed && !EndOf(definitions, steps).shared.drainClosed
    ensures var step := Advance(id, replies(id), false);
            Enabled(EndOf(definitions, steps), step) && AdvancesInFlight(EndOf(definitions, steps), step)
  {
    var rules := SomeInv(definitions, steps);
    id := SomeInFlight(EndOf(definitions, steps));
  }

  lemma SomeInFlight(w: World) returns (id: nat)
    requires DrainInv(w) && w.shared.closed && !w.shared.drainClosed
    ensures id in w.calls && InFlight(w.calls[id])
  {
    assert InFlightCalls(w.calls) != {};
    id :| id in InFlightCalls(w.calls);
  }

  lemma DrainStep(rules: Rules, w: World, replies: nat -> SinkReply) returns (step: Step)
    requires Fair(rules) && Inv(rules, w) && w.shared.closed && !w.shared.drainClosed
    ensures Enabled(w, step) && step.Advance? && step.reply == replies(step.id)
    ensures var w' := Next(rules, w, step); Inv(rules, w') && w'.shared.closed && Work(w') + 1 == Work(w)
  {
    var id := SomeInFlight(w);
    step := Advance(id, replies(id), false);
    WorkStep(rules, w, step);
    StepInv(rules, w, step);
    InvStepGrows(rules, w, step);
  }

  predicate Answers(steps: seq<Step>, replies: nat -> SinkReply) {
    forall i | 0 <= i < |steps| :: steps[i].Advance? && steps[i].reply == replies(steps[i].id)
  }

  /** Letting the in-flight calls run, in some order, drains the session whatever the sink answers to each of them. */
  lemma {:induction false} DrainIsReachable(rules: Rules, w: World, replies: nat -> SinkReply) returns (steps: seq<Step>)
    requires Fair(rules) && Inv(rules, w) && w.shared.closed
    ensures Legal(rules, w, steps) && After(rules, w, steps).shared.drainClosed
    ensures |steps| == Work(w) && Answers(steps, replies)
    decreases Work(w)
  {
    DrainedWithoutWork(rules, w);
    if w.shared.drainClosed {
      return [];
    }
    var step := DrainStep(rules, w, replies);
    var rest := DrainIsReachable(rules, Next(rules, w, step), replies);
    StepThen(rules, w, step, rest);
    steps := [step] + rest;
    AnswersThen(step, rest, replies);
  }

  lemma AnswersThen(step: Step, rest: seq<Step>, replies: nat -> SinkReply)
    requires step.Advance? && step.reply == replies(step.id) && Answers(rest, replies)
    ensures Answers([step] + rest, replies)
  {}

  // ---------- what draining does not wait for ----------

  /** A Reject or Fail call that claimed its item and has not returned. */
  predicate PendingUnsafe(c: Call) {
    (c.request.RejectItem? || c.request.FailItem?) && c.claim.Some? && !c.pc.Done?
  }

  /** Finalize waits for Submit only. Once drained without failure, every claimed item has its outcome exactly when
      no Reject or Fail is between its claim and its return; a caller that joins those calls first loses nothing. */
  lemma DrainedCompleteIff(definitions: set<string>, steps: seq<Step>)
    requires IsRun(definitions, steps)
    requires EndOf(definitions, steps).shared.drainClosed && EndOf(definitions, steps).shared.failure.None?
    ensures var w := EndOf(definitions, steps);
            (forall id | id in w.calls && w.calls[id].claim.Some? :: w.calls[id].claim.value in w.shared.outcomes)
              <==> (forall id | id in w.calls :: !PendingUnsafe(w.calls[id]))
  {
    var rules := SomeInv(definitions, steps);
    var w := EndOf(definitions, steps);
    forall id | id in w.calls && w.calls[id].claim.Some?
      ensures w.calls[id].claim.value in w.shared.outcomes <==> !PendingUnsafe(w.calls[id])
    {
      ClaimRecordedIff(rules, w, id);
    }
  }

  lemma ClaimRecordedIff(rules: Rules, w: World, id: nat)
    requires Inv(rules, w) && w.shared.drainClosed && w.shared.failure.None?
    requires id in w.calls && w.calls[id].claim.Some?
    ensures w.calls[id].claim.value in w.shared.outcomes <==> !PendingUnsafe(w.calls[id])
  {
    assert ClaimInv(rules, w, id);
    assert CallInv(rules, w.shared, ReplyTo(w, id), w.calls[id]);
    if w.calls[id].request.SubmitItem? {
      SubmitSettled(rules, w, id);
    }
  }

  const REPLY := SinkFailed(External("unused"))

  lemma ShortTextIsValid(c: char)
    requires !IsPythonWhitespace(c)
    ensures ValidText([c], MAX_ID_LENGTH)
  {
    assert TrimLeft(IsPythonWhitespace, [c]) == [c];
  }

  /** Why the condition is needed: a Reject that has claimed but not recorded is not waited for. */
  lemma DrainedWithPendingReject() returns (steps: seq<Step>)
    ensures IsRun({"d"}, steps)
    ensures var w := EndOf({"d"}, steps);
            && w.shared.drainClosed && w.shared.failure.None?
            && w.shared.itemIDs == map["a" := 0] && w.shared.outcomes == map[]
  {
    ShortTextIsValid('a');
    var d := RulesOf({"d"});
    var s0, s1 := Begin(0, RejectItem("a", "d", "x")), Advance(0, REPLY, false);
    var s2, s3 := Begin(1, FinalizeRun), Advance(1, REPLY, false);
    var w1 := Next(d, INITIAL_WORLD, s0);
    var w2 := Next(d, w1, s1);
    assert w2.shared == Claim(INITIAL, "a", false);
    var w3 := Next(d, w2, s2);
    var w4 := Next(d, w3, s3);
    assert w4.shared == Close(Claim(INITIAL, "a", false));
    StepThen(d, w3, s3, []);
    StepThen(d, w2, s2, [s3]);
    StepThen(d, w1, s1, [s2, s3]);
    StepThen(d, INITIAL_WORLD, s0, [s1, s2, s3]);
    steps := [s0] + [s1, s2, s3];
    assert [s3] + [] == [s3] && [s2] + [s3] == [s2, s3] && [s1] + [s2, s3] == [s1, s2, s3];
  }
}
