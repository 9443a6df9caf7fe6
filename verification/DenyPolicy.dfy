/** How much of a memory's advice the engine applies over a run (crates/harness/src/memory.rs,
    `decide`), together with the engine's bookkeeping of applied denies. */
module DenyPolicy {
  import opened Outcomes
  import opened Text

  const MAX_DENIES: nat := 2

  datatype Mode = Off | Annotating | DenyingOnce | BeliefCheck

  datatype Advice = NoAdvice | Annotate(fact: string, entryId: string) | DenyOnce(fact: string, entryId: string)

  // A tool call; `args` stands for its JSON arguments, compared for equality only.
  datatype ToolCall = ToolCall(name: string, args: string)

  datatype Applied = Annotated | Denied | Suppressed

  datatype Reason = AsAdvised | ModeCeiling | EntryAlreadyDenied | DenyCapReached | BlankAdvice | RetryOfDenied

  datatype Decision = Decision(applied: Applied, reason: Reason)

  // The deny bookkeeping of one run.
  datatype RunState = RunState(deniedEntries: set<string>, deniedCalls: seq<ToolCall>, denies: nat)

  const FRESH: RunState := RunState({}, [], 0)

  predicate Blank(advice: Advice)
    requires !advice.NoAdvice?
  {
    Trim(advice.fact) == "" || Trim(advice.entryId) == ""
  }

  /** Resolve one piece of advice; nothing means there is nothing to apply or record. */
  function Decide(mode: Mode, advice: Advice, call: ToolCall, state: RunState): Option<Decision> {
    if mode.Off? || advice.NoAdvice? then None
    else if Blank(advice) then Some(Decision(Suppressed, BlankAdvice))
    else if call in state.deniedCalls then Some(Decision(Annotated, RetryOfDenied))
    else if advice.Annotate? then Some(Decision(Annotated, AsAdvised))
    else if mode.Annotating? || mode.BeliefCheck? then Some(Decision(Annotated, ModeCeiling))
    else if advice.entryId in state.deniedEntries then Some(Decision(Annotated, EntryAlreadyDenied))
    else if state.denies >= MAX_DENIES then Some(Decision(Annotated, DenyCapReached))
    else Some(Decision(Denied, AsAdvised))
  }

  /** The engine records a deny when, and only when, it applied one. */
  function Record(state: RunState, decision: Option<Decision>, advice: Advice, call: ToolCall): RunState {
    if decision.Some? && decision.value.applied.Denied? && !advice.NoAdvice? then
      RunState(state.deniedEntries + {advice.entryId}, state.deniedCalls + [call], state.denies + 1)
    else state
  }

  // ----- A run: any advice for any calls -----

  datatype Step = Step(advice: Advice, call: ToolCall)

  /** The run's bookkeeping after `steps`. */
  function StateAfter(mode: Mode, steps: seq<Step>): RunState {
    if steps == [] then FRESH
    else
      var (before, last) := (StateAfter(mode, steps[..|steps| - 1]), steps[|steps| - 1]);
      Record(before, Decide(mode, last.advice, last.call, before), last.advice, last.call)
  }

  /** What is decided for `e` once the run has been through `before`. */
  function DecisionFor(mode: Mode, before: seq<Step>, e: Step): Option<Decision> {
    Decide(mode, e.advice, e.call, StateAfter(mode, before))
  }

  predicate IsDenied(mode: Mode, before: seq<Step>, e: Step) {
    DecisionFor(mode, before, e).Some? && DecisionFor(mode, before, e).value.applied.Denied?
  }

  /** The steps of a run whose call was denied, in order. */
  function DeniedSteps(mode: Mode, steps: seq<Step>): seq<Step> {
    if steps == [] then []
    else
      var (before, last) := (steps[..|steps| - 1], steps[|steps| - 1]);
      DeniedSteps(mode, before) + if IsDenied(mode, before, last) then [last] else []
  }

  /** The deny policy, told from what was denied before and nothing else. */
  predicate MayDeny(mode: Mode, denied: seq<Step>, e: Step) {
    && mode.DenyingOnce? && e.advice.DenyOnce? && !Blank(e.advice)
    && |denied| < MAX_DENIES
    && forall i | 0 <= i < |denied| :: denied[i].call != e.call && EntryOf(denied[i]) != EntryOf(e)
  }

  function EntryOf(e: Step): string {
    if e.advice.NoAdvice? then "" else e.advice.entryId
  }

  function CallsOf(steps: seq<Step>): seq<ToolCall> {
    seq(|steps|, i requires 0 <= i < |steps| => steps[i].call)
  }

  function EntriesOf(steps: seq<Step>): set<string> {
    set i | 0 <= i < |steps| :: EntryOf(steps[i])
  }

  /** Pairwise different calls and entries. */
  predicate NoneTwice(steps: seq<Step>) {
    forall i, j | 0 <= i < j < |steps| :: steps[i].call != steps[j].call && EntryOf(steps[i]) != EntryOf(steps[j])
  }

  lemma OneMoreEntry(steps: seq<Step>, e: Step)
    ensures EntriesOf(steps + [e]) == EntriesOf(steps) + {EntryOf(e)}
    ensures CallsOf(steps + [e]) == CallsOf(steps) + [e.call]
  {
    var more := steps + [e];
    forall id ensures id in EntriesOf(more) <==> id in EntriesOf(steps) || id == EntryOf(e) {
      if id in EntriesOf(steps) {
        var i :| 0 <= i < |steps| && EntryOf(steps[i]) == id;
        assert more[i] == steps[i];
      }
      assert more[|steps|] == e;
    }
  }

  lemma {:induction false} EntriesCount(steps: seq<Step>)
    requires NoneTwice(steps)
    ensures |EntriesOf(steps)| == |steps|
  {
    if steps != [] {
      var (front, last) := (steps[..|steps| - 1], steps[|steps| - 1]);
      assert steps == front + [last];
      EntriesCount(front);
      OneMoreEntry(front, last);
    }
  }

  /** One decision against a bookkeeping that says what was denied. */
  lemma DecideByHistory(mode: Mode, denied: seq<Step>, e: Step)
    ensures var d := Decide(mode, e.advice, e.call, HistoryState(denied));
            d.Some? && d.value.applied.Denied? <==> MayDeny(mode, denied, e)
  {
    CallWasDenied(denied, e.call);
    EntryWasDenied(denied, EntryOf(e));
  }

  lemma CallWasDenied(denied: seq<Step>, call: ToolCall)
    ensures call in CallsOf(denied) <==> exists i :: 0 <= i < |denied| && denied[i].call == call
  {
    assert forall i | 0 <= i < |denied| :: CallsOf(denied)[i] == denied[i].call;
  }

  lemma EntryWasDenied(denied: seq<Step>, id: string)
    ensures id in EntriesOf(denied) <==> exists i :: 0 <= i < |denied| && EntryOf(denied[i]) == id
  {
  }

  function HistoryState(denied: seq<Step>): RunState {
    RunState(EntriesOf(denied), CallsOf(denied), |denied|)
  }

  lemma NoHistory(denied: seq<Step>)
    requires denied == []
    ensures HistoryState(denied) == FRESH
  {
    assert EntriesOf(denied) == {};
    assert CallsOf(denied) == [];
  }

  /** Recording one decision keeps the bookkeeping in step with the history. */
  lemma RecordByHistory(mode: Mode, denied: seq<Step>, e: Step)
    ensures Record(HistoryState(denied), Decide(mode, e.advice, e.call, HistoryState(denied)), e.advice, e.call)
         == if MayDeny(mode, denied, e) then HistoryState(denied + [e]) else HistoryState(denied)
  {
    DecideByHistory(mode, denied, e);
    OneMoreEntry(denied, e);
  }

  lemma MayDenyKeepsApart(mode: Mode, denied: seq<Step>, e: Step)
    requires NoneTwice(denied) && MayDeny(mode, denied, e)
    ensures NoneTwice(denied + [e])
  {
  }

  /** The bookkeeping is exactly the history of applied denies, and a run never denies a third time,
      one entry twice, or one call twice. */
  lemma {:induction false} StateIsHistory(mode: Mode, steps: seq<Step>)
    ensures var denied := DeniedSteps(mode, steps);
            && StateAfter(mode, steps) == HistoryState(denied)
            && |denied| <= MAX_DENIES && NoneTwice(denied)
            && (denied != [] ==> mode.DenyingOnce?)
  {
    if steps == [] {
      NoHistory(DeniedSteps(mode, steps));
    } else {
      var (before, last) := (steps[..|steps| - 1], steps[|steps| - 1]);
      var denied := DeniedSteps(mode, before);
      StateIsHistory(mode, before);
      DecideByHistory(mode, denied, last);
      RecordByHistory(mode, denied, last);
      assert IsDenied(mode, before, last) <==> MayDeny(mode, denied, last);
      if MayDeny(mode, denied, last) {
        MayDenyKeepsApart(mode, denied, last);
      } else {
        assert denied + [] == denied;
      }
    }
  }

  /** Whatever advice a run has seen, a call is denied exactly when the policy allows it. */
  lemma DenyExactly(mode: Mode, before: seq<Step>, e: Step)
    ensures IsDenied(mode, before, e) <==> MayDeny(mode, DeniedSteps(mode, before), e)
  {
    StateIsHistory(mode, before);
    DecideByHistory(mode, DeniedSteps(mode, before), e);
  }

  /** Over any run: at most two denies, at most one per entry, no call twice, none outside the denying
      mode, and the counter is the size of both records. */
  lemma DeniesAreBounded(mode: Mode, steps: seq<Step>)
    ensures var (denied, s) := (DeniedSteps(mode, steps), StateAfter(mode, steps));
            && |denied| <= MAX_DENIES && NoneTwice(denied) && (!mode.DenyingOnce? ==> denied == [])
            && s.denies == |denied| == |s.deniedCalls| == |s.deniedEntries|
  {
    StateIsHistory(mode, steps);
    EntriesCount(DeniedSteps(mode, steps));
  }

  /** An unchanged retry of a denied call always goes through, annotated if there is anything to say. */
  lemma RetryGoesThrough(mode: Mode, before: seq<Step>, denied: Step, retry: Step)
    requires denied in DeniedSteps(mode, before) && retry.call == denied.call
    ensures DecisionFor(mode, before, retry) ==
            if retry.advice.NoAdvice? then None
            else if Blank(retry.advice) then Some(Decision(Suppressed, BlankAdvice))
            else Some(Decision(Annotated, RetryOfDenied))
  {
    StateIsHistory(mode, before);
    var i :| 0 <= i < |DeniedSteps(mode, before)| && DeniedSteps(mode, before)[i] == denied;
    assert CallsOf(DeniedSteps(mode, before))[i] == denied.call;
  }

  // ----- Every decision, told from what was denied before -----

  /** There is something to say, but its fact or its entry is nothing but white space. */
  predicate SaysNothing(advice: Advice) {
    !advice.NoAdvice? && (AllWhite(advice.fact) || AllWhite(advice.entryId))
  }

  predicate CallDenied(denied: seq<Step>, call: ToolCall) {
    exists i :: 0 <= i < |denied| && denied[i].call == call
  }

  predicate EntryDenied(denied: seq<Step>, id: string) {
    exists i :: 0 <= i < |denied| && !denied[i].advice.NoAdvice? && denied[i].advice.entryId == id
  }

  lemma BlankExactly(advice: Advice)
    requires !advice.NoAdvice?
    ensures Blank(advice) <==> SaysNothing(advice)
  {
    TrimsToNothing(advice.fact);
    TrimsToNothing(advice.entryId);
  }

  lemma {:induction false} DeniedAdvise(mode: Mode, steps: seq<Step>)
    ensures forall i | 0 <= i < |DeniedSteps(mode, steps)| :: DeniedSteps(mode, steps)[i].advice.DenyOnce?
  {
    if steps != [] {
      DeniedAdvise(mode, steps[..|steps| - 1]);
    }
  }

  lemma BookkeepingTells(mode: Mode, steps: seq<Step>, call: ToolCall, id: string)
    ensures var (s, denied) := (StateAfter(mode, steps), DeniedSteps(mode, steps));
            && s.denies == |denied| && (call in s.deniedCalls <==> CallDenied(denied, call))
            && (id in s.deniedEntries <==> EntryDenied(denied, id))
  {
    var denied := DeniedSteps(mode, steps);
    StateIsHistory(mode, steps);
    CallWasDenied(denied, call);
    DeniedAdvise(mode, steps);
    EntryWasDenied(denied, id);
  }

  /** What is decided for a call, in each case, from the calls and the entries denied before. */
  lemma DecisionExactly(mode: Mode, before: seq<Step>, e: Step)
    ensures var (d, denied) := (DecisionFor(mode, before, e), DeniedSteps(mode, before));
            var plain := e.advice.Annotate?;
            && (d == None <==> mode == Off || e.advice == NoAdvice)
            && (mode != Off && e.advice != NoAdvice ==>
                  && (d == Some(Decision(Suppressed, BlankAdvice)) <==> SaysNothing(e.advice))
                  && (d == Some(Decision(Annotated, RetryOfDenied)) <==>
                      !SaysNothing(e.advice) && CallDenied(denied, e.call))
                  && (!SaysNothing(e.advice) && !CallDenied(denied, e.call) ==>
                        && (d == Some(Decision(Annotated, AsAdvised)) <==> plain)
                        && (d == Some(Decision(Annotated, ModeCeiling)) <==> !plain && mode != DenyingOnce)
                        && (d == Some(Decision(Annotated, EntryAlreadyDenied)) <==>
                            !plain && mode == DenyingOnce && EntryDenied(denied, e.advice.entryId))
                        && (d == Some(Decision(Annotated, DenyCapReached)) <==>
                            !plain && mode == DenyingOnce && !EntryDenied(denied, e.advice.entryId) && |denied| >= 2)
                        && (d == Some(Decision(Denied, AsAdvised)) <==>
                            !plain && mode == DenyingOnce && !EntryDenied(denied, e.advice.entryId) && |denied| < 2)))
  {
    if !e.advice.NoAdvice? {
      BlankExactly(e.advice);
      BookkeepingTells(mode, before, e.call, e.advice.entryId);
    }
  }
}
