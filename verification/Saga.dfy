/** `SagaCoordinator` and `CompensationStack`: steps run forward until one does not succeed, and then the completed ones
    are undone in reverse. The stack holds the very step objects of the instance. What a handler does is given by an
    oracle per step: `forward` for the step itself, `undo` for whether its compensation throws. */
module Saga {
  import opened Wrappers

  type Payload = string

  const NO_OUTPUT: Payload := ""

  datatype StepStatus = Waiting | Running | Completed | Failed | Compensating | Compensated

  datatype SagaStatus = Active | Done | Broken | Undone

  /** A compensation that is absent and one that is the empty string are the same to the coordinator. */
  datatype StepDef = StepDef(id: string, forward: string, compensate: string)

  datatype SagaDefinition = SagaDefinition(id: string, steps: seq<StepDef>)

  datatype Outcome = Returned(output: Option<Payload>) | Declined | Threw

  /** A handler call: the task id it is told, the handler, its input, and the outputs it is shown. */
  datatype Call = Call(taskId: string, handler: string, input: Payload, prior: map<string, Payload>)

  /** What the handlers do and which of them are registered. */
  datatype World = World(handlers: set<string>, forward: nat -> Outcome, undo: nat -> bool)

  class SagaStepState {
    const stepId: string
    var status: StepStatus
    var attempt: nat
    var output: Option<Payload>

    constructor (stepId: string)
      ensures this.stepId == stepId && status == Waiting && attempt == 0 && output == None
    {
      this.stepId, status, attempt, output := stepId, Waiting, 0, None;
    }

    ghost function View(): StepView
      reads this
    {
      StepView(status, attempt, output)
    }
  }

  class SagaInstance {
    const id: string
    const steps: seq<SagaStepState>
    var status: SagaStatus

    constructor (id: string, steps: seq<SagaStepState>)
      ensures this.id == id && this.steps == steps && status == Active
    {
      this.id, this.steps, status := id, steps, Active;
    }

    /** The steps look like this. */
    ghost predicate Shows(views: seq<StepView>)
      reads steps
    {
      |views| == |steps| && forall i | 0 <= i < |steps| :: steps[i].View() == views[i]
    }

    /** One state object per step of the definition, none of them shared. */
    ghost predicate Follows(def: SagaDefinition) {
      && |steps| == |def.steps|
      && (forall i | 0 <= i < |steps| :: steps[i].stepId == def.steps[i].id)
      && forall i, j | 0 <= i < j < |steps| :: steps[i] != steps[j]
    }
  }

  class CompensationStack {
    var completed: seq<SagaStepState>

    constructor ()
      ensures completed == []
    {
      completed := [];
    }

    method Push(step: SagaStepState)
      modifies this
      ensures completed == if step.status == Completed then old(completed) + [step] else old(completed)
    {
      if step.status == Completed {
        completed := completed + [step];
      }
    }

    method Pop() returns (step: Option<SagaStepState>)
      modifies this
      ensures old(completed) == [] ==> step == None && completed == []
      ensures old(completed) != [] ==> step.Some? && completed + [step.value] == old(completed)
    {
      if |completed| == 0 {
        return None;
      }
      step := Some(completed[|completed| - 1]);
      completed := completed[..|completed| - 1];
    }

    method Clear()
      modifies this
      ensures completed == []
    {
      completed := [];
    }

    /** A reversed copy; the stack itself stays as it is. */
    function ToCompensateOrder(): (order: seq<SagaStepState>)
      reads this
      ensures |order| == |completed|
      ensures forall p | 0 <= p < |order| :: order[p] == completed[|completed| - 1 - p]
    {
      seq(|completed|, p requires 0 <= p < |completed| reads this => completed[|completed| - 1 - p])
    }
  }

  // ----- what a saga does, on values

  /** The position of the first step with the given id, or the number of steps. */
  function First(steps: seq<StepDef>, id: string): (r: nat)
    ensures r <= |steps| && (r < |steps| ==> steps[r].id == id)
    ensures forall i | 0 <= i < r :: steps[i].id != id
  {
    if steps == [] || steps[0].id == id then 0 else 1 + First(steps[1..], id)
  }

  /** Step `k` does not succeed: its handler is missing, says so, or throws. */
  predicate Fails(w: World, steps: seq<StepDef>, k: nat)
    requires k < |steps|
  {
    steps[k].forward !in w.handlers || !w.forward(k).Returned?
  }

  /** The first step at or after `k` that does not succeed; the number of steps if there is none. */
  function FirstFailure(w: World, steps: seq<StepDef>, k: nat): (r: nat)
    requires k <= |steps|
    ensures k <= r <= |steps|
    decreases |steps| - k
  {
    if k == |steps| || Fails(w, steps, k) then k else FirstFailure(w, steps, k + 1)
  }

  /** Every step before `k` has a registered handler, which returned; step `k`, if there is one, has none, or its
      handler declined or threw. */
  ghost predicate StopsAt(w: World, steps: seq<StepDef>, k: nat) {
    && k <= |steps|
    && (forall i | 0 <= i < k :: steps[i].forward in w.handlers && w.forward(i).Returned?)
    && (k < |steps| ==> steps[k].forward !in w.handlers || w.forward(k).Declined? || w.forward(k).Threw?)
  }

  lemma {:induction false} FailureAt(w: World, steps: seq<StepDef>, k: nat)
    requires k <= |steps|
    ensures var r := FirstFailure(w, steps, k);
            && (r < |steps| ==> steps[r].forward !in w.handlers || w.forward(r).Declined? || w.forward(r).Threw?)
            && forall i | k <= i < r :: steps[i].forward in w.handlers && w.forward(i).Returned?
    decreases |steps| - k
  {
    if k < |steps| && !Fails(w, steps, k) {
      FailureAt(w, steps, k + 1);
    }
  }

  lemma StopIsUnique(w: World, steps: seq<StepDef>, j: nat, k: nat)
    requires StopsAt(w, steps, j) && StopsAt(w, steps, k)
    ensures j == k
  {
  }

  /** The first failure is where the saga stops, and there is only one such place. */
  lemma FirstFailureIs(w: World, steps: seq<StepDef>, k: nat)
    ensures k == FirstFailure(w, steps, 0) <==> StopsAt(w, steps, k)
  {
    FailureAt(w, steps, 0);
    if StopsAt(w, steps, k) {
      StopIsUnique(w, steps, k, FirstFailure(w, steps, 0));
    }
  }

  function OrEmpty(output: Option<Payload>): Payload {
    if output.Some? then output.value else NO_OUTPUT
  }

  /** What step `k` outputs when it succeeds. */
  function OutputOf(w: World, k: nat): Option<Payload> {
    if w.forward(k).Returned? then w.forward(k).output else None
  }

  /** The outputs of the first `k` steps. */
  function Outputs(w: World, k: nat): (r: seq<Option<Payload>>)
    ensures |r| == k && forall i | 0 <= i < k :: r[i] == OutputOf(w, i)
  {
    seq(k, i requires 0 <= i => OutputOf(w, i))
  }

  /** The outputs of the first `k` steps, by step id. */
  function Prior(w: World, steps: seq<StepDef>, k: nat): map<string, Payload>
    requires k <= |steps|
  {
    if k == 0 then map[] else Prior(w, steps, k - 1)[steps[k - 1].id := OrEmpty(OutputOf(w, k - 1))]
  }

  function ForwardCall(w: World, steps: seq<StepDef>, input: Payload, k: nat): Call
    requires k < |steps|
  {
    Call(steps[k].id, steps[k].forward, input, Prior(w, steps, k))
  }

  /** The calls of the first `k` steps. */
  function ForwardCalls(w: World, steps: seq<StepDef>, input: Payload, k: nat): seq<Call>
    requires k <= |steps|
  {
    if k == 0 then [] else ForwardCalls(w, steps, input, k - 1) + [ForwardCall(w, steps, input, k - 1)]
  }

  /** Where the compensation of completed step `k` is looked up: at the first step with its id. */
  function Owner(steps: seq<StepDef>, k: nat): (r: nat)
    requires k < |steps|
    ensures r <= k && steps[r].id == steps[k].id
  {
    First(steps, steps[k].id)
  }

  /** A compensation is named and registered. */
  predicate Undoable(w: World, steps: seq<StepDef>, k: nat)
    requires k < |steps|
  {
    steps[Owner(steps, k)].compensate != "" && steps[Owner(steps, k)].compensate in w.handlers
  }

  function UndoCall(steps: seq<StepDef>, outputs: seq<Option<Payload>>, k: nat): Call
    requires k < |steps| && k < |outputs|
  {
    Call(steps[k].id, steps[Owner(steps, k)].compensate, OrEmpty(outputs[k]), map[])
  }

  /** The compensations of the first `k` steps, last step first, as far down as step `m`. */
  function UndoCalls(w: World, steps: seq<StepDef>, outputs: seq<Option<Payload>>, k: nat, m: nat): seq<Call>
    requires m <= k <= |steps| && k <= |outputs|
    decreases k - m
  {
    if m == k then []
    else
      UndoCalls(w, steps, outputs, k, m + 1) + if Undoable(w, steps, m) then [UndoCall(steps, outputs, m)] else []
  }

  /** The status of step `x` of the first `k` once they have been undone as far down as step `m`. */
  function StatusAfter(w: World, steps: seq<StepDef>, k: nat, m: nat, x: nat): StepStatus
    requires m <= k <= |steps|
    decreases k - m
  {
    if m == k then Completed
    else if Owner(steps, m) == x && Undoable(w, steps, m) then if w.undo(m) then Compensating else Compensated
    else StatusAfter(w, steps, k, m + 1, x)
  }

  /** The forward calls when step `k` is the first that does not succeed, or `k` is the number of steps. */
  function Tried(w: World, steps: seq<StepDef>, input: Payload, k: nat): seq<Call>
    requires k <= |steps|
  {
    ForwardCalls(w, steps, input, k)
    + if k < |steps| && steps[k].forward in w.handlers then [ForwardCall(w, steps, input, k)] else []
  }

  /** All handler calls. */
  function AllCalls(w: World, steps: seq<StepDef>, input: Payload, k: nat): seq<Call>
    requires k <= |steps|
  {
    if k == |steps| then Tried(w, steps, input, k)
    else Tried(w, steps, input, k) + UndoCalls(w, steps, Outputs(w, k), k, 0)
  }

  datatype StepView = StepView(status: StepStatus, attempt: nat, output: Option<Payload>)

  function CompletedStep(w: World, i: nat, before: StepView): StepView {
    StepView(Completed, before.attempt + 1, OutputOf(w, i))
  }

  /** The steps when the first `k` have succeeded. */
  function Progressed(w: World, k: nat, before: seq<StepView>): (after: seq<StepView>)
    ensures |after| == |before|
  {
    seq(|before|, i requires 0 <= i < |before| =>
      if i < k then CompletedStep(w, i, before[i]) else before[i])
  }

  /** The steps when the first `k` of them have been undone. */
  function AfterUndo(w: World, steps: seq<StepDef>, k: nat, m: nat, before: seq<StepView>): (after: seq<StepView>)
    requires m <= k <= |steps|
    ensures |after| == |before|
  {
    seq(|before|, i requires 0 <= i < |before| =>
      if i < k then before[i].(status := StatusAfter(w, steps, k, m, i)) else before[i])
  }

  /** The steps after the round of the compensation loop for step `m`. */
  function UndoneAt(w: World, steps: seq<StepDef>, m: nat, before: seq<StepView>): seq<StepView>
    requires m < |steps| == |before|
  {
    if Undoable(w, steps, m) then
      var x := Owner(steps, m);
      before[x := before[x].(status := if w.undo(m) then Compensating else Compensated)]
    else before
  }

  /** The first `k` steps have completed, with the outputs their handlers gave. */
  ghost predicate Succeeded(w: World, k: nat, views: seq<StepView>) {
    k <= |views| && forall i | 0 <= i < k :: views[i].status == Completed && views[i].output == OutputOf(w, i)
  }

  lemma UndoNothing(w: World, steps: seq<StepDef>, k: nat, before: seq<StepView>)
    requires k <= |steps| == |before| && Succeeded(w, k, before)
    ensures AfterUndo(w, steps, k, k, before) == before
  {
  }

  lemma AfterUndoStep(w: World, steps: seq<StepDef>, k: nat, m: nat, before: seq<StepView>)
    requires m < k <= |steps| == |before|
    ensures AfterUndo(w, steps, k, m, before) == UndoneAt(w, steps, m, AfterUndo(w, steps, k, m + 1, before))
    ensures AfterUndo(w, steps, k, m + 1, before)[m].output == before[m].output
  {
  }

  function FailedStep(before: StepView): StepView {
    before.(status := Failed, attempt := before.attempt + 1)
  }

  /** The steps when the forward loop has ended: the earlier ones have succeeded and step `k`, if any, has failed. */
  function Attempted(w: World, k: nat, before: seq<StepView>): (after: seq<StepView>)
    requires k <= |before|
    ensures |after| == |before|
  {
    if k == |before| then Progressed(w, k, before) else Progressed(w, k, before)[k := FailedStep(before[k])]
  }

  lemma AttemptedSucceeds(w: World, k: nat, before: seq<StepView>)
    requires k <= |before|
    ensures Succeeded(w, k, Attempted(w, k, before))
  {
  }

  /** The steps at the end, when step `k` is the first that does not succeed or `k` is the number of steps: the earlier
      ones ran and, after a failure, were undone; step `k` failed; later ones are untouched. */
  function Settled(w: World, steps: seq<StepDef>, k: nat, before: seq<StepView>): (after: seq<StepView>)
    requires k <= |steps| == |before|
    ensures |after| == |before|
  {
    if k == |steps| then Attempted(w, k, before) else AfterUndo(w, steps, k, 0, Attempted(w, k, before))
  }

  /** What the forward loop keeps: the first `k` steps have succeeded and have been called in order. */
  ghost predicate Forward(
      w: World, steps: seq<StepDef>, input: Payload, k: nat, before: seq<StepView>, prior: map<string, Payload>,
      calls: seq<Call>, views: seq<StepView>)
  {
    && k <= |steps| == |before|
    && FirstFailure(w, steps, 0) == FirstFailure(w, steps, k)
    && prior == Prior(w, steps, k) && calls == ForwardCalls(w, steps, input, k)
    && views == Progressed(w, k, before)
  }

  lemma ForwardBegins(w: World, steps: seq<StepDef>, input: Payload, before: seq<StepView>)
    requires |steps| == |before|
    ensures Forward(w, steps, input, 0, before, map[], [], before)
  {
  }

  lemma ForwardStep(
      w: World, steps: seq<StepDef>, input: Payload, k: nat, before: seq<StepView>, prior: map<string, Payload>,
      calls: seq<Call>, views: seq<StepView>, made: seq<Call>, shown: map<string, Payload>, next: seq<StepView>)
    requires k < |steps| && Forward(w, steps, input, k, before, prior, calls, views) && !Fails(w, steps, k)
    requires made == [Call(steps[k].id, steps[k].forward, input, prior)]
    requires shown == prior[steps[k].id := OrEmpty(OutputOf(w, k))]
    requires next == views[k := CompletedStep(w, k, views[k])]
    ensures Forward(w, steps, input, k + 1, before, shown, calls + made, next)
  {
  }

  lemma ForwardStops(
      w: World, steps: seq<StepDef>, input: Payload, k: nat, before: seq<StepView>, prior: map<string, Payload>,
      calls: seq<Call>, views: seq<StepView>, made: seq<Call>, next: seq<StepView>)
    requires k < |steps| && Forward(w, steps, input, k, before, prior, calls, views) && Fails(w, steps, k)
    requires made == if steps[k].forward in w.handlers
                     then [Call(steps[k].id, steps[k].forward, input, prior)] else []
    requires next == views[k := FailedStep(views[k])]
    ensures Tried(w, steps, input, k) == calls + made
    ensures Attempted(w, k, before) == next && FirstFailure(w, steps, 0) == k
  {
  }

  lemma ForwardEnds(
      w: World, steps: seq<StepDef>, input: Payload, before: seq<StepView>, prior: map<string, Payload>,
      calls: seq<Call>, views: seq<StepView>)
    requires Forward(w, steps, input, |steps|, before, prior, calls, views)
    ensures Tried(w, steps, input, |steps|) == calls
    ensures Attempted(w, |steps|, before) == views && FirstFailure(w, steps, 0) == |steps|
  {
    assert calls + [] == calls;
  }

  lemma TakePush<T>(s: seq<T>, k: nat)
    requires k < |s|
    ensures s[..k + 1] == s[..k] + [s[k]]
  {
  }

  // ----- the coordinator

  class SagaCoordinator {
    var definitions: map<string, SagaDefinition>
    var instances: map<string, SagaInstance>

    constructor ()
      ensures definitions == map[] && instances == map[]
    {
      definitions, instances := map[], map[];
    }

    method RegisterDefinition(def: SagaDefinition)
      modifies this`definitions
      ensures definitions == old(definitions)[def.id := def]
    {
      definitions := definitions[def.id := def];
    }

    /** One round of the compensation loop, for the completed step at position `m`. */
    method UndoStep(
        instance: SagaInstance, def: SagaDefinition, completed: SagaStepState, w: World, m: nat,
        ghost before: seq<StepView>)
      returns (calls: seq<Call>)
      requires instance.Follows(def) && instance.Shows(before) && m < |def.steps| && completed == instance.steps[m]
      modifies instance.steps
      ensures calls == if Undoable(w, def.steps, m)
                       then [Call(def.steps[m].id, def.steps[Owner(def.steps, m)].compensate,
                                  OrEmpty(before[m].output), map[])]
                       else []
      ensures instance.Shows(UndoneAt(w, def.steps, m, before))
    {
      calls := [];
      var at := First(def.steps, completed.stepId);
      assert completed.View() == before[m];
      if def.steps[at].compensate != "" && def.steps[at].compensate in w.handlers {
        var stepState := instance.steps[at];
        stepState.status := Compensating;
        calls := [Call(def.steps[at].id, def.steps[at].compensate, OrEmpty(completed.output), map[])];
        if !w.undo(m) {
          stepState.status := Compensated;
        }
      }
    }

    /** Undo the completed steps: each status and the calls made are as the functions on values say. */
    method Compensate(
        instance: SagaInstance, def: SagaDefinition, stack: CompensationStack, w: World, ghost k: nat,
        ghost before: seq<StepView>)
      returns (calls: seq<Call>)
      requires instance.Follows(def) && instance.Shows(before)
      requires k <= |instance.steps| && stack.completed == instance.steps[..k] && Succeeded(w, k, before)
      modifies instance`status, instance.steps
      ensures instance.status == Undone
      ensures calls == UndoCalls(w, def.steps, Outputs(w, k), k, 0)
      ensures instance.Shows(AfterUndo(w, def.steps, k, 0, before))
    {
      var order := stack.ToCompensateOrder();
      calls := [];
      UndoNothing(w, def.steps, k, before);
      for p := 0 to |order|
        invariant calls == UndoCalls(w, def.steps, Outputs(w, k), k, k - p)
        invariant instance.Shows(AfterUndo(w, def.steps, k, k - p, before))
      {
        ghost var views := AfterUndo(w, def.steps, k, k - p, before);
        AfterUndoStep(w, def.steps, k, k - p - 1, before);
        var more := UndoStep(instance, def, order[p], w, |order| - 1 - p, views);
        calls := calls + more;
      }
      instance.status := Undone;
    }

    method Persist(instance: SagaInstance)
      modifies this`instances
      ensures instances == old(instances)[instance.id := instance]
    {
      instances := instances[instance.id := instance];
    }

    /** One pass of the forward loop up to the outcome of the handler. */
    method RunStep(
        instance: SagaInstance, def: SagaDefinition, input: Payload, prior: map<string, Payload>, w: World, k: nat,
        ghost before: seq<StepView>)
      returns (ok: bool, calls: seq<Call>)
      requires instance.Follows(def) && k < |def.steps| && instance.Shows(before)
      modifies instance`status, instance.steps
      ensures ok <==> !Fails(w, def.steps, k)
      ensures calls == if def.steps[k].forward in w.handlers
                       then [Call(def.steps[k].id, def.steps[k].forward, input, prior)] else []
      ensures instance.status == if ok then old(instance.status) else Broken
      ensures instance.Shows(before[k := if ok then CompletedStep(w, k, before[k]) else FailedStep(before[k])])
    {
      var state := instance.steps[k];
      assert state.View() == before[k];
      state.status := Running;
      state.attempt := state.attempt + 1;
      if def.steps[k].forward !in w.handlers {
        state.status := Failed;
        instance.status := Broken;
        return false, [];
      }
      calls := [Call(def.steps[k].id, def.steps[k].forward, input, prior)];
      var outcome := w.forward(k);
      if !outcome.Returned? {
        state.status := Failed;
        instance.status := Broken;
        return false, calls;
      }
      state.status := Completed;
      state.output := outcome.output;
      ok := true;
    }

    /** One pass of the forward loop: a step that succeeds adds its output to what later steps are shown, and goes onto
        the stack. */
    method RunAndPush(
        instance: SagaInstance, def: SagaDefinition, stack: CompensationStack, input: Payload,
        prior: map<string, Payload>, w: World, k: nat, ghost before: seq<StepView>)
      returns (ok: bool, calls: seq<Call>, shown: map<string, Payload>)
      requires instance.Follows(def) && k < |def.steps| && instance.Shows(before)
      requires stack.completed == instance.steps[..k]
      modifies stack, instance`status, instance.steps
      ensures ok <==> !Fails(w, def.steps, k)
      ensures calls == if def.steps[k].forward in w.handlers
                       then [Call(def.steps[k].id, def.steps[k].forward, input, prior)] else []
      ensures shown == if ok then prior[def.steps[k].id := OrEmpty(OutputOf(w, k))] else prior
      ensures instance.Shows(before[k := if ok then CompletedStep(w, k, before[k]) else FailedStep(before[k])])
      ensures stack.completed == instance.steps[..if ok then k + 1 else k]
    {
      ok, calls := RunStep(instance, def, input, prior, w, k, before);
      shown := prior;
      if ok {
        assert instance.steps[k].View() == CompletedStep(w, k, before[k]);
        shown := prior[def.steps[k].id := OrEmpty(instance.steps[k].output)];
        TakePush(instance.steps, k);
        stack.Push(instance.steps[k]);
      }
    }

    /** The forward loop; it ends at the first step that does not succeed. */
    method RunSteps(
        instance: SagaInstance, def: SagaDefinition, stack: CompensationStack, input: Payload, w: World,
        ghost before: seq<StepView>)
      returns (k: nat, calls: seq<Call>)
      requires instance.Follows(def) && instance.Shows(before) && stack.completed == []
      modifies stack, instance`status, instance.steps
      ensures k == FirstFailure(w, def.steps, 0) && calls == Tried(w, def.steps, input, k)
      ensures stack.completed == instance.steps[..k] && instance.Shows(Attempted(w, k, before))
    {
      calls := [];
      var prior: map<string, Payload> := map[];
      ghost var views := before;
      k := 0;
      ForwardBegins(w, def.steps, input, before);
      while k < |def.steps|
        invariant Forward(w, def.steps, input, k, before, prior, calls, views)
        invariant stack.completed == instance.steps[..k] && instance.Shows(views)
      {
        var ok, made, shown := RunAndPush(instance, def, stack, input, prior, w, k, views);
        ghost var next := views[k := if ok then CompletedStep(w, k, views[k]) else FailedStep(views[k])];
        if !ok {
          ForwardStops(w, def.steps, input, k, before, prior, calls, views, made, next);
          calls := calls + made;
          return;
        }
        ForwardStep(w, def.steps, input, k, before, prior, calls, views, made, shown, next);
        calls, prior, views := calls + made, shown, next;
        k := k + 1;
      }
      ForwardEnds(w, def.steps, input, before, prior, calls, views);
    }

    /** The whole of a saga: the steps, the status and the calls, for any behaviour of the handlers. */
    method ExecuteForward(
        instance: SagaInstance, def: SagaDefinition, input: Payload, w: World, ghost before: seq<StepView>)
      returns (calls: seq<Call>)
      requires instance.Follows(def) && instance.Shows(before)
      modifies this`instances, instance`status, instance.steps
      ensures var k := FirstFailure(w, def.steps, 0);
              && instance.status == (if k == |def.steps| then Done else Undone)
              && calls == AllCalls(w, def.steps, input, k)
              && instance.Shows(Settled(w, def.steps, k, before))
      ensures instances == old(instances)[instance.id := instance]
    {
      var stack := new CompensationStack();
      var k, made := RunSteps(instance, def, stack, input, w, before);
      calls := made;
      if k < |def.steps| {
        AttemptedSucceeds(w, k, before);
        var more := Compensate(instance, def, stack, w, k, Attempted(w, k, before));
        calls := calls + more;
      } else {
        instance.status := Done;
      }
      Persist(instance);
    }

    static function Untouched(def: SagaDefinition): seq<StepView> {
      seq(|def.steps|, _ => StepView(Waiting, 0, None))
    }

    method NewInstance(def: SagaDefinition, sagaId: string) returns (instance: SagaInstance)
      ensures fresh(instance) && fresh(instance.steps) && instance.Follows(def) && instance.id == sagaId
      ensures instance.Shows(Untouched(def))
    {
      var steps: seq<SagaStepState> := [];
      for i := 0 to |def.steps|
        invariant |steps| == i && forall j | 0 <= j < i ::
          fresh(steps[j]) && steps[j].stepId == def.steps[j].id && steps[j].View() == StepView(Waiting, 0, None)
        invariant forall j, l | 0 <= j < l < i :: steps[j] != steps[l]
      {
        var state := new SagaStepState(def.steps[i].id);
        steps := steps + [state];
      }
      instance := new SagaInstance(sagaId, steps);
    }

    /** A new instance with untouched steps, filed and then run. */
    method StartNew(def: SagaDefinition, sagaId: string, input: Payload, w: World)
      returns (instance: SagaInstance, calls: seq<Call>)
      modifies this`instances
      ensures var k := FirstFailure(w, def.steps, 0);
              && fresh(instance) && instance.Follows(def) && instances == old(instances)[sagaId := instance]
              && calls == AllCalls(w, def.steps, input, k)
              && instance.status == (if k == |def.steps| then Done else Undone)
              && instance.Shows(Settled(w, def.steps, k, Untouched(def)))
    {
      instance := NewInstance(def, sagaId);
      Persist(instance);
      calls := ExecuteForward(instance, def, input, w, Untouched(def));
      assert instances == old(instances)[sagaId := instance];
    }

    /** An unknown definition is refused. */
    method Start(definitionId: string, sagaId: string, input: Payload, w: World)
      returns (r: Option<SagaInstance>, calls: seq<Call>)
      modifies this`instances
      ensures r.Some? <==> definitionId in definitions
      ensures r == None ==> instances == old(instances) && calls == []
      ensures r.Some? ==>
        var def := definitions[definitionId];
        var k := FirstFailure(w, def.steps, 0);
        && StopsAt(w, def.steps, k)
        && fresh(r.value) && r.value.Follows(def) && instances == old(instances)[sagaId := r.value]
        && calls == AllCalls(w, def.steps, input, k)
        && r.value.status == (if k == |def.steps| then Done else Undone)
        && r.value.Shows(Settled(w, def.steps, k, Untouched(def)))
    {
      if definitionId !in definitions {
        return None, [];
      }
      var def := definitions[definitionId];
      var instance;
      instance, calls := StartNew(def, sagaId, input, w);
      FirstFailureIs(w, def.steps, FirstFailure(w, def.steps, 0));
      r := Some(instance);
    }
  }

  // ----- what the functions on values mean

  /** The forward calls are those of the first `k` steps, once each and in order. */
  lemma {:induction false} ForwardInOrder(w: World, steps: seq<StepDef>, input: Payload, k: nat)
    requires k <= |steps|
    ensures var calls := ForwardCalls(w, steps, input, k);
            |calls| == k && forall i | 0 <= i < k :: calls[i] == ForwardCall(w, steps, input, i)
  {
    if k > 0 {
      ForwardInOrder(w, steps, input, k - 1);
    }
  }

  ghost predicate DistinctIds(steps: seq<StepDef>) {
    forall i, j | 0 <= i < j < |steps| :: steps[i].id != steps[j].id
  }

  /** With distinct ids a step is shown exactly the outputs of the steps before it. */
  lemma {:induction false} PriorIsEarlierOutputs(w: World, steps: seq<StepDef>, k: nat)
    requires k <= |steps| && DistinctIds(steps)
    ensures forall id :: id in Prior(w, steps, k) <==> exists i :: 0 <= i < k && steps[i].id == id
    ensures forall i | 0 <= i < k :: Prior(w, steps, k)[steps[i].id] == OrEmpty(OutputOf(w, i))
  {
    if k > 0 {
      PriorIsEarlierOutputs(w, steps, k - 1);
      forall i | 0 <= i < k ensures Prior(w, steps, k)[steps[i].id] == OrEmpty(OutputOf(w, i)) {
        assert i < k - 1 ==> steps[i].id != steps[k - 1].id;
      }
    }
  }

  ghost predicate Descending(order: seq<nat>) {
    forall p, q | 0 <= p < q < |order| :: order[p] > order[q]
  }

  lemma DescendingPush(order: seq<nat>, m: nat)
    requires Descending(order) && forall i | i in order :: i > m
    ensures Descending(order + [m])
  {
    forall p, q | 0 <= p < q < |order + [m]| ensures (order + [m])[p] > (order + [m])[q] {
      assert order[p] in order;
    }
  }

  /** Each of the calls undoes the step that `order` names, given that step's own output. */
  ghost predicate Undoes(calls: seq<Call>, order: seq<nat>, steps: seq<StepDef>, outputs: seq<Option<Payload>>)
    requires |outputs| <= |steps|
  {
    && |calls| == |order|
    && forall p | 0 <= p < |order| :: order[p] < |outputs| && calls[p] == UndoCall(steps, outputs, order[p])
  }

  lemma UndoesPush(calls: seq<Call>, order: seq<nat>, steps: seq<StepDef>, outputs: seq<Option<Payload>>, m: nat)
    requires m < |outputs| <= |steps| && Undoes(calls, order, steps, outputs)
    ensures Undoes(calls + [UndoCall(steps, outputs, m)], order + [m], steps, outputs)
  {
  }

  /** The compensations called are exactly the registered ones of the steps from `m` to `k`, once each, in strictly
      descending order, and each with the output of that very step. */
  lemma {:induction false} UndoneInReverse(
      w: World, steps: seq<StepDef>, outputs: seq<Option<Payload>>, k: nat, m: nat) returns (order: seq<nat>)
    requires m <= k <= |steps| && |outputs| == k
    ensures Descending(order) && Undoes(UndoCalls(w, steps, outputs, k, m), order, steps, outputs)
    ensures forall i: nat :: i in order <==> m <= i < k && Undoable(w, steps, i)
    decreases k - m
  {
    if m == k {
      order := [];
    } else {
      var above := UndoneInReverse(w, steps, outputs, k, m + 1);
      if Undoable(w, steps, m) {
        order := above + [m];
        DescendingPush(above, m);
        UndoesPush(UndoCalls(w, steps, outputs, k, m + 1), above, steps, outputs, m);
      } else {
        order := above;
        assert UndoCalls(w, steps, outputs, k, m) == UndoCalls(w, steps, outputs, k, m + 1);
      }
    }
  }

  /** Every step is undone by its own compensation exactly if the step ids are distinct. */
  lemma {:induction false} OwnCompensation(steps: seq<StepDef>)
    ensures DistinctIds(steps) <==> forall k | 0 <= k < |steps| :: Owner(steps, k) == k
  {
    if DistinctIds(steps) {
      forall k | 0 <= k < |steps| ensures Owner(steps, k) == k {
        assert steps[Owner(steps, k)].id == steps[k].id;
      }
    }
    if forall k | 0 <= k < |steps| :: Owner(steps, k) == k {
      forall i, j | 0 <= i < j < |steps| ensures steps[i].id != steps[j].id {
        assert Owner(steps, j) == j;
      }
    }
  }

  /** With distinct ids a completed step ends undone exactly if it has a registered compensation that does not throw;
      one that throws leaves the step marked as being undone. */
  lemma {:induction false} StatusOfDistinct(w: World, steps: seq<StepDef>, k: nat, m: nat, x: nat)
    requires m <= k <= |steps| && x < k && DistinctIds(steps)
    ensures StatusAfter(w, steps, k, m, x) ==
            if m <= x && Undoable(w, steps, x) then if w.undo(x) then Compensating else Compensated else Completed
    decreases k - m
  {
    OwnCompensation(steps);
    if m < k {
      StatusOfDistinct(w, steps, k, m + 1, x);
      assert Owner(steps, m) == m;
    }
  }

  /** A saga with distinct step ids, from untouched steps: if it stops at step `k`, the steps below it ran once and
      each is undone exactly if its own compensation is registered and does not throw; step `k` failed; the steps
      above it stay untouched. Without a failure every step is completed. */
  lemma {:induction false} SagaOutcome(w: World, def: SagaDefinition, k: nat, i: nat)
    requires DistinctIds(def.steps) && StopsAt(w, def.steps, k) && i < |def.steps|
    ensures var own := def.steps[i].compensate != "" && def.steps[i].compensate in w.handlers;
            Settled(w, def.steps, k, SagaCoordinator.Untouched(def))[i] ==
            if i < k then
              StepView(if k == |def.steps| || !own then Completed else if w.undo(i) then Compensating else Compensated,
                       1, w.forward(i).output)
            else if i == k then StepView(Failed, 1, None)
            else StepView(Waiting, 0, None)
  {
    OwnCompensation(def.steps);
    if i < k {
      StatusOfDistinct(w, def.steps, k, 0, i);
      assert Owner(def.steps, i) == i;
    }
  }

  /** What a handler is given for an output: the output, or the empty one. */
  ghost predicate Gives(w: World, i: nat, payload: Payload) {
    w.forward(i).Returned? && payload == match w.forward(i).output case Some(output) => output case None => ""
  }

  /** The call for step `i`: its own handler, the input of the saga, and the outputs of exactly the steps before it. */
  ghost predicate RunsStep(w: World, steps: seq<StepDef>, input: Payload, i: nat, call: Call)
    requires i < |steps|
  {
    && call.taskId == steps[i].id && call.handler == steps[i].forward && call.input == input
    && (forall id :: id in call.prior <==> exists j :: 0 <= j < i && steps[j].id == id)
    && (forall j: nat | j < i && steps[j].id in call.prior :: Gives(w, j, call.prior[steps[j].id]))
  }

  /** The call that undoes step `i`: its own compensation, given its own output. */
  ghost predicate UndoesStep(w: World, steps: seq<StepDef>, i: nat, call: Call)
    requires i < |steps|
  {
    call.taskId == steps[i].id && call.handler == steps[i].compensate && Gives(w, i, call.input) && call.prior == map[]
  }

  /** The compensations that `order` names. */
  ghost predicate UndoesAll(w: World, steps: seq<StepDef>, order: seq<nat>, calls: seq<Call>) {
    && |calls| == |order|
    && forall p | 0 <= p < |order| :: order[p] < |steps| && UndoesStep(w, steps, order[p], calls[p])
  }

  lemma ForwardCallRuns(w: World, steps: seq<StepDef>, input: Payload, k: nat, i: nat, call: Call)
    requires DistinctIds(steps) && StopsAt(w, steps, k) && i <= k && i < |steps|
    requires call == ForwardCall(w, steps, input, i)
    ensures RunsStep(w, steps, input, i, call)
  {
    PriorIsEarlierOutputs(w, steps, i);
  }

  lemma UndoCallUndoes(w: World, steps: seq<StepDef>, k: nat, i: nat)
    requires DistinctIds(steps) && StopsAt(w, steps, k) && i < k
    ensures UndoesStep(w, steps, i, UndoCall(steps, Outputs(w, k), i))
  {
    OwnCompensation(steps);
  }

  lemma {:induction false} TriedInOrder(w: World, steps: seq<StepDef>, input: Payload, k: nat, tried: seq<Call>)
    requires k <= |steps| && tried == Tried(w, steps, input, k)
    ensures |tried| == k + if k < |steps| && steps[k].forward in w.handlers then 1 else 0
    ensures forall i | 0 <= i < |tried| :: i < |steps| && tried[i] == ForwardCall(w, steps, input, i)
  {
    ForwardInOrder(w, steps, input, k);
  }

  lemma {:induction false} TriedRuns(w: World, steps: seq<StepDef>, input: Payload, k: nat, tried: seq<Call>)
    requires DistinctIds(steps) && StopsAt(w, steps, k) && tried == Tried(w, steps, input, k)
    ensures |tried| == k + if k < |steps| && steps[k].forward in w.handlers then 1 else 0
    ensures forall i | 0 <= i < |tried| :: RunsStep(w, steps, input, i, tried[i])
  {
    TriedInOrder(w, steps, input, k, tried);
    forall i | 0 <= i < |tried| ensures RunsStep(w, steps, input, i, tried[i]) {
      ForwardCallRuns(w, steps, input, k, i, tried[i]);
    }
  }

  lemma {:induction false} UndoCallsUndo(w: World, steps: seq<StepDef>, k: nat, undone: seq<Call>)
    returns (order: seq<nat>)
    requires DistinctIds(steps) && StopsAt(w, steps, k) && undone == UndoCalls(w, steps, Outputs(w, k), k, 0)
    ensures Descending(order) && UndoesAll(w, steps, order, undone)
    ensures forall i: nat :: i in order <==> i < k && steps[i].compensate != "" && steps[i].compensate in w.handlers
  {
    order := UndoneInReverse(w, steps, Outputs(w, k), k, 0);
    forall p | 0 <= p < |order| ensures UndoesStep(w, steps, order[p], undone[p]) {
      UndoCallUndoes(w, steps, k, order[p]);
    }
    OwnCompensation(steps);
  }

  lemma Tail<T>(a: seq<T>, b: seq<T>)
    ensures (a + b)[|a|..] == b && (a + b)[..|a|] == a
  {
  }

  /** All calls of a saga with distinct step ids that stops at step `k`: the steps up to it in order, `k` itself only
      with a registered handler; then, after a failure, the registered compensations of the steps below it, once each,
      from the last to the first. */
  lemma {:induction false} SagaCalls(w: World, steps: seq<StepDef>, input: Payload, k: nat, calls: seq<Call>)
    returns (n: nat, order: seq<nat>)
    requires DistinctIds(steps) && StopsAt(w, steps, k) && calls == AllCalls(w, steps, input, k)
    ensures n == k + (if k < |steps| && steps[k].forward in w.handlers then 1 else 0) && n <= |calls| && n <= |steps|
    ensures forall i | 0 <= i < n :: RunsStep(w, steps, input, i, calls[..n][i])
    ensures Descending(order) && UndoesAll(w, steps, order, calls[n..])
    ensures forall i: nat :: i in order <==>
              i < k < |steps| && steps[i].compensate != "" && steps[i].compensate in w.handlers
  {
    var tried := Tried(w, steps, input, k);
    TriedRuns(w, steps, input, k, tried);
    n := |tried|;
    if k == |steps| {
      order := [];
      assert calls[..n] == tried;
    } else {
      var undone := UndoCalls(w, steps, Outputs(w, k), k, 0);
      order := UndoCallsUndo(w, steps, k, undone);
      Tail(tried, undone);
    }
  }
}
