/**
 * The tutorial engine: steps that drive the tutorial view, ordered step
 * sequences, the five-state tutorial model and the controller that runs a
 * sequence step by step.
 */
module Tutorial {
  import opened Common

  datatype TutorialState = Idle | Running | Paused | Completed | Cancelled

  datatype TutorialStepState = Pending | Active | Completed | Skipped

  datatype Vector2 = Vector2(x: real, y: real)

  /** The three kinds of step and the settings each kind adds. */
  datatype StepKind =
    | MessageStep(waitForTap: bool)
    | HighlightStep(targetId: Option<string>, waitForTargetClick: bool)
    | PointerStep(position: Vector2, animate: bool)

  /** A call made on the tutorial view; the two waits are the calls a step awaits. */
  datatype ViewCall =
    | Show
    | Hide
    | ShowMessage(title: Option<string>, message: Option<string>)
    | HighlightTarget(targetId: Option<string>)
    | ShowPointer(position: Vector2, animate: bool)
    | WaitForTap
    | WaitForTargetClick(targetId: Option<string>)
    | SetProgress(progress: real)
    | ClearHighlight
    | HidePointer

  predicate IsWait(c: ViewCall) {
    c.WaitForTap? || c.WaitForTargetClick?
  }

  class TutorialStep {
    const id: Option<string>
    const title: Option<string>
    const message: Option<string>
    const canSkip: bool
    const delayBefore: real
    const delayAfter: real
    const kind: StepKind
    var state: TutorialStepState
    /** How many times the step's completed event has fired. */
    var completedSignals: nat

    /** A step as its serialized fields describe it. */
    constructor (id: Option<string>, title: Option<string>, message: Option<string>, canSkip: bool,
                 delayBefore: real, delayAfter: real, kind: StepKind)
      ensures this.id == id && this.title == title && this.message == message && this.canSkip == canSkip
      ensures this.delayBefore == delayBefore && this.delayAfter == delayAfter && this.kind == kind
      ensures state == TutorialStepState.Pending && completedSignals == 0
    {
      this.id := id;
      this.title := title;
      this.message := message;
      this.canSkip := canSkip;
      this.delayBefore := delayBefore;
      this.delayAfter := delayAfter;
      this.kind := kind;
      state := TutorialStepState.Pending;
      completedSignals := 0;
    }

    constructor Message(id: Option<string>, title: Option<string>, message: Option<string>, waitForTap: bool)
      ensures this.id == id && this.title == title && this.message == message
      ensures canSkip && delayBefore == 0.0 && delayAfter == 0.0 && kind == MessageStep(waitForTap)
      ensures state == TutorialStepState.Pending && completedSignals == 0
    {
      this.id := id;
      this.title := title;
      this.message := message;
      canSkip := true;
      delayBefore := 0.0;
      delayAfter := 0.0;
      kind := MessageStep(waitForTap);
      state := TutorialStepState.Pending;
      completedSignals := 0;
    }

    constructor Highlight(id: Option<string>, targetId: Option<string>, title: Option<string>,
                          message: Option<string>, waitForTargetClick: bool)
      ensures this.id == id && this.title == title && this.message == message
      ensures canSkip && delayBefore == 0.0 && delayAfter == 0.0
      ensures kind == HighlightStep(targetId, waitForTargetClick)
      ensures state == TutorialStepState.Pending && completedSignals == 0
    {
      this.id := id;
      this.title := title;
      this.message := message;
      canSkip := true;
      delayBefore := 0.0;
      delayAfter := 0.0;
      kind := HighlightStep(targetId, waitForTargetClick);
      state := TutorialStepState.Pending;
      completedSignals := 0;
    }

    /** A pointer step has no title. */
    constructor Pointer(id: Option<string>, position: Vector2, message: Option<string>, animate: bool)
      ensures this.id == id && title == None && this.message == message
      ensures canSkip && delayBefore == 0.0 && delayAfter == 0.0 && kind == PointerStep(position, animate)
      ensures state == TutorialStepState.Pending && completedSignals == 0
    {
      this.id := id;
      title := None;
      this.message := message;
      canSkip := true;
      delayBefore := 0.0;
      delayAfter := 0.0;
      kind := PointerStep(position, animate);
      state := TutorialStepState.Pending;
      completedSignals := 0;
    }

    /** Whether executing the step awaits the player: only a message step may go without. */
    predicate Waits() {
      !(kind.MessageStep? && !kind.waitForTap)
    }

    /**
     * The view calls executing the step makes, in order. The awaited wait
     * comes last; the step completes itself once it returns.
     */
    function Script(): (calls: seq<ViewCall>)
      ensures 1 <= |calls| <= 3
      ensures calls[0] == ShowMessage(if kind.PointerStep? then None else title, message)
      ensures Waits() <==> IsWait(calls[|calls| - 1])
      ensures forall i :: 0 <= i < |calls| - 1 ==> !IsWait(calls[i])
      ensures kind.HighlightStep? ==>
                && |calls| == 3 && calls[1] == HighlightTarget(kind.targetId)
                && (calls[2].WaitForTargetClick? ==> calls[2].targetId == kind.targetId)
                && (calls[2].WaitForTargetClick? <==> kind.waitForTargetClick)
      ensures kind.PointerStep? ==> calls[1..] == [ShowPointer(kind.position, kind.animate), WaitForTap]
    {
      match kind
      case MessageStep(waitForTap) =>
        [ShowMessage(title, message)] + (if waitForTap then [WaitForTap] else [])
      case HighlightStep(targetId, waitForTargetClick) =>
        [ShowMessage(title, message), HighlightTarget(targetId)]
        + (if waitForTargetClick then [WaitForTargetClick(targetId)] else [WaitForTap])
      case PointerStep(position, animate) =>
        [ShowMessage(None, message), ShowPointer(position, animate), WaitForTap]
    }

    method Complete()
      modifies this`state, this`completedSignals
      ensures state == TutorialStepState.Completed && completedSignals == old(completedSignals) + 1
    {
      state := TutorialStepState.Completed;
      completedSignals := completedSignals + 1;
    }

    /** Skipping does not look at `canSkip`; the controller checks it. */
    method Skip()
      modifies this`state, this`completedSignals
      ensures state == Skipped && completedSignals == old(completedSignals) + 1
    {
      state := Skipped;
      completedSignals := completedSignals + 1;
    }
  }

  /** The first index of a step with id `stepId`. */
  function FirstStepWithId(steps: seq<TutorialStep>, stepId: Option<string>): (r: Option<nat>)
    ensures r.None? <==> forall i :: 0 <= i < |steps| ==> steps[i].id != stepId
    ensures r.Some? ==> r.value < |steps| && steps[r.value].id == stepId
                        && forall i :: 0 <= i < r.value ==> steps[i].id != stepId
  {
    if steps == [] then None
    else if steps[0].id == stepId then Some(0)
    else
      match FirstStepWithId(steps[1..], stepId)
      case None => None
      case Some(i) => Some(i + 1)
  }

  class TutorialSequence {
    const id: Option<string>
    const name: Option<string>
    const priority: int
    const canSkipAll: bool
    var steps: seq<TutorialStep>

    constructor (id: Option<string>, name: Option<string>, priority: int, canSkipAll: bool)
      ensures this.id == id && this.name == name && this.priority == priority && this.canSkipAll == canSkipAll
      ensures steps == []
    {
      this.id := id;
      this.name := name;
      this.priority := priority;
      this.canSkipAll := canSkipAll;
      steps := [];
    }

    /** The source's defaults: no name, priority 0, skippable as a whole. */
    constructor WithDefaults(id: Option<string>)
      ensures this.id == id && name == None && priority == 0 && canSkipAll && steps == []
    {
      this.id := id;
      name := None;
      priority := 0;
      canSkipAll := true;
      steps := [];
    }

    function StepCount(): nat
      reads this
    {
      |steps|
    }

    /** Appends `step` and returns this same sequence, so calls chain. */
    method AddStep(step: TutorialStep) returns (r: TutorialSequence)
      modifies this`steps
      ensures steps == old(steps) + [step] && StepCount() == old(StepCount()) + 1
      ensures r == this
    {
      steps := steps + [step];
      r := this;
    }

    /** The step at `index`, or null outside the list. */
    function GetStepAt(index: int): (r: TutorialStep?)
      reads this
      ensures r == null <==> index < 0 || index >= StepCount()
      ensures r != null ==> r == steps[index]
    {
      if index < 0 || index >= |steps| then null else steps[index]
    }

    /** The first step with id `stepId`, or null when none has it. */
    function GetStepById(stepId: Option<string>): (r: TutorialStep?)
      reads this
      ensures r == null <==> forall i :: 0 <= i < |steps| ==> steps[i].id != stepId
      ensures r != null ==> r.id == stepId && (exists i :: 0 <= i < |steps| && steps[i] == r
                                                   && forall j :: 0 <= j < i ==> steps[j].id != stepId)
    {
      match FirstStepWithId(steps, stepId)
      case None => null
      case Some(i) => steps[i]
    }
  }

  datatype ModelEvent =
    | StateChanged(newState: TutorialState)
    /** The current step moved to `index`; the step itself is the current sequence's step there. */
    | StepChanged(index: int)
    | SequenceCompleted(sequenceId: Option<string>)

  /** How often `s` reports sequence `id` completed. */
  function Completions(s: seq<ModelEvent>, id: Option<string>): nat {
    if s == [] then 0 else Completions(s[..|s| - 1], id) + (if s[|s| - 1] == SequenceCompleted(id) then 1 else 0)
  }

  lemma {:induction false} CompletionsAppend(a: seq<ModelEvent>, b: seq<ModelEvent>, id: Option<string>)
    ensures Completions(a + b, id) == Completions(a, id) + Completions(b, id)
    decreases |b|
  {
    if b == [] {
      assert a + b == a;
    } else {
      assert (a + b)[..|a + b| - 1] == a + b[..|b| - 1];
      CompletionsAppend(a, b[..|b| - 1], id);
    }
  }

  /** Events without a sequence completion leave every count as it was. */
  lemma CompletionsKept(a: seq<ModelEvent>, b: seq<ModelEvent>)
    requires forall i :: 0 <= i < |b| ==> !b[i].SequenceCompleted?
    ensures forall id :: Completions(a + b, id) == Completions(a, id)
  {
    forall id
      ensures Completions(a + b, id) == Completions(a, id)
    {
      CompletionsAppend(a, b, id);
      NoCompletions(b, id);
    }
  }

  lemma {:induction false} NoCompletions(b: seq<ModelEvent>, id: Option<string>)
    requires forall i :: 0 <= i < |b| ==> !b[i].SequenceCompleted?
    ensures Completions(b, id) == 0
    decreases |b|
  {
    if b != [] {
      NoCompletions(b[..|b| - 1], id);
    }
  }

  /** One completion of `id` followed by events without one counts once more. */
  lemma CompletionsAdded(a: seq<ModelEvent>, id: Option<string>, b: seq<ModelEvent>)
    requires forall i :: 0 <= i < |b| ==> !b[i].SequenceCompleted?
    ensures Completions(a + [SequenceCompleted(id)] + b, id) == Completions(a, id) + 1
  {
    CompletionsAppend(a + [SequenceCompleted(id)], b, id);
    NoCompletions(b, id);
    assert (a + [SequenceCompleted(id)])[..|a|] == a;
  }

  /** The state-changed event the state setter fires when the state changes. */
  function StateEvents(old_: TutorialState, new_: TutorialState): (r: seq<ModelEvent>)
    ensures |r| <= 1
    ensures r == [] <==> old_ == new_
    ensures r != [] ==> r == [StateChanged(new_)]
  {
    if old_ != new_ then [StateChanged(new_)] else []
  }

  class TutorialModel {
    var state: TutorialState
    var currentSequence: TutorialSequence?
    var currentStepIndex: int
    var completedSequences: set<Option<string>>
    var completedSteps: set<Option<string>>
    var events: seq<ModelEvent>

    /** Without a sequence the index is -1; with one it is -1 or the position of a step. */
    predicate Valid()
      reads this, currentSequence
    {
      && (currentSequence == null ==> currentStepIndex == -1)
      && (currentSequence != null ==> -1 <= currentStepIndex < |currentSequence.steps|)
    }

    constructor ()
      ensures state == Idle && currentSequence == null && currentStepIndex == -1
      ensures completedSequences == {} && completedSteps == {} && events == []
      ensures Valid()
    {
      state := Idle;
      currentSequence := null;
      currentStepIndex := -1;
      completedSequences := {};
      completedSteps := {};
      events := [];
    }

    /** The state setter: the event fires only when the value changes. */
    method SetState(value: TutorialState)
      modifies this`state, this`events
      ensures state == value
      ensures events == old(events) + StateEvents(old(state), value)
    {
      if state != value {
        state := value;
        events := events + [StateChanged(value)];
      }
    }

    /** The step at the current index of the current sequence, if there is one. */
    function CurrentStep(): (r: TutorialStep?)
      reads this, currentSequence
      ensures r != null <==> currentSequence != null && 0 <= currentStepIndex < |currentSequence.steps|
      ensures r != null ==> r == currentSequence.steps[currentStepIndex]
    {
      if currentSequence == null then null else currentSequence.GetStepAt(currentStepIndex)
    }

    predicate IsRunning()
      reads this
    {
      state == Running
    }

    predicate IsPaused()
      reads this
    {
      state == Paused
    }

    /** The share of the current sequence reached: 0 without steps, 1 at the last step. */
    function Progress(): (p: real)
      reads this, currentSequence
      ensures currentSequence == null || |currentSequence.steps| == 0 ==> p == 0.0
      ensures Valid() ==> 0.0 <= p <= 1.0
      ensures currentSequence != null && |currentSequence.steps| > 0 && currentStepIndex == |currentSequence.steps| - 1 ==> p == 1.0
      ensures currentSequence != null && |currentSequence.steps| > 0 ==>
                p * (|currentSequence.steps| as real) == (currentStepIndex + 1) as real
    {
      if currentSequence == null || |currentSequence.steps| == 0 then 0.0
      else
        var n := |currentSequence.steps| as real;
        var p := (currentStepIndex + 1) as real / n;
        p
    }

    /** Starts `sequence` from before its first step, whatever the state was. */
    method StartSequence(sequence: TutorialSequence?)
      modifies this`currentSequence, this`currentStepIndex, this`state, this`events
      ensures currentSequence == sequence && currentStepIndex == -1 && state == Running
      ensures events == old(events) + StateEvents(old(state), Running)
      ensures Valid()
    {
      currentSequence := sequence;
      currentStepIndex := -1;
      SetState(Running);
    }

    /**
     * Records the current sequence (if any) as completed, clears it and
     * enters Completed.
     */
    method CompleteCurrentSequence()
      modifies this`currentSequence, this`currentStepIndex, this`state, this`events, this`completedSequences
      ensures currentSequence == null && currentStepIndex == -1 && state == TutorialState.Completed
      ensures completedSequences == old(completedSequences)
                                    + (if old(currentSequence) != null then {old(currentSequence).id} else {})
      ensures events == old(events)
                        + (if old(currentSequence) != null then [SequenceCompleted(old(currentSequence).id)] else [])
                        + StateEvents(old(state), TutorialState.Completed)
      ensures Valid()
    {
      if currentSequence != null {
        completedSequences := completedSequences + {currentSequence.id};
        events := events + [SequenceCompleted(currentSequence.id)];
      }
      currentSequence := null;
      currentStepIndex := -1;
      SetState(TutorialState.Completed);
    }

    /**
     * Moves to the next step. Past the last step the sequence completes and
     * the answer is false; without a sequence nothing happens.
     */
    method NextStep() returns (more: bool)
      requires Valid()
      modifies this`currentSequence, this`currentStepIndex, this`state, this`events, this`completedSequences
      ensures Valid()
      ensures old(currentSequence) == null ==> !more && unchanged(this)
      ensures old(currentSequence) != null && old(currentStepIndex) + 1 < old(|currentSequence.steps|) ==>
                && more && currentSequence == old(currentSequence)
                && currentStepIndex == old(currentStepIndex) + 1
                && events == old(events) + [StepChanged(currentStepIndex)]
                && state == old(state) && completedSequences == old(completedSequences)
      ensures old(currentSequence) != null && old(currentStepIndex) + 1 >= old(|currentSequence.steps|) ==>
                && !more && currentSequence == null && currentStepIndex == -1
                && state == TutorialState.Completed
                && completedSequences == old(completedSequences) + {old(currentSequence).id}
                && events == old(events) + [SequenceCompleted(old(currentSequence).id)]
                             + StateEvents(old(state), TutorialState.Completed)
      ensures old(currentSequence) != null ==>
                Completions(events, old(currentSequence).id)
                == Completions(old(events), old(currentSequence).id) + (if more then 0 else 1)
    {
      if currentSequence == null {
        return false;
      }
      ghost var id, e, st := currentSequence.id, events, state;
      currentStepIndex := currentStepIndex + 1;
      if currentStepIndex >= currentSequence.StepCount() {
        CompleteCurrentSequence();
        CompletionsAdded(e, id, StateEvents(st, TutorialState.Completed));
        return false;
      }
      events := events + [StepChanged(currentStepIndex)];
      CompletionsKept(e, [StepChanged(currentStepIndex)]);
      more := true;
    }

    /** Records the current step's id; nothing without a current step. */
    method CompleteCurrentStep()
      modifies this`completedSteps
      ensures CurrentStep() != null ==> completedSteps == old(completedSteps) + {CurrentStep().id}
      ensures CurrentStep() == null ==> completedSteps == old(completedSteps)
      ensures CurrentStep() != null ==> IsStepCompleted(CurrentStep().id)
      ensures forall x :: x in old(completedSteps) ==> IsStepCompleted(x)
    {
      var step := CurrentStep();
      if step != null {
        completedSteps := completedSteps + {step.id};
      }
    }

    /** Leaves the current sequence from any state, without recording it. */
    method Cancel()
      modifies this`currentSequence, this`currentStepIndex, this`state, this`events
      ensures currentSequence == null && currentStepIndex == -1 && state == Cancelled
      ensures events == old(events) + StateEvents(old(state), Cancelled)
      ensures Valid()
    {
      currentSequence := null;
      currentStepIndex := -1;
      SetState(Cancelled);
    }

    /** Running becomes Paused; every other state is left alone. */
    method Pause()
      modifies this`state, this`events
      ensures old(state) == Running ==> state == Paused && events == old(events) + [StateChanged(Paused)]
      ensures old(state) != Running ==> state == old(state) && events == old(events)
      ensures !IsRunning() && (IsPaused() <==> old(IsRunning() || IsPaused()))
    {
      if IsRunning() {
        SetState(Paused);
      }
    }

    /** Paused becomes Running; every other state is left alone. */
    method Resume()
      modifies this`state, this`events
      ensures old(state) == Paused ==> state == Running && events == old(events) + [StateChanged(Running)]
      ensures old(state) != Paused ==> state == old(state) && events == old(events)
      ensures !IsPaused() && (IsRunning() <==> old(IsRunning() || IsPaused()))
    {
      if IsPaused() {
        SetState(Running);
      }
    }

    predicate IsSequenceCompleted(sequenceId: Option<string>)
      reads this
    {
      sequenceId in completedSequences
    }

    predicate IsStepCompleted(stepId: Option<string>)
      reads this
    {
      stepId in completedSteps
    }

    method MarkSequenceCompleted(sequenceId: Option<string>)
      modifies this`completedSequences
      ensures completedSequences == old(completedSequences) + {sequenceId}
      ensures IsSequenceCompleted(sequenceId)
      ensures forall x :: x != sequenceId ==> (IsSequenceCompleted(x) <==> x in old(completedSequences))
    {
      completedSequences := completedSequences + {sequenceId};
    }

    /** Replaces the completed sequences with exactly the given ids; null gives none. */
    method LoadCompletionData(ids: Option<seq<Option<string>>>)
      modifies this`completedSequences
      ensures forall x :: x in completedSequences <==> ids.Some? && x in ids.value
      ensures forall x :: IsSequenceCompleted(x) <==> ids.Some? && x in ids.value
    {
      completedSequences := {};
      if ids.Some? {
        var list := ids.value;
        var i := 0;
        while i < |list|
          invariant 0 <= i <= |list|
          invariant forall x :: x in completedSequences <==> x in list[..i]
        {
          completedSequences := completedSequences + {list[i]};
          assert list[..i + 1] == list[..i] + [list[i]];
          i := i + 1;
        }
        assert list[..i] == list;
      }
    }
  }

  datatype ControllerEvent =
    | TutorialStarted(sequence: TutorialSequence)
    | TutorialCancelled(sequenceId: Option<string>)

  /** The awaits of a running step during which the host may call back into the controller. */
  datatype SuspendPoint = DelayBefore | PauseWait | StepWait | DelayAfter

  /** What the host does while a run is suspended: one controller call, or nothing. */
  datatype HostAction = NoAction | PauseCall | ResumeCall | SkipStepCall | SkipAllCall | CancelCall

  /** How the host acts at each suspension point of the step with the given index. */
  type Host = (int, SuspendPoint) -> HostAction

  /** A host that never interferes with a run. */
  ghost predicate Quiet(host: Host) {
    forall i, p :: host(i, p) == NoAction
  }

  /** How one step of a run ends: done, abandoned by a cancellation, or parked in the pause wait. */
  datatype StepOutcome = StepDone | StepThrew | StepStuck

  /** A run either finishes or stays parked in a pause nobody ends. */
  datatype RunOutcome = Finished | Suspended

  /** The view calls of the step at index `i` of `n` when nothing interrupts it. */
  function StepCalls(step: TutorialStep, i: int, n: nat): seq<ViewCall>
    requires n > 0
  {
    step.Script() + [SetProgress((i + 1) as real / n as real), ClearHighlight, HidePointer]
  }

  /** The view calls of the uninterrupted steps `lo` up to `hi` of `steps`. */
  function RunCalls(steps: seq<TutorialStep>, lo: nat, hi: nat): seq<ViewCall>
    requires hi <= |steps|
    decreases hi
  {
    if lo < hi then RunCalls(steps, lo, hi - 1) + StepCalls(steps[hi - 1], hi - 1, |steps|) else []
  }

  /** The step-changed events for the steps `lo` up to `hi`. */
  function StepChanges(steps: seq<TutorialStep>, lo: nat, hi: nat): (r: seq<ModelEvent>)
    requires hi <= |steps|
    decreases hi
  {
    if lo < hi then
      var r := StepChanges(steps, lo, hi - 1) + [StepChanged(hi - 1)];
      assert r[..|r| - 1] == StepChanges(steps, lo, hi - 1);
      r
    else []
  }

  /** The ids of the steps `lo` up to `hi`. */
  function StepIds(steps: seq<TutorialStep>, lo: nat, hi: nat): set<Option<string>>
    requires hi <= |steps|
    decreases hi
  {
    if lo < hi then StepIds(steps, lo, hi - 1) + {steps[hi - 1].id} else {}
  }

  /** An id is among those of the steps `lo` up to `hi` exactly when one of those steps carries it. */
  lemma {:induction false} StepIdsMembers(steps: seq<TutorialStep>, lo: nat, hi: nat)
    requires hi <= |steps|
    ensures forall x :: x in StepIds(steps, lo, hi) <==> (exists j :: lo <= j < hi && steps[j].id == x)
    decreases hi
  {
    if lo < hi {
      StepIdsMembers(steps, lo, hi - 1);
    }
  }

  /** One more step of a run, unfolded once for each trace. */
  lemma RunUnfolds(steps: seq<TutorialStep>, lo: nat, i: nat)
    requires lo <= i < |steps|
    ensures RunCalls(steps, lo, i + 1) == RunCalls(steps, lo, i) + StepCalls(steps[i], i, |steps|)
    ensures StepIds(steps, lo, i + 1) == StepIds(steps, lo, i) + {steps[i].id}
    ensures i + 1 < |steps| ==>
              StepChanges(steps, lo, i + 2) == StepChanges(steps, lo, i + 1) + [StepChanged(i + 1)]
  {
  }

  /** Fast-forwarding to a step and running on from it reports every step change once, in order. */
  lemma {:induction false} StepChangesSplit(steps: seq<TutorialStep>, lo: nat, mid: nat, hi: nat)
    requires lo <= mid <= hi <= |steps|
    ensures StepChanges(steps, lo, mid) + StepChanges(steps, mid, hi) == StepChanges(steps, lo, hi)
    decreases hi - mid
  {
    if hi > mid {
      StepChangesSplit(steps, lo, mid, hi - 1);
    }
  }

  /** The last step's own calls end by reporting full progress and clearing the view. */
  lemma LastStepEnds(step: TutorialStep, n: nat)
    requires n > 0
    ensures var last := StepCalls(step, n - 1, n);
            && |last| >= 3
            && last[|last| - 3] == SetProgress(1.0)
            && last[|last| - 2] == ClearHighlight
            && last[|last| - 1] == HidePointer
  {
    assert (n - 1 + 1) as real / n as real == 1.0;
  }

  /** An uninterrupted run of a non-empty remainder ends by reporting full progress and clearing the view. */
  lemma RunEndsAtFullProgress(steps: seq<TutorialStep>, lo: nat)
    requires lo < |steps|
    ensures var calls := RunCalls(steps, lo, |steps|);
            && |calls| >= 3
            && calls[|calls| - 3] == SetProgress(1.0)
            && calls[|calls| - 2] == ClearHighlight
            && calls[|calls| - 1] == HidePointer
  {
    var n := |steps|;
    var last := StepCalls(steps[n - 1], n - 1, n);
    LastStepEnds(steps[n - 1], n);
    var calls := RunCalls(steps, lo, n);
    var prefix := RunCalls(steps, lo, n - 1);
    assert calls == prefix + last;
    assert calls[|calls| - 3] == last[|last| - 3];
    assert calls[|calls| - 2] == last[|last| - 2];
    assert calls[|calls| - 1] == last[|last| - 1];
  }

  /** The three logs a run extends: model events, completed step ids and view calls. */
  datatype RunLogs = RunLogs(events: seq<ModelEvent>, completed: set<Option<string>>, calls: seq<ViewCall>)

  /**
   * `now` is `start` after a run from step `lo` that nobody cancelled has
   * finished the steps before `k`: their ids are recorded and, with a view,
   * their calls are made, whatever else the host did meanwhile.
   */
  predicate Ran(steps: seq<TutorialStep>, lo: nat, k: nat, hasView: bool, start: RunLogs, now: RunLogs) {
    && lo <= k <= |steps|
    && now.completed == start.completed + StepIds(steps, lo, k)
    && now.calls == start.calls + (if hasView then RunCalls(steps, lo, k) else [])
  }

  /**
   * The model events `now` extend `start` by the report of every step from
   * `lo` up to the current step `k`, as an uninterrupted run makes them.
   */
  predicate ChangedUpTo(steps: seq<TutorialStep>, lo: nat, k: nat, start: seq<ModelEvent>, now: seq<ModelEvent>) {
    lo <= k < |steps| && now == start + StepChanges(steps, lo, k + 1)
  }

  /**
   * The model events `now` extend `start` by the report of every step from
   * `lo` on and then the completion of the sequence `id`.
   */
  predicate ChangedAll(steps: seq<TutorialStep>, lo: nat, id: Option<string>, start: seq<ModelEvent>, now: seq<ModelEvent>) {
    lo <= |steps|
    && now == start + StepChanges(steps, lo, |steps|) + [SequenceCompleted(id), StateChanged(TutorialState.Completed)]
  }

  /** A run from step `lo` that has finished no step yet has recorded no id and made no call. */
  lemma RanNone(steps: seq<TutorialStep>, lo: nat, hasView: bool, start: RunLogs, now: RunLogs)
    requires lo <= |steps|
    requires now.completed == start.completed && now.calls == start.calls
    ensures Ran(steps, lo, lo, hasView, start, now)
  {
    assert StepIds(steps, lo, lo) == {} && RunCalls(steps, lo, lo) == [];
  }

  /**
   * The first `NextStep` of a run from step `lo` either makes step `lo`
   * current or, past the last step, completes the sequence.
   */
  lemma TraceStart(steps: seq<TutorialStep>, lo: nat, id: Option<string>, start: seq<ModelEvent>, now: seq<ModelEvent>)
    requires lo <= |steps|
    requires lo < |steps| ==> now == start + [StepChanged(lo)]
    requires lo == |steps| ==> now == start + [SequenceCompleted(id), StateChanged(TutorialState.Completed)]
    ensures lo < |steps| ==> ChangedUpTo(steps, lo, lo, start, now)
    ensures lo == |steps| ==> ChangedAll(steps, lo, id, start, now)
  {
    assert StepChanges(steps, lo, lo) == [];
    if lo < |steps| {
      assert StepChanges(steps, lo, lo + 1) == [StepChanged(lo)];
    }
  }

  /**
   * The model events `after` extend `before` once the current step `k` has
   * finished and the model has moved on: it reports the next step or, after
   * the last one, the completed sequence `id`.
   */
  predicate Moved(steps: seq<TutorialStep>, k: nat, id: Option<string>, before: seq<ModelEvent>, after: seq<ModelEvent>) {
    && k < |steps|
    && (k + 1 < |steps| ==> after == before + [StepChanged(k + 1)])
    && (k + 1 == |steps| ==> after == before + [SequenceCompleted(id), StateChanged(TutorialState.Completed)])
  }

  /**
   * `after` is `before` once step `k` has finished without a cancellation:
   * its id is recorded and, with a view, its calls are made.
   */
  predicate StepLogs(steps: seq<TutorialStep>, k: nat, hasView: bool, before: RunLogs, after: RunLogs) {
    && k < |steps|
    && after.completed == before.completed + {steps[k].id}
    && after.calls == before.calls + (if hasView then StepCalls(steps[k], k, |steps|) else [])
  }

  /** Finishing step `k` of a run that has finished the steps before it extends the run by that step. */
  lemma TraceDone(steps: seq<TutorialStep>, lo: nat, k: nat, hasView: bool, start: RunLogs, before: RunLogs, after: RunLogs)
    requires Ran(steps, lo, k, hasView, start, before)
    requires StepLogs(steps, k, hasView, before, after)
    ensures Ran(steps, lo, k + 1, hasView, start, after)
  {
    RunUnfolds(steps, lo, k);
    if hasView {
      AppendAssoc(start.calls, RunCalls(steps, lo, k), StepCalls(steps[k], k, |steps|));
    }
  }

  /**
   * Moving on from the current step `k` of an uninterrupted run extends
   * its step reports by the next step, or by the completion after the last.
   */
  lemma TraceNext(steps: seq<TutorialStep>, lo: nat, k: nat, id: Option<string>,
                  start: seq<ModelEvent>, before: seq<ModelEvent>, after: seq<ModelEvent>)
    requires ChangedUpTo(steps, lo, k, start, before)
    requires Moved(steps, k, id, before, after)
    ensures k + 1 < |steps| ==> ChangedUpTo(steps, lo, k + 1, start, after)
    ensures k + 1 == |steps| ==> ChangedAll(steps, lo, id, start, after)
  {
    if k + 1 < |steps| {
      RunUnfolds(steps, lo, k);
      AppendAssoc(start, StepChanges(steps, lo, k + 1), [StepChanged(k + 1)]);
    }
  }

  /**
   * The completed ids and view calls of a launch from step `startStep`
   * that finished uncancelled: the view's opening, the calls of every step
   * from the start step on, and its hiding.
   */
  lemma LaunchCalls(steps: seq<TutorialStep>, startStep: int, hasView: bool, start: RunLogs, skipped: RunLogs, now: RunLogs)
    requires skipped.completed == start.completed
    requires skipped.calls == start.calls + (if hasView then [Show, SetProgress(0.0)] else [])
    requires startStep <= |steps| ==>
               var s := if startStep < 0 then 0 else startStep;
               && now.completed == skipped.completed + StepIds(steps, s, |steps|)
               && now.calls == skipped.calls + (if hasView then RunCalls(steps, s, |steps|) + [Hide] else [])
    requires startStep > |steps| ==>
               now.completed == skipped.completed && now.calls == skipped.calls + (if hasView then [Hide] else [])
    ensures var n := |steps|;
            var s := if startStep < 0 then 0 else if startStep > n then n else startStep;
            && now.completed == start.completed + StepIds(steps, s, n)
            && now.calls == start.calls + (if hasView then [Show, SetProgress(0.0)] + RunCalls(steps, s, n) + [Hide] else [])
  {
    var n := |steps|;
    var shows := [Show, SetProgress(0.0)];
    if startStep <= n {
      var s := if startStep < 0 then 0 else startStep;
      if hasView {
        AppendAssoc(start.calls, shows, RunCalls(steps, s, n) + [Hide]);
        AppendAssoc(shows, RunCalls(steps, s, n), [Hide]);
      }
    } else {
      assert StepIds(steps, n, n) == {};
      if hasView {
        assert shows + RunCalls(steps, n, n) == shows;
        AppendAssoc(start.calls, shows, [Hide]);
      }
    }
  }

  /**
   * The model events of a quiet launch from step `startStep`: the
   * fast-forward and the run together report every step change once, in
   * order, then the completion.
   */
  lemma LaunchEvents(steps: seq<TutorialStep>, id: Option<string>, startStep: int,
                     start: seq<ModelEvent>, skipped: seq<ModelEvent>, now: seq<ModelEvent>)
    requires startStep <= |steps| ==>
               var s := if startStep < 0 then 0 else startStep;
               && skipped == start + [StateChanged(Running)] + StepChanges(steps, 0, s)
               && now == skipped + StepChanges(steps, s, |steps|) + [SequenceCompleted(id), StateChanged(TutorialState.Completed)]
    requires startStep > |steps| ==>
               && skipped == start + [StateChanged(Running)] + StepChanges(steps, 0, |steps|)
                             + [SequenceCompleted(id), StateChanged(TutorialState.Completed)]
               && now == skipped
    ensures now == start + [StateChanged(Running)] + StepChanges(steps, 0, |steps|)
                   + [SequenceCompleted(id), StateChanged(TutorialState.Completed)]
  {
    if startStep <= |steps| {
      var s := if startStep < 0 then 0 else startStep;
      StepChangesSplit(steps, 0, s, |steps|);
      AppendAssoc(start + [StateChanged(Running)], StepChanges(steps, 0, s), StepChanges(steps, s, |steps|));
    }
  }

  /** Where a run loop began: whether it was quiet and started, its first step, and what it found. */
  datatype RunStart = RunStart(
    quiet: bool, started: bool, lo: nat, logs: RunLogs,
    completed: set<Option<string>>, count: nat, events: seq<ControllerEvent>, state: TutorialState)

  class TutorialController {
    const model: TutorialModel
    const hasView: bool
    var registered: map<string, TutorialSequence>
    /** Whether cancellation of the current run has been requested. */
    var cancelRequested: bool
    var events: seq<ControllerEvent>
    var viewLog: seq<ViewCall>

    constructor (model: TutorialModel, hasView: bool)
      ensures this.model == model && this.hasView == hasView
      ensures registered == map[] && !cancelRequested && events == [] && viewLog == []
    {
      this.model := model;
      this.hasView := hasView;
      registered := map[];
      cancelRequested := false;
      events := [];
      viewLog := [];
    }

    /** The logs a run extends. */
    function Logs(): RunLogs
      reads this, model
    {
      RunLogs(model.events, model.completedSteps, viewLog)
    }

    /**
     * Registers `sequence` under its id; the latest registration wins and
     * null is ignored. A null id is refused by the dictionary (`threw`).
     */
    method RegisterSequence(sequence: TutorialSequence?) returns (threw: bool)
      modifies this`registered
      ensures threw <==> sequence != null && sequence.id.None?
      ensures sequence != null && sequence.id.Some? ==> registered == old(registered)[sequence.id.value := sequence]
      ensures sequence == null || sequence.id.None? ==> registered == old(registered)
    {
      if sequence == null {
        return false;
      }
      if sequence.id.None? {
        return true;
      }
      registered := registered[sequence.id.value := sequence];
      threw := false;
    }

    /** Skips the current step, only when there is one and it may be skipped. */
    method SkipCurrentStep()
      modifies model.CurrentStep()
      ensures var step := model.CurrentStep();
              step != null && step.canSkip ==>
                step.state == Skipped && step.completedSignals == old(step.completedSignals) + 1
      ensures var step := model.CurrentStep();
              step != null && !step.canSkip ==> unchanged(step)
    {
      var step := model.CurrentStep();
      if step != null && step.canSkip {
        step.Skip();
      }
    }

    method Pause()
      modifies model`state, model`events
      ensures old(model.state) == Running ==> model.state == Paused && model.events == old(model.events) + [StateChanged(Paused)]
      ensures old(model.state) != Running ==> model.state == old(model.state) && model.events == old(model.events)
    {
      model.Pause();
    }

    method Resume()
      modifies model`state, model`events
      ensures old(model.state) == Paused ==> model.state == Running && model.events == old(model.events) + [StateChanged(Running)]
      ensures old(model.state) != Paused ==> model.state == old(model.state) && model.events == old(model.events)
    {
      model.Resume();
    }

    /**
     * Cancels the run and leaves the sequence. The cancelled event reads the
     * sequence id after the model has cleared it, so it always carries null.
     * The steps' cleanup does nothing for any kind of step.
     */
    method Cancel()
      modifies this`cancelRequested, this`events, this`viewLog
      modifies model`currentSequence, model`currentStepIndex, model`state, model`events
      ensures cancelRequested
      ensures model.currentSequence == null && model.currentStepIndex == -1 && model.state == Cancelled
      ensures model.events == old(model.events) + StateEvents(old(model.state), Cancelled)
      ensures events == old(events) + [TutorialCancelled(None)]
      ensures viewLog == old(viewLog) + (if hasView then [Hide] else [])
    {
      cancelRequested := true;
      model.Cancel();
      // the id is read after the model has cleared the sequence
      events := events + [TutorialCancelled(None)];
      if hasView {
        viewLog := viewLog + [Hide];
      }
    }

    /**
     * Skips the whole sequence when it allows that: cancels, then completes.
     * Cancelling has already cleared the sequence, so its id is not recorded.
     */
    method SkipAll()
      modifies this`cancelRequested, this`events, this`viewLog
      modifies model`currentSequence, model`currentStepIndex, model`state, model`events, model`completedSequences
      ensures var s := old(model.currentSequence);
              s == null || !s.canSkipAll ==> unchanged(this) && unchanged(model)
      ensures var s := old(model.currentSequence);
              s != null && s.canSkipAll ==>
                && cancelRequested && model.currentSequence == null && model.currentStepIndex == -1
                && model.state == TutorialState.Completed
                && model.completedSequences == old(model.completedSequences)
                && model.events == old(model.events) + StateEvents(old(model.state), Cancelled)
                                   + [StateChanged(TutorialState.Completed)]
                && events == old(events) + [TutorialCancelled(None)]
                && viewLog == old(viewLog) + (if hasView then [Hide] else [])
    {
      if model.currentSequence != null && model.currentSequence.canSkipAll {
        Cancel();
        model.CompleteCurrentSequence();
      }
    }

    /** The host's call during a suspension. */
    method Act(a: HostAction)
      requires model.Valid()
      requires model.currentSequence == null ==> model.state in {TutorialState.Completed, Cancelled}
      modifies this`cancelRequested, this`events, this`viewLog, model, model.CurrentStep()
      ensures model.Valid()
      ensures model.currentSequence == null ==> model.state in {TutorialState.Completed, Cancelled}
      ensures || (model.currentSequence == old(model.currentSequence) && model.currentStepIndex == old(model.currentStepIndex))
              || (model.currentSequence == null && cancelRequested)
      ensures old(cancelRequested) ==> cancelRequested
      ensures cancelRequested && !old(cancelRequested) ==> model.currentSequence == null
      ensures model.completedSequences == old(model.completedSequences)
      ensures model.completedSteps == old(model.completedSteps)
      ensures forall id :: Completions(model.events, id) == Completions(old(model.events), id)
      ensures !cancelRequested ==> viewLog == old(viewLog) && events == old(events)
      ensures a == NoAction ==> unchanged(this) && unchanged(model)
      ensures a == NoAction && model.CurrentStep() != null ==> unchanged(model.CurrentStep())
    {
      if a == PauseCall {
        Pause();
        CompletionsKept(old(model.events), if old(model.state) == Running then [StateChanged(Paused)] else []);
      } else if a == ResumeCall {
        Resume();
        CompletionsKept(old(model.events), if old(model.state) == Paused then [StateChanged(Running)] else []);
      } else if a == SkipStepCall {
        SkipCurrentStep();
      } else if a == SkipAllCall {
        SkipAll();
        if old(model.currentSequence) != null && old(model.currentSequence.canSkipAll) {
          AppendAssoc(old(model.events), StateEvents(old(model.state), Cancelled), [StateChanged(TutorialState.Completed)]);
          CompletionsKept(old(model.events), StateEvents(old(model.state), Cancelled) + [StateChanged(TutorialState.Completed)]);
        }
      } else if a == CancelCall {
        Cancel();
        CompletionsKept(old(model.events), StateEvents(old(model.state), Cancelled));
      }
    }

    /**
     * The model still stands at step `index` of `sequence`, or a
     * cancellation has cleared it.
     */
    predicate AtStep(sequence: TutorialSequence, index: int)
      reads this, model, model.currentSequence
    {
      && model.Valid()
      && (model.currentSequence == null <==> cancelRequested)
      && (model.currentSequence == null ==> model.state in {TutorialState.Completed, Cancelled})
      && (model.currentSequence != null ==> model.currentSequence == sequence && model.currentStepIndex == index)
    }

    /** The awaits before a step's view: the delay before it and the wait while paused. */
    method BeforeStep(sequence: TutorialSequence, step: TutorialStep, index: int, host: Host) returns (outcome: StepOutcome)
      requires 0 <= index < |sequence.steps| && sequence.steps[index] == step
      requires model.currentSequence == sequence && model.currentStepIndex == index
      requires model.Valid() && !cancelRequested
      modifies this`cancelRequested, this`events, this`viewLog, model, step
      ensures AtStep(sequence, index)
      ensures outcome != StepStuck ==> model.state != Paused
      ensures outcome == StepThrew <==> cancelRequested
      ensures outcome == StepStuck ==> model.state == Paused && model.currentSequence == sequence
      ensures model.completedSequences == old(model.completedSequences)
      ensures model.completedSteps == old(model.completedSteps)
      ensures Completions(model.events, sequence.id) == Completions(old(model.events), sequence.id)
      ensures !cancelRequested ==> viewLog == old(viewLog) && events == old(events)
      ensures Quiet(host) && old(model.state) == Running ==>
                outcome == StepDone && unchanged(this) && unchanged(model) && unchanged(step)
    {
      if step.delayBefore > 0.0 {
        Act(host(index, DelayBefore));
        if cancelRequested {
          return StepThrew;
        }
      }
      if model.IsPaused() {
        Act(host(index, PauseWait));
        if cancelRequested {
          return StepThrew;
        }
        if model.IsPaused() {
          return StepStuck;
        }
      }
      return StepDone;
    }

    /**
     * The step itself: the view plays its script and, once the awaited
     * input arrives, the step completes; the model then records it and the
     * view shows the new progress.
     */
    method PerformStep(sequence: TutorialSequence, step: TutorialStep, index: int, host: Host)
      requires 0 <= index < |sequence.steps| && sequence.steps[index] == step
      requires model.currentSequence == sequence && model.currentStepIndex == index
      requires model.Valid() && model.state != Paused && !cancelRequested
      modifies this`cancelRequested, this`events, this`viewLog, model, step
      ensures AtStep(sequence, index)
      ensures model.completedSequences == old(model.completedSequences)
      ensures model.completedSteps <= old(model.completedSteps) + {step.id}
      ensures Completions(model.events, sequence.id) == Completions(old(model.events), sequence.id)
      ensures hasView ==> step.state == TutorialStepState.Completed
      ensures !cancelRequested ==>
                && events == old(events)
                && model.completedSteps == old(model.completedSteps) + {step.id}
                && viewLog == old(viewLog) + (if hasView then step.Script() + [SetProgress((index + 1) as real / |sequence.steps| as real)] else [])
      ensures Quiet(host) && old(model.state) == Running ==>
                && model.state == Running && model.events == old(model.events) && !cancelRequested
                && step.state == (if hasView then TutorialStepState.Completed else old(step.state))
    {
      if hasView {
        viewLog := viewLog + step.Script();
        if step.Waits() {
          Act(host(index, StepWait));
        }
        step.Complete();
      }
      model.CompleteCurrentStep();
      if hasView {
        viewLog := viewLog + [SetProgress(model.Progress())];
      }
    }

    /** The delay after a step, then the view's cleanup of highlight and pointer. */
    method AfterStep(sequence: TutorialSequence, step: TutorialStep, index: int, host: Host) returns (outcome: StepOutcome)
      requires AtStep(sequence, index)
      modifies this`cancelRequested, this`events, this`viewLog, model, model.CurrentStep()
      ensures AtStep(sequence, index)
      ensures outcome != StepStuck
      ensures outcome == StepThrew ==> cancelRequested
      ensures old(cancelRequested) ==> cancelRequested
      ensures model.completedSequences == old(model.completedSequences)
      ensures model.completedSteps == old(model.completedSteps)
      ensures Completions(model.events, sequence.id) == Completions(old(model.events), sequence.id)
      ensures !cancelRequested ==>
                && outcome == StepDone && events == old(events)
                && viewLog == old(viewLog) + (if hasView then [ClearHighlight, HidePointer] else [])
      ensures Quiet(host) && !old(cancelRequested) ==> unchanged(model) && !cancelRequested
      ensures Quiet(host) && model.CurrentStep() != null ==> unchanged(model.CurrentStep())
    {
      if step.delayAfter > 0.0 {
        if !cancelRequested {
          Act(host(index, DelayAfter));
        }
        if cancelRequested {
          return StepThrew;
        }
      }
      if hasView {
        viewLog := viewLog + [ClearHighlight, HidePointer];
      }
      return StepDone;
    }

    /**
     * One step of a run: it becomes active, then runs. A cancellation
     * observed at an await abandons it (its cleanup does nothing); a pause
     * nobody ends parks it.
     */
    method RunStep(sequence: TutorialSequence, step: TutorialStep, index: int, host: Host) returns (outcome: StepOutcome)
      requires 0 <= index < |sequence.steps| && sequence.steps[index] == step
      requires model.currentSequence == sequence && model.currentStepIndex == index
      requires model.Valid() && !cancelRequested
      modifies this`cancelRequested, this`events, this`viewLog, model, step
      ensures AtStep(sequence, index)
      ensures model.completedSequences == old(model.completedSequences)
      ensures model.completedSteps <= old(model.completedSteps) + {step.id}
      ensures Completions(model.events, sequence.id) == Completions(old(model.events), sequence.id)
      ensures outcome == StepThrew ==> cancelRequested
      ensures outcome == StepStuck ==>
                && model.state == Paused && model.currentSequence == sequence && !cancelRequested
                && model.completedSteps == old(model.completedSteps) && viewLog == old(viewLog) && events == old(events)
      ensures outcome == StepDone && !cancelRequested ==>
                && model.currentSequence == sequence && model.currentStepIndex == index
                && events == old(events)
                && model.completedSteps == old(model.completedSteps) + {step.id}
                && viewLog == old(viewLog) + (if hasView then StepCalls(step, index, |sequence.steps|) else [])
      ensures Quiet(host) && old(model.state) == Running ==>
                && outcome == StepDone && !cancelRequested
                && model.state == Running && model.events == old(model.events)
                && step.state == (if hasView then TutorialStepState.Completed else Active)
    {
      step.state := Active;
      outcome := BeforeStep(sequence, step, index, host);
      if outcome != StepDone {
        return;
      }
      PerformStep(sequence, step, index, host);
      outcome := AfterStep(sequence, step, index, host);
    }

    /**
     * One turn of the run loop: the current step runs and, unless it was
     * abandoned or parked, the model moves to the next step.
     */
    method Advance(sequence: TutorialSequence, host: Host) returns (result: StepOutcome, more: bool)
      requires model.Valid() && !cancelRequested
      requires model.currentSequence == sequence && 0 <= model.currentStepIndex
      modifies this`cancelRequested, this`events, this`viewLog, model, model.CurrentStep()
      ensures model.Valid()
      ensures model.currentSequence == null || model.currentSequence == sequence
      ensures model.currentSequence == null ==> model.state in {TutorialState.Completed, Cancelled}
      ensures cancelRequested ==> model.currentSequence == null
      ensures result == StepStuck ==> !more && model.state == Paused && model.currentSequence == sequence
      ensures result == StepThrew ==> !more && cancelRequested
      ensures result == StepDone ==> (more <==> model.currentSequence != null)
      ensures more ==> model.currentSequence == sequence && model.currentStepIndex == old(model.currentStepIndex) + 1
      ensures var recorded := result == StepDone && !more && !cancelRequested;
              && (recorded ==> model.state == TutorialState.Completed)
              && model.completedSequences == old(model.completedSequences) + (if recorded then {sequence.id} else {})
              && Completions(model.events, sequence.id) == Completions(old(model.events), sequence.id) + (if recorded then 1 else 0)
      ensures result == StepStuck ==>
                && !cancelRequested && model.currentStepIndex == old(model.currentStepIndex)
                && model.completedSteps == old(model.completedSteps) && viewLog == old(viewLog) && events == old(events)
      ensures result == StepDone && !cancelRequested ==>
                var i := old(model.currentStepIndex);
                && events == old(events)
                && StepLogs(sequence.steps, i, hasView, old(Logs()), Logs())
                && (more <==> i + 1 < |sequence.steps|)
      ensures Quiet(host) && old(model.state) == Running ==>
                var i := old(model.currentStepIndex);
                && result == StepDone && !cancelRequested
                && Moved(sequence.steps, i, sequence.id, old(model.events), model.events)
                && (more ==> model.state == Running)
    {
      var step := model.CurrentStep();
      var index := model.currentStepIndex;
      ghost var quiet := Quiet(host) && model.state == Running;
      result := RunStep(sequence, step, index, host);
      if result != StepDone {
        return result, false;
      }
      if quiet {
        assert model.currentSequence == sequence && model.currentStepIndex == index && model.state == Running;
      }
      more := model.NextStep();
    }

    /**
     * What holds between two turns of a run of `sequence` that began in
     * the situation `r`; `more` says whether a step is left to run.
     */
    ghost predicate Between(sequence: TutorialSequence, r: RunStart, more: bool)
      reads this, model, sequence
    {
      && (model.currentSequence == null || model.currentSequence == sequence)
      && model.Valid()
      && (model.currentSequence == null ==> model.state in {TutorialState.Completed, Cancelled})
      && (more <==> model.currentSequence != null)
      && (more ==> 0 <= model.currentStepIndex)
      && (cancelRequested ==> model.currentSequence == null)
      && (var recorded := r.started && !more && !cancelRequested;
          && (recorded ==> model.state == TutorialState.Completed)
          && model.completedSequences == r.completed + (if recorded then {sequence.id} else {})
          && Completions(model.events, sequence.id) == r.count + (if recorded then 1 else 0))
      && (!r.started ==>
            && !more && !cancelRequested && model.state == r.state
            && Logs() == r.logs && events == r.events)
      && (!cancelRequested ==> events == r.events)
      && (r.started && !cancelRequested && more ==>
            Ran(sequence.steps, r.lo, model.currentStepIndex, hasView, r.logs, Logs()))
      && (r.started && !cancelRequested && !more ==> Ran(sequence.steps, r.lo, |sequence.steps|, hasView, r.logs, Logs()))
      && (r.quiet ==> r.started && !cancelRequested)
      && (r.quiet && more ==>
            && model.state == Running
            && ChangedUpTo(sequence.steps, r.lo, model.currentStepIndex, r.logs.events, model.events))
      && (r.quiet && !more ==> ChangedAll(sequence.steps, r.lo, sequence.id, r.logs.events, model.events))
    }

    /**
     * One turn of the run loop that nobody cancelled beforehand: what
     * holds between turns holds after it, unless the step was parked.
     */
    method Turn(sequence: TutorialSequence, host: Host, ghost r: RunStart) returns (result: StepOutcome, more: bool)
      requires model.Valid() && model.currentSequence == sequence && 0 <= model.currentStepIndex
      requires r.started && !cancelRequested
      requires model.completedSequences == r.completed && Completions(model.events, sequence.id) == r.count
      requires events == r.events && Ran(sequence.steps, r.lo, model.currentStepIndex, hasView, r.logs, Logs())
      requires r.quiet ==>
                 && Quiet(host) && model.state == Running
                 && ChangedUpTo(sequence.steps, r.lo, model.currentStepIndex, r.logs.events, model.events)
      modifies this`cancelRequested, this`events, this`viewLog, model, sequence.steps
      ensures model.Valid()
      ensures result != StepStuck ==> Between(sequence, r, more)
      ensures result == StepStuck ==>
                && model.state == Paused && model.currentSequence == sequence
                && model.completedSequences == r.completed
                && Completions(model.events, sequence.id) == r.count
                && !cancelRequested && events == r.events && model.currentStepIndex == old(model.currentStepIndex)
                && Ran(sequence.steps, r.lo, model.currentStepIndex, hasView, r.logs, Logs())
      ensures result == StepThrew ==> !more
      ensures more ==> result == StepDone && model.currentStepIndex == old(model.currentStepIndex) + 1
      ensures r.quiet ==> result == StepDone
    {
      ghost var i, before := model.currentStepIndex, Logs();
      result, more := Advance(sequence, host);
      if result == StepDone && !cancelRequested {
        TraceDone(sequence.steps, r.lo, i, hasView, r.logs, before, Logs());
        if more {
          assert model.currentStepIndex == i + 1;
        } else {
          assert i + 1 == |sequence.steps|;
        }
        if r.quiet {
          TraceNext(sequence.steps, r.lo, i, sequence.id, r.logs.events, before.events, model.events);
        }
      } else if result == StepThrew {
        assert !more && cancelRequested;
      }
    }

    /** The run loop's first move to the next step, from the situation `r` it records. */
    method Begin(sequence: TutorialSequence, ghost r: RunStart) returns (more: bool)
      requires model.Valid() && !cancelRequested
      requires model.currentSequence == null || model.currentSequence == sequence
      requires model.currentSequence == null ==> model.state in {TutorialState.Completed, Cancelled}
      requires r.started <==> model.currentSequence != null
      requires r.lo == if r.started then model.currentStepIndex + 1 else 0
      requires r.quiet ==> r.started && model.state == Running
      requires r.logs == Logs() && r.events == events && r.state == model.state
      requires r.completed == model.completedSequences && r.count == Completions(model.events, sequence.id)
      modifies model
      ensures Between(sequence, r, more)
    {
      more := model.NextStep();
      if !r.started {
        assert Logs() == r.logs && model.state == r.state;
      } else {
        assert more ==> model.currentStepIndex == r.lo;
        assert !more ==> r.lo == |sequence.steps|;
        RanNone(sequence.steps, r.lo, hasView, r.logs, Logs());
        if r.quiet {
          TraceStart(sequence.steps, r.lo, sequence.id, r.logs.events, model.events);
        }
      }
    }

    /**
     * The run loop: steps run one after another until the model runs out
     * of steps, a cancellation abandons one, or a pause parks one.
     */
    method RunSteps(sequence: TutorialSequence, host: Host) returns (outcome: RunOutcome)
      requires model.Valid() && !cancelRequested
      requires model.currentSequence == null || model.currentSequence == sequence
      requires model.currentSequence == null ==> model.state in {TutorialState.Completed, Cancelled}
      modifies this`cancelRequested, this`events, this`viewLog, model, sequence.steps
      ensures model.Valid()
      ensures outcome == Suspended ==> model.state == Paused && model.currentSequence == sequence
      ensures outcome == Finished ==> model.currentSequence == null && model.state in {TutorialState.Completed, Cancelled}
      ensures var recorded := old(model.currentSequence) != null && outcome == Finished && !cancelRequested;
              && (recorded ==> model.state == TutorialState.Completed)
              && model.completedSequences == old(model.completedSequences) + (if recorded then {sequence.id} else {})
              && Completions(model.events, sequence.id) == Completions(old(model.events), sequence.id) + (if recorded then 1 else 0)
      ensures old(model.currentSequence) == null ==>
                && outcome == Finished && !cancelRequested && model.state == old(model.state)
                && Logs() == old(Logs()) && events == old(events)
      ensures outcome == Suspended ==>
                && events == old(events) && 0 <= model.currentStepIndex
                && Ran(sequence.steps, old(model.currentStepIndex) + 1, model.currentStepIndex, hasView, old(Logs()), Logs())
      ensures old(model.currentSequence) != null && outcome == Finished && !cancelRequested ==>
                && events == old(events)
                && Ran(sequence.steps, old(model.currentStepIndex) + 1, |sequence.steps|, hasView, old(Logs()), Logs())
      ensures Quiet(host) && old(model.currentSequence) != null && old(model.state) == Running ==>
                && outcome == Finished && !cancelRequested
                && ChangedAll(sequence.steps, old(model.currentStepIndex) + 1, sequence.id, old(model.events), model.events)
    {
      ghost var started := model.currentSequence != null;
      ghost var r := RunStart(
        Quiet(host) && started && model.state == Running, started,
        if started then model.currentStepIndex + 1 else 0,
        Logs(), model.completedSequences, Completions(model.events, sequence.id), events, model.state);
      var more := Begin(sequence, r);
      while more
        invariant Between(sequence, r, more)
        invariant sequence.steps == old(sequence.steps)
        invariant more ==> 0 <= model.currentStepIndex < |sequence.steps|
        decreases if more then |sequence.steps| - model.currentStepIndex else 0
      {
        if cancelRequested {
          break;
        }
        var result;
        result, more := Turn(sequence, host, r);
        if result == StepStuck {
          return Suspended;
        }
        if result == StepThrew {
          break;
        }
      }
      return Finished;
    }

    /**
     * Runs `sequence` from the step after the current one to the end. A
     * run nobody cancelled completes the sequence; a finished run hides
     * the view either way.
     */
    method ExecuteSteps(sequence: TutorialSequence, host: Host) returns (outcome: RunOutcome)
      requires model.Valid() && !cancelRequested
      requires model.currentSequence == null || model.currentSequence == sequence
      requires model.currentSequence == null ==> model.state in {TutorialState.Completed, Cancelled}
      modifies this`cancelRequested, this`events, this`viewLog, model, sequence.steps
      ensures model.Valid()
      ensures outcome == Suspended ==> model.state == Paused && model.currentSequence == sequence
      ensures outcome == Finished ==> model.currentSequence == null && model.state in {TutorialState.Completed, Cancelled}
      ensures outcome == Finished && hasView ==> |viewLog| > 0 && viewLog[|viewLog| - 1] == Hide
      ensures outcome == Finished && !cancelRequested ==> model.state == TutorialState.Completed
      ensures var recorded := old(model.currentSequence) != null && outcome == Finished && !cancelRequested;
              && model.completedSequences == old(model.completedSequences) + (if recorded then {sequence.id} else {})
              && Completions(model.events, sequence.id) == Completions(old(model.events), sequence.id) + (if recorded then 1 else 0)
      ensures old(model.currentSequence) == null ==>
                && outcome == Finished && !cancelRequested
                && model.completedSteps == old(model.completedSteps)
                && model.events == old(model.events) + StateEvents(old(model.state), TutorialState.Completed)
                && events == old(events) && viewLog == old(viewLog) + (if hasView then [Hide] else [])
      ensures outcome == Suspended ==>
                && events == old(events) && 0 <= model.currentStepIndex
                && Ran(sequence.steps, old(model.currentStepIndex) + 1, model.currentStepIndex, hasView, old(Logs()), Logs())
      ensures old(model.currentSequence) != null && outcome == Finished && !cancelRequested ==>
                var n := |sequence.steps|;
                var lo := old(model.currentStepIndex) + 1;
                && events == old(events)
                && model.completedSteps == old(model.completedSteps) + StepIds(sequence.steps, lo, n)
                && viewLog == old(viewLog) + (if hasView then RunCalls(sequence.steps, lo, n) + [Hide] else [])
      ensures Quiet(host) && old(model.currentSequence) != null && old(model.state) == Running ==>
                && outcome == Finished && !cancelRequested
                && model.events == old(model.events) + StepChanges(sequence.steps, old(model.currentStepIndex) + 1, |sequence.steps|)
                                   + [SequenceCompleted(sequence.id), StateChanged(TutorialState.Completed)]
    {
      ghost var started := model.currentSequence != null;
      outcome := RunSteps(sequence, host);
      if outcome == Suspended {
        return;
      }
      FinishRun(sequence);
      if started && !cancelRequested && hasView {
        AppendAssoc(old(viewLog), RunCalls(sequence.steps, old(model.currentStepIndex) + 1, |sequence.steps|), [Hide]);
      }
    }

    /** The end of a run: completes the sequence unless cancelled, then hides the view. */
    method FinishRun(sequence: TutorialSequence)
      requires model.Valid() && model.currentSequence == null
      requires model.state in {TutorialState.Completed, Cancelled}
      modifies this`viewLog, model
      ensures model.Valid() && model.currentSequence == null
      ensures model.state == if cancelRequested then old(model.state) else TutorialState.Completed
      ensures model.completedSequences == old(model.completedSequences)
      ensures model.completedSteps == old(model.completedSteps)
      ensures Completions(model.events, sequence.id) == Completions(old(model.events), sequence.id)
      ensures model.events == old(model.events) + (if cancelRequested then [] else StateEvents(old(model.state), TutorialState.Completed))
      ensures viewLog == old(viewLog) + (if hasView then [Hide] else [])
    {
      if !cancelRequested {
        model.CompleteCurrentSequence();
        assert model.events == old(model.events) + StateEvents(old(model.state), TutorialState.Completed);
        CompletionsKept(old(model.events), StateEvents(old(model.state), TutorialState.Completed));
      }
      if hasView {
        viewLog := viewLog + [Hide];
      }
    }

    /**
     * The fast-forward of a start at step `startStep`: the model moves to
     * the next step `startStep` times, and moving past the last step
     * completes the sequence.
     */
    method FastForward(sequence: TutorialSequence, startStep: int)
      requires model.Valid() && model.currentSequence == sequence && model.currentStepIndex == -1
      requires model.state == Running
      modifies model
      ensures model.Valid()
      ensures model.completedSteps == old(model.completedSteps)
      ensures startStep <= |sequence.steps| ==>
                var s := if startStep < 0 then 0 else startStep;
                && model.currentSequence == sequence && model.currentStepIndex == s - 1
                && model.state == Running
                && model.completedSequences == old(model.completedSequences)
                && model.events == old(model.events) + StepChanges(sequence.steps, 0, s)
      ensures startStep > |sequence.steps| ==>
                && model.currentSequence == null && model.state == TutorialState.Completed
                && model.completedSequences == old(model.completedSequences) + {sequence.id}
                && model.events == old(model.events) + StepChanges(sequence.steps, 0, |sequence.steps|)
                                   + [SequenceCompleted(sequence.id), StateChanged(TutorialState.Completed)]
    {
      var n := |sequence.steps|;
      var i := 0;
      while i < startStep
        invariant 0 <= i <= (if startStep < 0 then 0 else startStep)
        invariant model.Valid() && model.completedSteps == old(model.completedSteps)
        invariant i <= n ==>
                    && model.currentSequence == sequence && model.currentStepIndex == i - 1
                    && model.state == Running
                    && model.completedSequences == old(model.completedSequences)
                    && model.events == old(model.events) + StepChanges(sequence.steps, 0, i)
        invariant i > n ==>
                    && model.currentSequence == null && model.state == TutorialState.Completed
                    && model.completedSequences == old(model.completedSequences) + {sequence.id}
                    && model.events == old(model.events) + StepChanges(sequence.steps, 0, n)
                                       + [SequenceCompleted(sequence.id), StateChanged(TutorialState.Completed)]
        decreases startStep - i
      {
        var _ := model.NextStep();
        i := i + 1;
      }
    }

    /**
     * Starts `sequence` at step `startStep`. Nothing happens for a null
     * sequence, while a tutorial runs, or for a sequence already completed;
     * otherwise the run is launched.
     */
    method StartTutorial(sequence: TutorialSequence?, startStep: int, host: Host) returns (started: bool, outcome: RunOutcome)
      requires model.Valid()
      modifies this`cancelRequested, this`events, this`viewLog, model, if sequence == null then [] else sequence.steps
      ensures model.Valid()
      ensures started <==> sequence != null && old(model.state) != Running && sequence.id !in old(model.completedSequences)
      ensures !started ==> outcome == Finished && unchanged(this, model)
      ensures started ==> Launched(sequence, startStep, host, outcome, old(model.completedSequences), old(events), old(Logs()))
      ensures started && Quiet(host) ==> LaunchedQuietly(sequence, old(model.events), model.events)
    {
      if sequence == null || model.IsRunning() || model.IsSequenceCompleted(sequence.id) {
        return false, Finished;
      }
      started := true;
      outcome := Launch(sequence, startStep, host);
    }

    /**
     * How a launched run of `sequence` ended: parked in a pause, or
     * finished with the view hidden and, unless cancelled, the sequence
     * completed and recorded.
     */
    ghost predicate Launched(sequence: TutorialSequence, startStep: int, host: Host, outcome: RunOutcome,
                             completedBefore: set<Option<string>>, eventsBefore: seq<ControllerEvent>, start: RunLogs)
      reads this, model, sequence
    {
      && (outcome == Suspended ==> model.state == Paused && model.currentSequence == sequence)
      && (outcome == Finished ==> model.currentSequence == null && model.state in {TutorialState.Completed, Cancelled})
      && (outcome == Finished && hasView ==> |viewLog| > 0 && viewLog[|viewLog| - 1] == Hide)
      && (outcome == Finished && !cancelRequested ==> model.state == TutorialState.Completed)
      && model.completedSequences == completedBefore + (if outcome == Finished && !cancelRequested then {sequence.id} else {})
      && (outcome == Finished && !cancelRequested ==>
            && events == eventsBefore + [TutorialStarted(sequence)]
            && LaunchedCalls(sequence, startStep, start, Logs()))
      && (Quiet(host) ==> outcome == Finished && !cancelRequested)
    }

    /**
     * The completed ids and view calls of a launch from step `startStep`
     * that finished uncancelled, whatever else the host did: the ids of the
     * steps from the start step on; with a view, its showing, every such
     * step's calls and its hiding.
     */
    ghost predicate LaunchedCalls(sequence: TutorialSequence, startStep: int, start: RunLogs, now: RunLogs)
      reads this, sequence
    {
      var n := |sequence.steps|;
      var s := if startStep < 0 then 0 else if startStep > n then n else startStep;
      && now.completed == start.completed + StepIds(sequence.steps, s, n)
      && now.calls == start.calls + (if hasView then [Show, SetProgress(0.0)] + RunCalls(sequence.steps, s, n) + [Hide] else [])
    }

    /**
     * The model events of a launch that nothing interrupted: the start,
     * every step change in order and the sequence's completion.
     */
    ghost predicate LaunchedQuietly(sequence: TutorialSequence, before: seq<ModelEvent>, after: seq<ModelEvent>)
      reads sequence
    {
      after == before + [StateChanged(Running)] + StepChanges(sequence.steps, 0, |sequence.steps|)
               + [SequenceCompleted(sequence.id), StateChanged(TutorialState.Completed)]
    }

    /**
     * A run of `sequence` from its start: the view shows at progress zero,
     * the model skips ahead `startStep` steps and the run executes from
     * there.
     */
    method Launch(sequence: TutorialSequence, startStep: int, host: Host) returns (outcome: RunOutcome)
      requires model.Valid() && model.state != Running && sequence.id !in model.completedSequences
      modifies this`cancelRequested, this`events, this`viewLog, model, sequence.steps
      ensures model.Valid()
      ensures Launched(sequence, startStep, host, outcome, old(model.completedSequences), old(events), old(Logs()))
      ensures Quiet(host) ==> LaunchedQuietly(sequence, old(model.events), model.events)
    {
      Prepare(sequence, startStep);
      ghost var skipped, completed := Logs(), model.completedSequences;
      outcome := ExecuteSteps(sequence, host);
      if startStep <= |sequence.steps| {
        assert completed == old(model.completedSequences);
      } else {
        assert completed == old(model.completedSequences) + {sequence.id};
      }
      if outcome == Finished && !cancelRequested {
        LaunchCalls(sequence.steps, startStep, hasView, old(Logs()), skipped, Logs());
      }
      if Quiet(host) {
        LaunchEvents(sequence.steps, sequence.id, startStep, old(model.events), skipped.events, model.events);
      }
    }

    /**
     * The start of a run of `sequence` before its first awaited step: a
     * fresh cancellation state, the model on the sequence, the started
     * event, the view shown at progress zero, and the fast-forward.
     */
    method Prepare(sequence: TutorialSequence, startStep: int)
      requires model.Valid() && model.state != Running
      modifies this`cancelRequested, this`events, this`viewLog, model
      ensures model.Valid() && !cancelRequested
      ensures events == old(events) + [TutorialStarted(sequence)]
      ensures viewLog == old(viewLog) + (if hasView then [Show, SetProgress(0.0)] else [])
      ensures model.completedSteps == old(model.completedSteps)
      ensures startStep <= |sequence.steps| ==>
                var s := if startStep < 0 then 0 else startStep;
                && model.currentSequence == sequence && model.currentStepIndex == s - 1
                && model.state == Running
                && model.completedSequences == old(model.completedSequences)
                && model.events == old(model.events) + [StateChanged(Running)] + StepChanges(sequence.steps, 0, s)
      ensures startStep > |sequence.steps| ==>
                && model.currentSequence == null && model.state == TutorialState.Completed
                && model.completedSequences == old(model.completedSequences) + {sequence.id}
                && model.events == old(model.events) + [StateChanged(Running)] + StepChanges(sequence.steps, 0, |sequence.steps|)
                                   + [SequenceCompleted(sequence.id), StateChanged(TutorialState.Completed)]
    {
      cancelRequested := false;
      model.StartSequence(sequence);
      events := events + [TutorialStarted(sequence)];
      if hasView {
        viewLog := viewLog + [Show, SetProgress(0.0)];
      }
      FastForward(sequence, startStep);
    }

    /**
     * Starts the sequence registered under `sequenceId` at step
     * `startStep`; an unknown id does nothing and a null id is refused by
     * the dictionary (`threw`).
     */
    method StartTutorialById(sequenceId: Option<string>, startStep: int, host: Host)
      returns (threw: bool, started: bool, outcome: RunOutcome)
      requires model.Valid()
      modifies this`cancelRequested, this`events, this`viewLog, model
      modifies if sequenceId.Some? && sequenceId.value in registered then registered[sequenceId.value].steps else []
      ensures model.Valid()
      ensures threw <==> sequenceId.None?
      ensures started <==>
                && sequenceId.Some? && sequenceId.value in registered
                && old(model.state) != Running && registered[sequenceId.value].id !in old(model.completedSequences)
      ensures !started ==> outcome == Finished && unchanged(this, model)
      ensures started ==>
                Launched(registered[sequenceId.value], startStep, host, outcome, old(model.completedSequences), old(events), old(Logs()))
      ensures started && Quiet(host) ==> LaunchedQuietly(registered[sequenceId.value], old(model.events), model.events)
    {
      if sequenceId.None? {
        return true, false, Finished;
      }
      threw := false;
      if sequenceId.value in registered {
        started, outcome := StartTutorial(registered[sequenceId.value], startStep, host);
      } else {
        started, outcome := false, Finished;
      }
    }
  }
}
