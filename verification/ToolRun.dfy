/** Direct execution of a mutating tool: start, effect and completion around a durable run record, with a crash
    or a power loss possible between any two steps. */
module ToolRun {

  datatype Lifecycle = New | Running | Success | Failure | Recovered
  datatype Tool = Unrecorded | Started | Completed | Failed | Abandoned

  /** The run record, as far as a direct tool execution goes. */
  datatype Record = Record(lifecycle: Lifecycle, tool: Tool)

  predicate Terminal(r: Record) {
    r.lifecycle == Success || r.lifecycle == Failure || r.lifecycle == Recovered
  }

  /** A record that may have had an effect nobody has accounted for. */
  predicate Unresolved(r: Record) {
    r.tool == Started
  }

  /** How the tool ended: with a result, with an ordinary exception, or by leaving the process with some code. */
  datatype Outcome = Pending | Returned | Raised | Quit(code: int)

  /** Where the command is. A durable write has two steps: the replace makes the new record visible, the sync
      makes it durable. */
  datatype Control =
    | Owned
    | StartReplaced
    | Ready
    | Executing
    | Finished
    | CompleteReplaced
    | Recorded
    | Printed
    | ToolFailed(code: int)
    | FailReplaced(code: int)
    | Leaving(code: int)
    | LeaveReplaced(code: int)
    | Exited(code: int)
    | Crashed

  /** One run: its record as visible on disk, as known durable, and as the command believes it to be. */
  datatype Run = Run(visible: Record, durable: Record, memory: Record, control: Control,
                     begun: bool, outcome: Outcome, printed: bool)

  const FRESH := Run(Record(New, Unrecorded), Record(New, Unrecorded), Record(New, Unrecorded), Owned,
                     false, Pending, false)

  predicate Over(r: Run) {
    r.control.Exited? || r.control.Crashed?
  }

  function Replace(r: Run, record: Record, next: Control): Run {
    r.(visible := record, control := next)
  }

  /** The directory sync succeeded. */
  function Sync(r: Run, next: Control): Run {
    r.(durable := r.visible, memory := r.visible, control := next)
  }

  /** The directory sync failed: the record is visible, but not known to be durable. */
  function SyncFailed(r: Run, next: Control): Run {
    r.(memory := r.visible, control := next)
  }

  // ---------------------------------------------------------------- Steps of the command

  /** "started" is made durable before the effect; otherwise the tool is not run. */
  ghost predicate StartStep(r: Run, r': Run) {
    || (r.control == Owned
        && (r' == Replace(r, Record(Running, Started), StartReplaced) || r' == r.(control := Leaving(1))))
    || (r.control == StartReplaced && (r' == Sync(r, Ready) || r' == SyncFailed(r, Leaving(1))))
    || (r.control == Ready && r' == r.(begun := true, control := Executing))
  }

  /** The tool returns; raises, with one of three exit codes; or ends in something that is not an ordinary exception,
      an interrupt or an exit, and nothing between here and the end of the process catches that. */
  ghost predicate EffectStep(r: Run, r': Run) {
    && r.control == Executing
    && (|| r' == r.(outcome := Returned, control := Finished)
        || (exists code :: code in {1, 2, 4} && r' == r.(outcome := Raised, control := ToolFailed(code)))
        || (exists code :: r' == r.(outcome := Quit(code), control := Leaving(code))))
  }

  /** The process ends with `code`, or with 1 if shutting down raises. */
  ghost predicate Ends(r: Run, r': Run, code: int) {
    r' == r.(control := Exited(code)) || r' == r.(control := Exited(1))
  }

  /** "completed" is made durable before anything is printed; otherwise nothing is reported as success. */
  ghost predicate CompleteStep(r: Run, r': Run) {
    || (r.control == Finished
        && (r' == Replace(r, Record(Success, Completed), CompleteReplaced) || r' == r.(control := Leaving(1))))
    || (r.control == CompleteReplaced && (r' == Sync(r, Recorded) || r' == SyncFailed(r, Leaving(1))))
    || (r.control == Recorded && (r' == r.(printed := true, control := Printed) || r' == r.(control := Leaving(1))))
    || (r.control == Printed && Ends(r, r', 0))
  }

  ghost predicate FailStep(r: Run, r': Run) {
    || (r.control.ToolFailed?
        && (r' == Replace(r, Record(Failure, Failed), FailReplaced(r.control.code)) || r' == r.(control := Leaving(1))))
    || (r.control.FailReplaced?
        && (r' == Sync(r, Leaving(r.control.code)) || r' == SyncFailed(r, Leaving(1))))
  }

  /** Leaving the run: a record that is not terminal becomes a failure, at best effort, and keeps what it says
      about the tool. */
  ghost predicate LeaveStep(r: Run, r': Run) {
    || (r.control.Leaving? && Terminal(r.memory) && Ends(r, r', r.control.code))
    || (r.control.Leaving? && !Terminal(r.memory)
        && (|| r' == Replace(r, Record(Failure, r.memory.tool), LeaveReplaced(r.control.code))
            || Ends(r, r', r.control.code)))
    || (r.control.LeaveReplaced?
        && (Ends(Sync(r, r.control), r', r.control.code) || Ends(SyncFailed(r, r.control), r', r.control.code)))
  }

  ghost predicate CommandStep(r: Run, r': Run) {
    StartStep(r, r') || EffectStep(r, r') || CompleteStep(r, r') || FailStep(r, r') || LeaveStep(r, r')
  }

  function Halted(r: Run): Run {
    if Over(r) then r else r.(control := Crashed)
  }

  /** The command is killed, or the machine loses power: what was visible then survives, or what was durable. */
  ghost predicate Disturbed(r: Run, r': Run) {
    || r' == Halted(r)
    || r' == Halted(r).(visible := r.durable)
    || r' == Halted(r).(durable := r.visible)
  }

  ghost predicate RunStep(r: Run, r': Run) {
    CommandStep(r, r') || Disturbed(r, r')
  }

  // ---------------------------------------------------------------- What every step keeps

  /** What the three copies of the record say at each place. */
  ghost predicate Consistent(r: Run) {
    var blank, started := Record(New, Unrecorded), Record(Running, Started);
    match r.control
    case Owned => r.visible == r.durable == r.memory == blank && !r.begun && r.outcome == Pending
    case StartReplaced =>
      r.visible == started && r.durable == r.memory == blank && !r.begun && r.outcome == Pending
    case Ready => r.visible == r.durable == r.memory == started && !r.begun && r.outcome == Pending
    case Executing => r.visible == r.durable == r.memory == started && r.begun && r.outcome == Pending
    case Finished => r.visible == r.durable == r.memory == started && r.begun && r.outcome == Returned
    case CompleteReplaced =>
      && r.visible == Record(Success, Completed) && r.durable == r.memory == started
      && r.begun && r.outcome == Returned
    case Recorded =>
      r.visible == r.durable == r.memory == Record(Success, Completed) && r.begun && r.outcome == Returned
    case Printed =>
      && r.visible == r.durable == r.memory == Record(Success, Completed)
      && r.begun && r.outcome == Returned && r.printed
    case ToolFailed(code) =>
      r.visible == r.durable == r.memory == started && r.begun && r.outcome == Raised && code in {1, 2, 4}
    case FailReplaced(code) =>
      && r.visible == Record(Failure, Failed) && r.durable == r.memory == started
      && r.begun && r.outcome == Raised && code in {1, 2, 4}
    case Leaving(code) =>
      r.visible == r.memory && (code == 0 ==> QuitWithZero(r)) && (r.outcome == Raised ==> code in {1, 2, 4})
    case LeaveReplaced(code) =>
      && r.visible.tool == r.memory.tool && r.visible.lifecycle == Failure && !Terminal(r.memory)
      && (code == 0 ==> QuitWithZero(r)) && (r.outcome == Raised ==> code in {1, 2, 4})
    case Exited(code) =>
      (code == 0 ==> r.printed || QuitWithZero(r)) && (r.outcome == Raised ==> code in {1, 2, 4})
    case Crashed => true
  }

  /** The tool ended by exiting with 0. */
  ghost predicate QuitWithZero(r: Run) {
    r.begun && r.outcome == Quit(0)
  }

  /** The safety of one run: an effect has left a durable trace, "completed" means that the tool returned, and
      what was printed is durably completed. */
  ghost predicate Safe(r: Run) {
    && (r.begun ==> r.durable.tool != Unrecorded && r.visible.tool != Unrecorded)
    && (r.outcome != Pending ==> r.begun)
    && (r.durable.tool == Completed || r.visible.tool == Completed ==> r.begun && r.outcome == Returned)
    && (r.durable.tool == Failed || r.visible.tool == Failed ==> r.begun && r.outcome == Raised)
    && (r.printed ==> r.durable.tool == Completed && r.visible.tool == Completed)
    && (r.printed ==> r.control in {Printed, Exited(0), Exited(1), Crashed})
  }

  /** A record says that the run succeeded exactly when it says that the tool completed; a tool that failed, or that was
      started in a run that is closed, belongs to a failed run. */
  ghost predicate Coherent(r: Record) {
    && (r.lifecycle == Success <==> r.tool == Completed)
    && (r.tool == Failed ==> r.lifecycle == Failure)
    && (r.tool == Started ==> r.lifecycle == Running || r.lifecycle == Failure)
  }

  ghost predicate Inv(r: Run) {
    Consistent(r) && Safe(r) && Coherent(r.visible) && Coherent(r.durable) && Coherent(r.memory)
  }

  lemma StartStepKeepsInv(r: Run, r': Run)
    requires Inv(r) && StartStep(r, r')
    ensures Inv(r')
  {}

  lemma EffectStepKeepsInv(r: Run, r': Run)
    requires Inv(r) && EffectStep(r, r')
    ensures Inv(r')
  {}

  lemma CompleteStepKeepsInv(r: Run, r': Run)
    requires Inv(r) && CompleteStep(r, r')
    ensures Inv(r')
  {}

  lemma FailStepKeepsInv(r: Run, r': Run)
    requires Inv(r) && FailStep(r, r')
    ensures Inv(r')
  {}

  lemma LeaveStepKeepsInv(r: Run, r': Run)
    requires Inv(r) && LeaveStep(r, r')
    ensures Inv(r')
  {}

  lemma DisturbanceKeepsInv(r: Run, r': Run)
    requires Inv(r) && Disturbed(r, r')
    ensures Inv(r')
  {}

  lemma RunStepKeepsInv(r: Run, r': Run)
    requires Inv(r) && RunStep(r, r')
    ensures Inv(r')
  {
    if StartStep(r, r') {
      StartStepKeepsInv(r, r');
    } else if EffectStep(r, r') {
      EffectStepKeepsInv(r, r');
    } else if CompleteStep(r, r') {
      CompleteStepKeepsInv(r, r');
    } else if FailStep(r, r') {
      FailStepKeepsInv(r, r');
    } else if LeaveStep(r, r') {
      LeaveStepKeepsInv(r, r');
    } else {
      DisturbanceKeepsInv(r, r');
    }
  }

  // ---------------------------------------------------------------- Every prefix of every run

  ghost predicate Behavior(b: seq<Run>) {
    && b != [] && b[0] == FRESH
    && forall i :: 0 <= i < |b| - 1 ==> RunStep(b[i], b[i + 1])
  }

  lemma {:induction false} BehaviorKeepsInv(b: seq<Run>, i: nat)
    requires Behavior(b) && i < |b|
    ensures Inv(b[i])
  {
    if i > 0 {
      BehaviorKeepsInv(b, i - 1);
      assert RunStep(b[i - 1], b[i - 1 + 1]);
      RunStepKeepsInv(b[i - 1], b[i]);
    }
  }

  predicate Unabandoned(r: Run) {
    r.durable.tool != Abandoned && r.visible.tool != Abandoned && r.memory.tool != Abandoned
  }

  lemma StepDoesNotAbandon(r: Run, r': Run)
    requires Unabandoned(r) && RunStep(r, r')
    ensures Unabandoned(r')
  {}

  /** A run alone is never abandoned; only the operator does that. */
  lemma {:induction false} NeverAbandoned(b: seq<Run>, i: nat)
    requires Behavior(b) && i < |b|
    ensures Unabandoned(b[i])
  {
    if i > 0 {
      NeverAbandoned(b, i - 1);
      assert RunStep(b[i - 1], b[i - 1 + 1]);
      StepDoesNotAbandon(b[i - 1], b[i]);
    }
  }

  /** Only the step from the ready state begins the effect, and there "started" is durable. */
  lemma OnlyReadyBegins(r: Run, r': Run)
    requires Inv(r) && RunStep(r, r') && !r.begun && r'.begun
    ensures r.control == Ready && r.durable.tool == Started && r'.control == Executing
  {}

  /** An effect is begun only after the record durably says "started". */
  lemma {:induction false} EffectIsPrecededByDurableStart(b: seq<Run>, i: nat) returns (j: nat)
    requires Behavior(b) && i < |b| && b[i].begun
    ensures j < i && !b[j].begun && b[j].durable.tool == Started && b[j + 1].control == Executing
  {
    BehaviorKeepsInv(b, i - 1);
    assert RunStep(b[i - 1], b[i - 1 + 1]);
    if b[i - 1].begun {
      j := EffectIsPrecededByDurableStart(b, i - 1);
    } else {
      OnlyReadyBegins(b[i - 1], b[i]);
      j := i - 1;
    }
  }

  /** A durable, or merely visible, "completed" means that the tool returned. */
  lemma CompletedMeansReturned(b: seq<Run>, i: nat)
    requires Behavior(b) && i < |b| && (b[i].durable.tool == Completed || b[i].visible.tool == Completed)
    ensures b[i].begun && b[i].outcome == Returned
  {
    BehaviorKeepsInv(b, i);
  }

  /** A printed result means that "completed" is durable. */
  lemma PrintedIsDurable(b: seq<Run>, i: nat)
    requires Behavior(b) && i < |b| && b[i].printed
    ensures b[i].durable.tool == Completed && b[i].begun && b[i].outcome == Returned
  {
    BehaviorKeepsInv(b, i);
  }

  /** Exit status 0 means that "completed" is durable, and the result printed, exactly when the tool did not itself end
      by exiting with 0; if it did, the record durably says "started". */
  lemma SuccessIsDurableIff(b: seq<Run>, i: nat)
    requires Behavior(b) && i < |b| && b[i].control == Exited(0)
    ensures b[i].begun && (b[i].durable.tool == Completed <==> b[i].outcome != Quit(0))
    ensures b[i].durable.tool == Completed ==> b[i].printed && b[i].outcome == Returned
    ensures b[i].durable.tool != Completed ==> !b[i].printed && b[i].durable.tool == Started
  {
    BehaviorKeepsInv(b, i);
    NeverAbandoned(b, i);
  }

  /** Such a run exists: exit status 0, nothing printed, and a record that says "started". */
  lemma ToolMayExitWithZero() returns (b: seq<Run>)
    ensures Behavior(b)
    ensures var r := b[|b| - 1];
      r.control == Exited(0) && !r.printed && r.begun && r.durable == r.visible == Record(Failure, Started)
  {
    b := ToolMayExit(0);
  }

  /** A tool may end the process itself, with any code: the command exits with it, and the record durably says
      "started". */
  lemma ToolMayExit(code: int) returns (b: seq<Run>)
    ensures Behavior(b)
    ensures var r := b[|b| - 1];
      r.control == Exited(code) && !r.printed && r.begun && r.durable == r.visible == Record(Failure, Started)
  {
    var r1 := Replace(FRESH, Record(Running, Started), StartReplaced);
    var r2 := Sync(r1, Ready);
    var r3 := r2.(begun := true, control := Executing);
    var r4 := r3.(outcome := Quit(code), control := Leaving(code));
    var r5 := Replace(r4, Record(Failure, Started), LeaveReplaced(code));
    var r6 := Sync(r5, Exited(code));
    b := [FRESH, r1, r2, r3, r4, r5, r6];
    assert StartStep(FRESH, r1) && StartStep(r1, r2) && StartStep(r2, r3) && EffectStep(r3, r4);
    assert Ends(Sync(r5, r5.control), r6, code);
    assert LeaveStep(r4, r5) && LeaveStep(r5, r6);
  }

  /** Power may be lost between the replace and the sync of "completed": whether the record then says "completed" or
      "started" is a matter of chance, but the tool has returned and nothing was printed. */
  lemma PowerLossDecides(kept: bool) returns (b: seq<Run>)
    ensures Behavior(b)
    ensures var r := b[|b| - 1];
      && r.control == Crashed && r.outcome == Returned && !r.printed
      && r.durable == r.visible == if kept then Record(Success, Completed) else Record(Running, Started)
  {
    var r1 := Replace(FRESH, Record(Running, Started), StartReplaced);
    var r2 := Sync(r1, Ready);
    var r3 := r2.(begun := true, control := Executing);
    var r4 := r3.(outcome := Returned, control := Finished);
    var r5 := Replace(r4, Record(Success, Completed), CompleteReplaced);
    var crashed := r5.(control := Crashed);
    var r6 := if kept then crashed.(durable := crashed.visible) else crashed.(visible := crashed.durable);
    b := [FRESH, r1, r2, r3, r4, r5, r6];
    assert StartStep(FRESH, r1) && StartStep(r1, r2) && StartStep(r2, r3) && EffectStep(r3, r4);
    assert CompleteStep(r4, r5) && Disturbed(r5, r6);
  }

  /** In every state what is durable and what is visible agree with themselves: success is completion. */
  lemma RecordsAreCoherent(b: seq<Run>, i: nat)
    requires Behavior(b) && i < |b|
    ensures Coherent(b[i].durable) && Coherent(b[i].visible)
  {
    BehaviorKeepsInv(b, i);
  }

  /** A command whose tool raised exits with 1, 2 or 4, and has printed nothing. */
  lemma RaisedToolFailsCommand(b: seq<Run>, i: nat)
    requires Behavior(b) && i < |b| && b[i].control.Exited? && b[i].outcome == Raised
    ensures b[i].control.code in {1, 2, 4} && !b[i].printed
  {
    BehaviorKeepsInv(b, i);
  }

  /** A command may go well: it exits with 0, has printed its result, and durably says so. */
  lemma ToolMaySucceed() returns (b: seq<Run>)
    ensures Behavior(b)
    ensures var r := b[|b| - 1];
      r.control == Exited(0) && r.printed && r.durable == r.visible == Record(Success, Completed)
  {
    var r1 := Replace(FRESH, Record(Running, Started), StartReplaced);
    var r2 := Sync(r1, Ready);
    var r3 := r2.(begun := true, control := Executing);
    var r4 := r3.(outcome := Returned, control := Finished);
    var r5 := Replace(r4, Record(Success, Completed), CompleteReplaced);
    var r6 := Sync(r5, Recorded);
    var r7 := r6.(printed := true, control := Printed);
    var r8 := r7.(control := Exited(0));
    b := [FRESH, r1, r2, r3, r4, r5, r6, r7, r8];
    assert StartStep(FRESH, r1) && StartStep(r1, r2) && StartStep(r2, r3) && EffectStep(r3, r4);
    assert CompleteStep(r4, r5) && CompleteStep(r5, r6) && CompleteStep(r6, r7);
    assert Ends(r7, r8, 0) && CompleteStep(r7, r8);
  }

  /** A tool may raise with each of the three codes: the command exits with it, and the record durably says so. */
  lemma ToolMayFail(code: int) returns (b: seq<Run>)
    requires code in {1, 2, 4}
    ensures Behavior(b)
    ensures var r := b[|b| - 1];
      r.control == Exited(code) && !r.printed && r.durable == r.visible == Record(Failure, Failed)
  {
    var r1 := Replace(FRESH, Record(Running, Started), StartReplaced);
    var r2 := Sync(r1, Ready);
    var r3 := r2.(begun := true, control := Executing);
    var r4 := r3.(outcome := Raised, control := ToolFailed(code));
    var r5 := Replace(r4, Record(Failure, Failed), FailReplaced(code));
    var r6 := Sync(r5, Leaving(code));
    var r7 := r6.(control := Exited(code));
    b := [FRESH, r1, r2, r3, r4, r5, r6, r7];
    assert StartStep(FRESH, r1) && StartStep(r1, r2) && StartStep(r2, r3) && EffectStep(r3, r4);
    assert FailStep(r4, r5) && FailStep(r5, r6);
    assert Ends(r6, r7, code) && LeaveStep(r6, r7);
  }

  /** Once the effect has begun the record never again claims that nothing was started. */
  lemma EffectLeavesATrace(b: seq<Run>, i: nat)
    requires Behavior(b) && i < |b| && b[i].begun
    ensures b[i].durable.tool != Unrecorded && b[i].visible.tool != Unrecorded
  {
    BehaviorKeepsInv(b, i);
  }

  // ---------------------------------------------------------------- A completion that could not be recorded

  /** Some state up to `i` had replaced the record by "completed". */
  ghost predicate HasReplaced(b: seq<Run>, i: nat)
    requires i < |b|
  {
    exists j :: 0 <= j <= i && b[j].control == CompleteReplaced
  }

  lemma ReplacedStep(r: Run, r': Run)
    requires Inv(r) && CommandStep(r, r')
    ensures r'.visible.tool == Completed <==> r.visible.tool == Completed || r'.control == CompleteReplaced
  {}

  lemma ReplacedUpTo(b: seq<Run>, i: nat)
    requires 0 < i < |b|
    ensures HasReplaced(b, i) <==> HasReplaced(b, i - 1) || b[i].control == CompleteReplaced
  {
    if HasReplaced(b, i - 1) {
      var j :| 0 <= j <= i - 1 && b[j].control == CompleteReplaced;
      assert 0 <= j <= i;
    }
  }

  /** A step of a command that goes on. */
  lemma StepBefore(b: seq<Run>, i: nat)
    requires Behavior(b) && 0 < i < |b| && !Over(b[i - 1]) && b[i].control != Crashed
    ensures Inv(b[i - 1]) && CommandStep(b[i - 1], b[i])
    ensures i > 1 ==> !Over(b[i - 2])
  {
    assert RunStep(b[i - 1], b[i - 1 + 1]);
    BehaviorKeepsInv(b, i - 1);
    NotOverBefore(b, i - 1);
  }

  /** Until a command is over, its visible record says "completed" exactly from the replace step on. */
  lemma {:induction false} CompletedFromTheReplaceOn(b: seq<Run>, i: nat)
    requires Behavior(b) && i < |b| && (i == 0 || !Over(b[i - 1])) && b[i].control != Crashed
    ensures b[i].visible.tool == Completed <==> HasReplaced(b, i)
  {
    if i > 0 {
      StepBefore(b, i);
      CompletedFromTheReplaceOn(b, i - 1);
      ReplacedStep(b[i - 1], b[i]);
      ReplacedUpTo(b, i);
    }
  }

  lemma NotOverBefore(b: seq<Run>, i: nat)
    requires Behavior(b) && i < |b| && !Over(b[i])
    ensures i == 0 || !Over(b[i - 1])
  {
    if i > 0 {
      assert RunStep(b[i - 1], b[i - 1 + 1]);
    }
  }

  /**
   * When a command whose tool returned exits with 1, its visible record still says "started" exactly when the durable
   * write of "completed" never got to its replace step; otherwise it already says "completed".
   */
  lemma StillStartedIff(b: seq<Run>, i: nat)
    requires Behavior(b) && 0 < i < |b| && !Over(b[i - 1]) && b[i].control == Exited(1) && b[i].outcome == Returned
    ensures b[i].visible.tool == Started <==> !HasReplaced(b, i)
    ensures b[i].visible.tool == Completed <==> HasReplaced(b, i)
  {
    BehaviorKeepsInv(b, i);
    NeverAbandoned(b, i);
    CompletedFromTheReplaceOn(b, i);
  }

  /** The sync of "completed" may fail after the replace: the command then exits with 1 while the visible record already
      says "completed" and the durable one "started". */
  lemma FailedSyncShowsCompleted() returns (b: seq<Run>)
    ensures Behavior(b)
    ensures var r := b[|b| - 1]; r.control == Exited(1) && r.visible.tool == Completed && r.durable.tool == Started
  {
    var r1 := Replace(FRESH, Record(Running, Started), StartReplaced);
    var r2 := Sync(r1, Ready);
    var r3 := r2.(begun := true, control := Executing);
    var r4 := r3.(outcome := Returned, control := Finished);
    var r5 := Replace(r4, Record(Success, Completed), CompleteReplaced);
    var r6 := SyncFailed(r5, Leaving(1));
    var r7 := r6.(control := Exited(1));
    b := [FRESH, r1, r2, r3, r4, r5, r6, r7];
    assert StartStep(FRESH, r1) && StartStep(r1, r2) && StartStep(r2, r3) && EffectStep(r3, r4);
    assert Ends(r6, r7, 1);
    assert CompleteStep(r4, r5) && CompleteStep(r5, r6) && LeaveStep(r6, r7);
    assert b[5].control == CompleteReplaced;
    StillStartedIff(b, 7);
  }

  // ---------------------------------------------------------------- Runs of one workspace

  /** The runs of a workspace, oldest first; the workspace lock lets only the last one be active. */
  type Workspace = seq<Run>

  /** A record says what became of the tool. */
  predicate Settled(r: Record) {
    r.tool == Completed || r.tool == Failed || r.tool == Abandoned
  }

  /** What the assessment at the beginning of a run does to the records it reads: a resolved one is made durable
      before it is relied on. */
  function Confirmed(r: Run): Run {
    if Settled(r.visible) then r.(durable := r.visible) else r
  }

  /** The operator gives up on a run that is over: a record that says "started" becomes "abandoned", durably or, if the
      sync fails, only visibly. */
  ghost predicate Abandon(r: Run, r': Run) {
    && Over(r) && Unresolved(r.visible) && r.visible.lifecycle != Success
    && var abandoned := r.visible.(tool := Abandoned);
       r' == r.(visible := abandoned) || r' == r.(visible := abandoned, durable := abandoned)
  }

  /** Recovery settles the lifecycle of a run that died, and never what the record says about a tool. */
  ghost predicate Recover(r: Run, r': Run) {
    && Over(r) && !Terminal(r.visible) && !Unresolved(r.visible)
    && var recovered := r.visible.(lifecycle := Recovered);
       r' == r.(visible := recovered) || r' == r.(visible := recovered, durable := recovered)
  }

  /** The operator works under the workspace lock: no run is active. */
  ghost predicate OperatorStep(w: Workspace, w': Workspace) {
    && |w'| == |w| && (forall i :: 0 <= i < |w| ==> Over(w[i]))
    && exists i :: 0 <= i < |w| && w' == w[i := w'[i]] && (Abandon(w[i], w'[i]) || Recover(w[i], w'[i]))
  }

  ghost predicate BeginRun(w: Workspace, w': Workspace) {
    && (forall i :: 0 <= i < |w| ==> Over(w[i]) && !Unresolved(w[i].visible))
    && |w'| == |w| + 1
    && (forall i :: 0 <= i < |w| ==> w'[i] == Confirmed(w[i]))
    && w'[|w|] == FRESH
  }

  ghost predicate WorkspaceStep(w: Workspace, w': Workspace) {
    || BeginRun(w, w')
    || (w != [] && |w'| == |w| && w' == w[|w| - 1 := w'[|w| - 1]] && CommandStep(w[|w| - 1], w'[|w| - 1]))
    || OperatorStep(w, w')
    || (|w'| == |w| && forall i :: 0 <= i < |w| ==> Disturbed(w[i], w'[i]))
  }

  ghost predicate Resolved(r: Run) {
    r.durable.tool == r.visible.tool && Settled(r.visible)
  }

  /** Before a later run exists, every effect begun by an earlier one has been durably accounted for. */
  ghost predicate WorkspaceInv(w: Workspace) {
    && (forall i :: 0 <= i < |w| ==> Inv(w[i]))
    && (forall i :: 0 <= i < |w| - 1 ==> Over(w[i]))
    && (forall i :: 0 <= i < |w| - 1 && w[i].begun ==> Resolved(w[i]))
  }

  lemma ConfirmedKeepsInv(r: Run)
    requires Inv(r) && Over(r) && !Unresolved(r.visible)
    ensures Inv(Confirmed(r)) && Over(Confirmed(r)) && (r.begun ==> Resolved(Confirmed(r)))
  {}

  lemma OverStaysPut(r: Run, r': Run)
    requires Inv(r) && Over(r) && Disturbed(r, r') && (r.begun ==> Resolved(r))
    ensures Over(r') && (r'.begun ==> Resolved(r'))
  {}

  lemma OperatorKeepsInv(r: Run, r': Run)
    requires Inv(r) && (Abandon(r, r') || Recover(r, r'))
    ensures Inv(r') && Over(r') && r'.begun == r.begun && (r.begun && Resolved(r) ==> Resolved(r'))
  {}

  lemma WorkspaceStepKeepsInv(w: Workspace, w': Workspace)
    requires WorkspaceInv(w) && WorkspaceStep(w, w')
    ensures WorkspaceInv(w')
  {
    if BeginRun(w, w') {
      forall i | 0 <= i < |w|
        ensures Inv(w'[i]) && Over(w'[i]) && (w'[i].begun ==> Resolved(w'[i]))
      {
        ConfirmedKeepsInv(w[i]);
      }
    } else if w != [] && w' == w[|w| - 1 := w'[|w| - 1]] && CommandStep(w[|w| - 1], w'[|w| - 1]) {
      RunStepKeepsInv(w[|w| - 1], w'[|w| - 1]);
    } else if OperatorStep(w, w') {
      var i :| 0 <= i < |w| && w' == w[i := w'[i]] && (Abandon(w[i], w'[i]) || Recover(w[i], w'[i]));
      OperatorKeepsInv(w[i], w'[i]);
    } else {
      forall i | 0 <= i < |w|
        ensures Inv(w'[i]) && (i < |w| - 1 ==> Over(w'[i]) && (w'[i].begun ==> Resolved(w'[i])))
      {
        assert Disturbed(w[i], w'[i]);
        RunStepKeepsInv(w[i], w'[i]);
        if i < |w| - 1 { OverStaysPut(w[i], w'[i]); }
      }
    }
  }

  ghost predicate History(h: seq<Workspace>) {
    && h != [] && h[0] == []
    && forall k :: 0 <= k < |h| - 1 ==> WorkspaceStep(h[k], h[k + 1])
  }

  lemma {:induction false} HistoryKeepsInv(h: seq<Workspace>, k: nat)
    requires History(h) && k < |h|
    ensures WorkspaceInv(h[k])
  {
    if k > 0 {
      HistoryKeepsInv(h, k - 1);
      assert WorkspaceStep(h[k - 1], h[k - 1 + 1]);
      WorkspaceStepKeepsInv(h[k - 1], h[k]);
    }
  }

  /** Over every history of a workspace, with crashes, power losses and operator actions anywhere: whenever a run exists
      after another whose effect was begun, that effect is durably completed, and the tool returned, or durably failed,
      and it raised, or durably abandoned. An effect nobody has accounted for is never followed by another run. */
  lemma NoRunAfterAnOpenEffect(h: seq<Workspace>, k: nat, i: nat, j: nat)
    requires History(h) && k < |h| && i < j < |h[k]| && h[k][i].begun
    ensures Over(h[k][i])
    ensures || (h[k][i].durable.tool == Completed && h[k][i].outcome == Returned)
            || (h[k][i].durable.tool == Failed && h[k][i].outcome == Raised)
            || h[k][i].durable.tool == Abandoned
  {
    HistoryKeepsInv(h, k);
  }

  /** Nothing that was printed is ever abandoned. */
  lemma PrintedIsNeverAbandoned(h: seq<Workspace>, k: nat, i: nat)
    requires History(h) && k < |h| && i < |h[k]| && h[k][i].printed
    ensures h[k][i].durable.tool == Completed && h[k][i].visible.tool == Completed
  {
    HistoryKeepsInv(h, k);
  }

  // ---------------------------------------------------------------- No workspace is blocked for good

  ghost predicate Steps(h: seq<Workspace>) {
    forall k :: 0 <= k < |h| - 1 ==> WorkspaceStep(h[k], h[k + 1])
  }

  ghost predicate AllOver(w: Workspace) {
    forall i :: 0 <= i < |w| ==> Inv(w[i]) && Over(w[i])
  }

  /** A run can begin exactly when every other is over and none visibly says "started". */
  lemma RunMayBeginIff(w: Workspace)
    ensures (exists w' :: BeginRun(w, w')) <==>
            forall i :: 0 <= i < |w| ==> (w[i].control.Exited? || w[i].control.Crashed?) && w[i].visible.tool != Started
  {
    var next := seq(|w|, i requires 0 <= i < |w| => Confirmed(w[i])) + [FRESH];
    if forall i :: 0 <= i < |w| ==> Over(w[i]) && !Unresolved(w[i].visible) { assert BeginRun(w, next); }
  }

  /** Nothing is left for the operator to do. */
  ghost predicate Closed(r: Run) {
    && (r.visible.lifecycle == Success || r.visible.lifecycle == Failure || r.visible.lifecycle == Recovered)
    && r.visible.tool != Started
  }

  /** The operator can close any run that is over, durably: by abandoning what says "started", and by recovering what
      died. */
  lemma OperatorCloses(w: Workspace, i: nat) returns (h: seq<Workspace>)
    requires i < |w| && AllOver(w)
    ensures h != [] && h[0] == w && Steps(h)
    ensures var last := h[|h| - 1];
      && |last| == |w| && AllOver(last) && last == w[i := last[i]] && Closed(last[i])
      && (last[i] == w[i] || last[i].durable == last[i].visible)
  {
    h := [w];
    var run := w[i];
    if Unresolved(run.visible) {
      run := run.(visible := run.visible.(tool := Abandoned), durable := run.visible.(tool := Abandoned));
      assert Abandon(w[i], run);
      h := h + [Acted(w, i, run)];
    }
    var mid := h[|h| - 1];
    if !Terminal(run.visible) {
      var recovered := run.visible.(lifecycle := Recovered);
      var next := run.(visible := recovered, durable := recovered);
      assert Recover(run, next);
      h := h + [Acted(mid, i, next)];
    }
  }

  function Acted(w: Workspace, i: nat, r: Run): (w': Workspace)
    requires i < |w| && AllOver(w) && (Abandon(w[i], r) || Recover(w[i], r))
    ensures WorkspaceStep(w, w') && AllOver(w') && w' == w[i := r]
  {
    var w' := w[i := r];
    OperatorKeepsInv(w[i], r);
    assert w' == w[i := w'[i]] && OperatorStep(w, w');
    w'
  }

  /** So, one after the other, it can close them all. */
  lemma {:induction false} OperatorReopens(w: Workspace, n: nat) returns (h: seq<Workspace>)
    requires n <= |w| && AllOver(w)
    ensures h != [] && h[0] == w && Steps(h)
    ensures var last := h[|h| - 1];
      |last| == |w| && AllOver(last) && forall i :: 0 <= i < n ==> Closed(last[i])
  {
    if n == 0 {
      h := [w];
    } else {
      h := OperatorReopens(w, n - 1);
      var more := OperatorCloses(h[|h| - 1], n - 1);
      StepsOnward(h, more);
      h := h + more[1..];
    }
  }

  lemma StepsOnward(h: seq<Workspace>, more: seq<Workspace>)
    requires h != [] && more != [] && Steps(h) && Steps(more) && h[|h| - 1] == more[0]
    ensures Steps(h + more[1..])
  {
    if |more| > 1 {
      assert WorkspaceStep(more[0], more[0 + 1]);
      forall k | 0 <= k < |more| - 2 ensures WorkspaceStep(more[1..][k], more[1..][k + 1]) {
        assert WorkspaceStep(more[k + 1], more[k + 1 + 1]);
      }
      StepsConcat(h, more[1..]);
    }
  }

  /** However a workspace has come to be as it is, it can go on: the command may be killed, the operator may close every
      run, and then a new run can begin. */
  lemma WorkspaceMayGoOn(h: seq<Workspace>) returns (more: seq<Workspace>)
    requires History(h)
    ensures more != [] && History(h + more)
    ensures var before, after := h[|h| - 1], more[|more| - 1];
      && |after| == |before| + 1
      && after[|before|].control == Owned && after[|before|].visible == Record(New, Unrecorded)
      && forall i :: 0 <= i < |before| ==> Closed(after[i])
  {
    var w := h[|h| - 1];
    HistoryKeepsInv(h, |h| - 1);
    var halted := seq(|w|, i requires 0 <= i < |w| => Halted(w[i]));
    forall i | 0 <= i < |w| ensures Disturbed(w[i], halted[i]) && Inv(halted[i]) && Over(halted[i]) {
      DisturbanceKeepsInv(w[i], halted[i]);
    }
    assert WorkspaceStep(w, halted);
    var freed := OperatorReopens(halted, |w|);
    var last := freed[|freed| - 1];
    var next := seq(|w|, i requires 0 <= i < |w| => Confirmed(last[i])) + [FRESH];
    assert BeginRun(last, next);
    more := freed + [next];
    StepsConcat(freed, [next]);
    StepsConcat(h, more);
  }

  lemma StepsConcat(h: seq<Workspace>, more: seq<Workspace>)
    requires h != [] && more != [] && Steps(h) && Steps(more) && WorkspaceStep(h[|h| - 1], more[0])
    ensures Steps(h + more)
  {
    var all := h + more;
    forall k | 0 <= k < |all| - 1 ensures WorkspaceStep(all[k], all[k + 1]) {
      if k < |h| - 1 {
        assert WorkspaceStep(h[k], h[k + 1]);
      } else if k >= |h| {
        assert WorkspaceStep(more[k - |h|], more[k - |h| + 1]);
      }
    }
  }
}
