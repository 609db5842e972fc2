/**
 The event-driven executor of timer programs, and the binary smart timer that owns
 three of them. Timers fire as separate events; the clock only enters through the
 percentage that a progress tick shows.
 */
module SmartTimer {
  import opened Options
  import opened TimerLanguage

  /** The states of the component that its programs write. */
  class Owner {
    var outputs: Outputs
    var running: bool
    var progress: nat

    constructor ()
      ensures outputs == seq(OUTPUTS, _ => false) && !running && progress == 0
    {
      outputs, running, progress := seq(OUTPUTS, _ => false), false, 0;
    }

    method SetOutput(output: nat, value: bool)
      requires output < OUTPUTS
      modifies `outputs
      ensures outputs == Apply(Step.SetOutput(output, value), old(outputs))
      ensures forall i :: 0 <= i < OUTPUTS ==> outputs[i] == if i == output then value else old(outputs)[i]
    {
      outputs := outputs[output := value];
    }

    method SetAllOutputs(value: bool)
      modifies `outputs
      ensures outputs == Apply(Step.SetAllOutputs(value), old(outputs))
      ensures forall i :: 0 <= i < OUTPUTS ==> outputs[i] == value
    {
      for i := 0 to OUTPUTS
        invariant forall j :: 0 <= j < i ==> outputs[j] == value
      {
        outputs := outputs[i := value];
      }
    }
  }

  class Program {
    const owner: Owner
    const canWait: bool
    const steps: seq<Step>
    const totalWait: nat
    var currentStepIndex: int
    var started: bool
    var progressTimer: bool
    // the wait steps whose timer is set
    var waitTimers: set<int>
    // the outputs when the program was run, and the waits expired since, with their total delay
    ghost var start: Outputs
    ghost var expiries: nat
    ghost var elapsed: nat

    ghost predicate Idle()
      reads this
    {
      currentStepIndex == -1 && !started && !progressTimer && waitTimers == {}
    }

    predicate Running()
      reads this
    {
      0 <= currentStepIndex < |steps|
    }

    /** The wait the program stands at, or its end. */
    ghost function Position(): nat
      reads this
    {
      if Running() then currentStepIndex else |steps|
    }

    /** Standing at a wait step, whose timer is the only one set. */
    ghost predicate AtWait()
      reads this
    {
      Running() && steps[currentStepIndex].Wait? && started && waitTimers == {currentStepIndex}
    }

    ghost predicate Parsed() {
      KnownOutputs(steps) && (!canWait ==> NoWait(steps)) && totalWait == TotalWait(steps)
    }

    /** Between events a program is idle, or waits with a progress timer if it takes any time. */
    ghost predicate Valid()
      reads this
    {
      Parsed() && (Idle() || (AtWait() && (progressTimer <==> totalWait > 0)))
    }

    /** The first `n` steps were done, and no other. */
    ghost predicate Done(n: nat)
      reads this, owner
    {
      && n <= |steps|
      && owner.outputs == Exec(start, steps[..n])
      && expiries == Waits(steps[..n]) && elapsed == TotalWait(steps[..n])
    }

    constructor (source: string, canWait: bool, owner: Owner)
      ensures Valid() && Idle()
      ensures this.owner == owner && this.canWait == canWait && steps == Parse(source, canWait)
    {
      this.owner, this.canWait := owner, canWait;
      steps := Parse(source, canWait);
      totalWait := TotalWait(Parse(source, canWait));
      currentStepIndex, started, progressTimer, waitTimers := -1, false, false, {};
      ParsedProgram(source, canWait);
    }

    /** `reset`: stop the current step, if any. It is never a step that cannot be stopped. */
    method Reset()
      requires Running() ==> steps[currentStepIndex].Wait?
      requires waitTimers <= {currentStepIndex} && (waitTimers != {} ==> Running())
      modifies this, owner`progress, owner`running
      ensures Idle() && !owner.running && owner.progress == 0
      ensures start == old(start) && expiries == old(expiries) && elapsed == old(elapsed)
    {
      if Running() {
        waitTimers := waitTimers - {currentStepIndex};
      }
      currentStepIndex := -1;
      progressTimer := false;
      started := false;
      owner.progress := 0;
      owner.running := false;
    }

    /** `executeStep`: go on to the next wait, or to the end. */
    method ExecuteStep()
      requires Parsed() && started && waitTimers == {}
      requires -1 <= currentStepIndex < |steps| && Done(currentStepIndex + 1)
      modifies this, owner
      ensures start == old(start) && expiries == old(expiries) && elapsed == old(elapsed)
      ensures old(currentStepIndex) < Position() <= |steps|
      ensures (AtWait() && Done(currentStepIndex) && owner.running && progressTimer == old(progressTimer))
           || (Idle() && Done(|steps|) && !owner.running && owner.progress == 0)
      decreases |steps| - currentStepIndex
    {
      hide TotalWait, Waits, Exec, Apply, KnownOutputs, NoWait;
      currentStepIndex := currentStepIndex + 1;
      if currentStepIndex == |steps| {
        Reset();
        return;
      }
      var step := steps[currentStepIndex];
      OneMore(start, steps, currentStepIndex);
      owner.running := true;
      match step {
        case SetOutput(output, value) =>
          NamesAnOutput(steps, currentStepIndex);
          owner.SetOutput(output, value);
          ExecuteStep();
        case SetAllOutputs(value) =>
          owner.SetAllOutputs(value);
          ExecuteStep();
        case Wait(_) =>
          waitTimers := waitTimers + {currentStepIndex};
      }
    }

    /** `executeProgress`: show the progress, and set the next tick. */
    method ExecuteProgress(percent: nat)
      modifies `progressTimer, owner`progress
      ensures totalWait == 0 ==> owner.progress == 0 && progressTimer == old(progressTimer)
      ensures totalWait > 0 ==> owner.progress == percent && progressTimer
    {
      if totalWait == 0 {
        owner.progress := 0;
        return;
      }
      owner.progress := percent;
      progressTimer := true;
    }

    /** `run`, on a program that is idle: up to its first wait, or to the end. */
    method Run(percent: nat)
      requires Valid() && Idle()
      modifies this, owner
      ensures Valid() && owner.running == Running() && (!Running() ==> owner.progress == 0)
      ensures start == old(owner.outputs) && expiries == 0
      ensures owner.outputs == Timeline(steps, start, 0)
      ensures Goes(steps, 0, old(owner.outputs), Position(), owner.outputs)
      ensures Running() ==> Done(currentStepIndex)
      ensures Running() <==> Waits(steps) > 0
      ensures !canWait ==> Idle() && owner.outputs == Exec(old(owner.outputs), steps)
    {
      hide TotalWait, Waits, Exec, Timeline, KnownOutputs, NoWait, Goes;
      start, expiries, elapsed := owner.outputs, 0, 0;
      currentStepIndex := -1;
      started := true;
      NothingDone(start, steps);
      ExecuteStep();
      AtTimeline(start, steps, Position());
      GoesOn(steps, start, 0, Position());
      AllOfThem(steps, currentStepIndex);
      if !canWait { NoWaitNoTime(steps); }
      ExecuteProgress(percent);
    }

    /**
     The timer of the current wait fires. The program goes on along its timeline, and
     ends exactly when all its waits have expired, after exactly its total time.
     */
    method Expire()
      requires Valid() && Running() && Done(currentStepIndex)
      modifies this, owner
      ensures Valid() && owner.running == Running() && (!Running() ==> owner.progress == 0)
      ensures start == old(start) && expiries == old(expiries) + 1
      ensures elapsed == old(elapsed) + steps[old(currentStepIndex)].delay
      ensures owner.outputs == Timeline(steps, start, expiries)
      ensures Goes(steps, old(currentStepIndex) + 1, old(owner.outputs), Position(), owner.outputs)
      ensures Running() ==> Done(currentStepIndex)
      ensures !Running() <==> expiries == Waits(steps)
      ensures !Running() ==> elapsed == totalWait
    {
      hide TotalWait, Waits, Exec, Timeline, KnownOutputs, NoWait, Apply, Goes;
      ghost var from := currentStepIndex + 1;
      OneMore(start, steps, currentStepIndex);
      waitTimers := waitTimers - {currentStepIndex};
      WaitChangesNothing(steps[currentStepIndex], owner.outputs);
      expiries, elapsed := expiries + 1, elapsed + steps[currentStepIndex].delay;
      ExecuteStep();
      AtTimeline(start, steps, Position());
      GoesOn(steps, start, from, Position());
      AllOfThem(steps, currentStepIndex);
    }

    /** The progress timer fires. */
    method Tick(percent: nat)
      requires Valid() && progressTimer
      modifies `progressTimer, owner`progress
      ensures Valid() && Running() && progressTimer && owner.progress == percent
    {
      progressTimer := false;
      ExecuteProgress(percent);
    }

    method Interrupt()
      requires Valid()
      modifies this, owner`progress, owner`running
      ensures Valid() && Idle()
      ensures old(Running()) ==> !owner.running && owner.progress == 0
      ensures !old(Running()) ==> owner.running == old(owner.running) && owner.progress == old(owner.progress)
    {
      if Running() {
        Reset();
      }
    }
  }

  lemma OneMore(o: Outputs, steps: seq<Step>, i: nat)
    requires i < |steps|
    ensures Exec(o, steps[..i + 1]) == Apply(steps[i], Exec(o, steps[..i]))
    ensures Waits(steps[..i + 1]) == Waits(steps[..i]) + (if steps[i].Wait? then 1 else 0)
    ensures TotalWait(steps[..i + 1]) == TotalWait(steps[..i]) + (if steps[i].Wait? then steps[i].delay else 0)
  {
    hide Apply;
    assert steps[..i + 1][..i] == steps[..i];
  }

  lemma NamesAnOutput(steps: seq<Step>, i: nat)
    requires KnownOutputs(steps) && i < |steps| && steps[i].SetOutput?
    ensures steps[i].output < OUTPUTS
  {}

  lemma NothingDone(o: Outputs, steps: seq<Step>)
    ensures Exec(o, steps[..0]) == o && Waits(steps[..0]) == 0 && TotalWait(steps[..0]) == 0
  {}

  /** Standing at a wait, or at the end, the outputs are those of the timeline. */
  lemma AtTimeline(o: Outputs, steps: seq<Step>, n: nat)
    requires n == |steps| || (n < |steps| && steps[n].Wait?)
    ensures Timeline(steps, o, Waits(steps[..n])) == Exec(o, steps[..n])
    ensures n == |steps| ==>
      Exec(o, steps[..n]) == Exec(o, steps) && Waits(steps[..n]) == Waits(steps)
        && TotalWait(steps[..n]) == TotalWait(steps)
  {
    hide Timeline, Exec, Waits;
    if n == |steps| {
      assert steps[..n] == steps;
      TimelineAtEnd(steps, o, Waits(steps));
    } else {
      TimelineAtWait(steps, o, n);
    }
  }

  /** Before a wait, not all waits have expired. */
  lemma AllOfThem(steps: seq<Step>, i: int)
    ensures 0 <= i < |steps| && steps[i].Wait? ==> Waits(steps[..i]) < Waits(steps)
  {
    if 0 <= i < |steps| && steps[i].Wait? { WaitsGrow(steps, i); }
  }

  // ----- the timer as its user sees it -----

  /** The outputs, and the wait of the trigger program that the timer stands at, if it runs. */
  datatype Clock = Clock(outputs: Outputs, at: Option<nat>)

  /** The program goes from step `from` to its next wait, or to its end. */
  ghost predicate GoesTo(steps: seq<Step>, from: nat, before: Outputs, c: Clock) {
    && (c.at.Some? ==> c.at.value < |steps|)
    && Goes(steps, from, before, if c.at.Some? then c.at.value else |steps|, c.outputs)
  }

  /** A running timer stops and does its cancel program; a resting one stays as it is. */
  ghost predicate Cancels(cancel: seq<Step>, c: Clock, next: Clock) {
    if c.at.Some? then next.at == None && GoesTo(cancel, 0, c.outputs, next) else next == c
  }

  /** The timer is cancelled, and the trigger program starts. */
  ghost predicate Triggers(trigger: seq<Step>, cancel: seq<Step>, c: Clock, next: Clock) {
    exists resting :: Cancels(cancel, c, resting) && GoesTo(trigger, 0, resting.outputs, next)
  }

  /** What an event does, without timers, progress or program objects. */
  ghost predicate Next(trigger: seq<Step>, cancel: seq<Step>, c: Clock, e: Event, next: Clock) {
    match e
    case Trigger(arg, _) => if arg then Triggers(trigger, cancel, c, next) else next == c
    case Cancel(arg) => if arg then Cancels(cancel, c, next) else next == c
    case Toggle(arg, _) =>
      if !arg then next == c
      else if c.at.Some? then Cancels(cancel, c, next)
      else GoesTo(trigger, 0, c.outputs, next)
    case Destroy => Cancels(cancel, c, next)
    case Expiry => if c.at.Some? then GoesTo(trigger, c.at.value + 1, c.outputs, next) else next == c
    case Tick(_) => next == c
  }

  class SmartTimerBinary {
    const owner: Owner
    const initProgram: Program
    const triggerProgram: Program
    const cancelProgram: Program

    /** What the component is made of. */
    ghost predicate Wired() {
      && initProgram.owner == owner && triggerProgram.owner == owner && cancelProgram.owner == owner
      && initProgram != triggerProgram && triggerProgram != cancelProgram && cancelProgram != initProgram
      && !initProgram.canWait && triggerProgram.canWait && !cancelProgram.canWait
    }

    ghost function Repr(): set<object> { {owner, initProgram, triggerProgram, cancelProgram} }

    /**
     `running` says whether the trigger program runs; the other two are idle; the
     outputs are on the trigger program's timeline while it runs.
     */
    ghost predicate Valid()
      reads Repr()
    {
      && Wired()
      && initProgram.Valid() && initProgram.Idle()
      && cancelProgram.Valid() && cancelProgram.Idle()
      && triggerProgram.Valid()
      && owner.running == triggerProgram.Running()
      && (triggerProgram.Running() ==> triggerProgram.Done(triggerProgram.currentStepIndex))
      && (!triggerProgram.Running() ==> owner.progress == 0)
    }

    ghost function State(): Clock
      reads Repr()
    {
      Clock(owner.outputs, if triggerProgram.Running() then Some(triggerProgram.currentStepIndex) else None)
    }

    constructor (initSource: string, triggerSource: string, cancelSource: string)
      ensures Valid() && fresh(Repr()) && !owner.running
      ensures GoesTo(Parse(initSource, false), 0, seq(OUTPUTS, _ => false), State())
      ensures owner.outputs == Exec(seq(OUTPUTS, _ => false), Parse(initSource, false))
      ensures triggerProgram.steps == Parse(triggerSource, true) && cancelProgram.steps == Parse(cancelSource, false)
    {
      var states := new Owner();
      owner := states;
      initProgram := new Program(initSource, false, states);
      triggerProgram := new Program(triggerSource, true, states);
      cancelProgram := new Program(cancelSource, false, states);
      new;
      hide Exec, Parse, Timeline, KnownOutputs, NoWait, TotalWait, Waits, Apply, Goes;
      Start();
    }

    /** The programs are set up, and the init program runs. */
    method Start()
      requires Wired() && initProgram.Valid() && triggerProgram.Valid() && cancelProgram.Valid()
      requires initProgram.Idle() && triggerProgram.Idle() && cancelProgram.Idle()
      modifies Repr()
      ensures Valid() && !owner.running && owner.outputs == Exec(old(owner.outputs), initProgram.steps)
      ensures GoesTo(initProgram.steps, 0, old(owner.outputs), State())
    {
      hide Exec, Timeline, KnownOutputs, NoWait, TotalWait, Waits, Apply, Goes;
      initProgram.Reset();
      triggerProgram.Reset();
      cancelProgram.Reset();
      initProgram.Run(0);
    }

    /** `clear`: stop the trigger program, if it runs, and undo it with the cancel program. */
    method Clear()
      requires Valid()
      modifies Repr()
      ensures Valid() && !owner.running && triggerProgram.Idle()
      ensures owner.outputs ==
        if old(owner.running) then Exec(old(owner.outputs), cancelProgram.steps) else old(owner.outputs)
      ensures Cancels(cancelProgram.steps, old(State()), State())
    {
      hide Exec, Timeline, KnownOutputs, NoWait, Waits, TotalWait, Goes;
      if triggerProgram.Running() {
        triggerProgram.Interrupt();
        cancelProgram.Run(0);
      }
    }

    method Trigger(arg: bool, percent: nat)
      requires Valid()
      modifies Repr()
      ensures Valid()
      ensures arg ==> owner.running == (Waits(triggerProgram.steps) > 0)
      ensures arg ==> owner.outputs == Timeline(triggerProgram.steps,
                if old(owner.running) then Exec(old(owner.outputs), cancelProgram.steps) else old(owner.outputs), 0)
      ensures !arg ==> owner.outputs == old(owner.outputs) && owner.running == old(owner.running)
      ensures if arg then Triggers(triggerProgram.steps, cancelProgram.steps, old(State()), State())
              else State() == old(State())
      ensures arg && !old(owner.running) ==> GoesTo(triggerProgram.steps, 0, old(owner.outputs), State())
    {
      hide Exec, Timeline, KnownOutputs, NoWait, Waits, TotalWait, Goes;
      if !arg { return; }
      Clear();
      ghost var resting := State();
      triggerProgram.Run(percent);
      assert GoesTo(triggerProgram.steps, 0, resting.outputs, State());
    }

    method Cancel(arg: bool)
      requires Valid()
      modifies Repr()
      ensures Valid() && owner.running == (!arg && old(owner.running))
      ensures owner.outputs == if arg
        && old(owner.running) then Exec(old(owner.outputs), cancelProgram.steps) else old(owner.outputs)
      ensures if arg then Cancels(cancelProgram.steps, old(State()), State()) else State() == old(State())
    {
      hide Exec, Timeline, KnownOutputs, NoWait, Waits, TotalWait, Goes;
      if !arg { return; }
      Clear();
    }

    method Toggle(arg: bool, percent: nat)
      requires Valid()
      modifies Repr()
      ensures Valid()
      ensures owner.running ==
        if !arg then old(owner.running) else (!old(owner.running) && Waits(triggerProgram.steps) > 0)
      ensures owner.outputs == if !arg then old(owner.outputs)
                               else if old(owner.running) then Exec(old(owner.outputs), cancelProgram.steps)
                               else Timeline(triggerProgram.steps, old(owner.outputs), 0)
      ensures Next(triggerProgram.steps, cancelProgram.steps, old(State()), Event.Toggle(arg, percent), State())
    {
      hide Exec, Timeline, KnownOutputs, NoWait, Waits, TotalWait, Goes;
      if triggerProgram.Running() {
        Cancel(arg);
      } else {
        Trigger(arg, percent);
      }
    }

    /** No timer outlives the component. */
    method Destroy()
      requires Valid()
      modifies Repr()
      ensures Valid() && initProgram.Idle() && triggerProgram.Idle() && cancelProgram.Idle()
      ensures Cancels(cancelProgram.steps, old(State()), State())
    {
      hide Exec, Timeline, KnownOutputs, NoWait, Waits, TotalWait, Goes;
      Clear();
    }
  }

  // ----- whole runs -----

  datatype Event =
    | Trigger(arg: bool, percent: nat)
    | Cancel(arg: bool)
    | Toggle(arg: bool, percent: nat)
    | Destroy
    | Expiry
    | Tick(percent: nat)

  method Take(t: SmartTimerBinary, e: Event)
    requires t.Valid()
    modifies t.Repr()
    ensures t.Valid()
    ensures Next(t.triggerProgram.steps, t.cancelProgram.steps, old(t.State()), e, t.State())
  {
    hide Exec, Timeline, KnownOutputs, NoWait, Waits, TotalWait, Goes;
    match e {
      case Trigger(arg, percent) => t.Trigger(arg, percent);
      case Cancel(arg) => t.Cancel(arg);
      case Toggle(arg, percent) => t.Toggle(arg, percent);
      case Destroy => t.Destroy();
      case Expiry => if t.triggerProgram.Running() { t.triggerProgram.Expire(); }
      case Tick(percent) => if t.triggerProgram.progressTimer { t.triggerProgram.Tick(percent); }
    }
  }

  /**
   Over every run of events: `running` says whether the trigger program runs, which is
   then on its timeline; and the whole run is one of the clock, event by event.
   */
  method Run(t: SmartTimerBinary, events: seq<Event>) returns (ghost clocks: seq<Clock>)
    requires t.Valid()
    modifies t.Repr()
    ensures t.Valid()
    ensures t.owner.running == t.triggerProgram.Running()
    ensures t.owner.running ==>
      t.owner.outputs == Timeline(t.triggerProgram.steps, t.triggerProgram.start, t.triggerProgram.expiries)
    ensures |clocks| == |events| + 1 && clocks[0] == old(t.State()) && clocks[|events|] == t.State()
    ensures forall i :: 0 <= i < |events| ==>
      Next(t.triggerProgram.steps, t.cancelProgram.steps, clocks[i], events[i], clocks[i + 1])
  {
    hide Exec, Timeline, KnownOutputs, NoWait, Waits, TotalWait, Next;
    clocks := [t.State()];
    for i := 0 to |events|
      invariant t.Valid() && |clocks| == i + 1 && clocks[0] == old(t.State()) && clocks[i] == t.State()
      invariant forall k :: 0 <= k < i ==>
        Next(t.triggerProgram.steps, t.cancelProgram.steps, clocks[k], events[k], clocks[k + 1])
    {
      Take(t, events[i]);
      clocks := clocks + [t.State()];
    }
    if t.owner.running {
      AtTimeline(t.triggerProgram.start, t.triggerProgram.steps, t.triggerProgram.currentStepIndex);
    }
  }
}
