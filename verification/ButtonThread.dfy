/** A kernel thread that sleeps until an interrupt hands it work, and the call that stops it. The thread,
    the interrupt handler and the remover interleave at every access to the flag, the stop request and
    the thread's sleep state. Memory is sequentially consistent and no signal interrupts a wait. */
module ButtonThread {
  import opened DriverBasics

  /** Where thread_fn stands. The wait tests its condition once, and only then queues itself and tests
      again before each sleep: `looping` tells the two tests apart. */
  datatype ThreadPc =
    | TLoop
    | TTestReady(looping: bool)
    | TTestStop(looping: bool)
    | TPrepare
    | TSleep
    | TFinish
    | TBreakTest
    | TClear
    | TBegin
    | TWork
    | TExited

  datatype IsrPc = IIdle | ISet | IWake

  /** my_remove: kthread_stop sets the request, wakes the thread and joins it. */
  datatype RemovePc = RIdle | RWake | RJoin | RDone

  /** `interrupts` counts the times the handler has set the flag, `claimed` how many of them had done so
      when the thread last cleared it; `passes` records, for each processing pass, how many had when
      the pass began. */
  datatype State = State(dataReady: bool, stop: bool, queued: bool, runnable: bool,
                         t: ThreadPc, isr: IsrPc, remove: RemovePc,
                         interrupts: nat, claimed: nat, passes: seq<nat>)

  datatype Choice = RaiseInterrupt | RunIsr | RunThread | CallRemove | RunRemove

  /** The interrupt line is requested before the thread is created, so the flag may be set first. */
  function Init(): State {
    State(false, false, false, true, TLoop, IIdle, RIdle, 0, 0, [])
  }

  function ThreadStep(s: State): State {
    match s.t
    case TLoop => s.(t := if s.stop then TExited else TTestReady(false))
    case TTestReady(looping) =>
      s.(t := if s.dataReady then (if looping then TFinish else TBreakTest) else TTestStop(looping))
    case TTestStop(looping) =>
      s.(t := if s.stop then (if looping then TFinish else TBreakTest) else (if looping then TSleep else TPrepare))
    case TPrepare => s.(t := TTestReady(true), queued := true, runnable := false)
    case TSleep => if s.runnable then s.(t := TPrepare) else s
    case TFinish => s.(t := TBreakTest, queued := false, runnable := true)
    case TBreakTest => s.(t := if s.stop then TExited else TClear)
    case TClear => s.(t := TBegin, dataReady := false, claimed := s.interrupts)
    case TBegin => s.(t := TWork, passes := s.passes + [s.interrupts])
    case TWork => s.(t := TLoop)
    case TExited => s
  }

  function IsrStep(s: State): State {
    match s.isr
    case IIdle => s
    case ISet => s.(isr := IWake, dataReady := true, interrupts := s.interrupts + 1)
    case IWake => s.(isr := IIdle, queued := false, runnable := s.runnable || s.queued)
  }

  function RemoveStep(s: State): State {
    match s.remove
    case RIdle => s
    case RWake => s.(remove := RJoin, runnable := true)
    case RJoin => if s.t.TExited? then s.(remove := RDone) else s
    case RDone => s
  }

  /** A choice that starts what is already under way changes nothing. */
  function Step(s: State, choice: Choice): State {
    match choice
    case RaiseInterrupt => if s.isr.IIdle? then s.(isr := ISet) else s
    case RunIsr => IsrStep(s)
    case RunThread => ThreadStep(s)
    case CallRemove => if s.remove.RIdle? then s.(remove := RWake, stop := true) else s
    case RunRemove => RemoveStep(s)
  }

  ghost predicate Next(s: State, u: State) {
    exists choice :: u == Step(s, choice)
  }

  ghost predicate IsRun(run: seq<State>) {
    && run != [] && run[0] == Init()
    && forall k :: 0 < k < |run| ==> Next(run[k - 1], run[k])
  }

  // ---------------------------------------------------------------- the invariant

  predicate Waiting(t: ThreadPc) {
    t.TSleep? || t.TFinish? || (t.TTestReady? && t.looping) || (t.TTestStop? && t.looping)
  }

  /** A thread that will not run unless woken has not yet been told of anything it should run for,
      unless whoever made it so still has a wake-up call to make. */
  predicate WakeInv(s: State) {
    && (s.stop <==> !s.remove.RIdle?)
    && (!s.runnable ==> Waiting(s.t) && s.queued)
    && (!s.runnable && (s.t.TSleep? || s.t.TTestStop?) && s.dataReady ==> s.isr.IWake?)
    && (!s.runnable && s.t.TSleep? && s.stop ==> s.remove.RWake?)
    && (s.t.TExited? ==> s.stop)
    && (s.remove.RDone? ==> s.t.TExited?)
  }

  function Last(passes: seq<nat>): nat {
    if passes == [] then 0 else passes[|passes| - 1]
  }

  /** The flag is up exactly when some interrupt has not been claimed; what has been claimed is followed
      by a pass; and every pass, begun or about to begin, has an interrupt of its own. */
  predicate FlagInv(s: State) {
    && (s.dataReady <==> s.claimed < s.interrupts) && s.claimed <= s.interrupts
    && (s.t.TClear? ==> s.dataReady)
    && ((s.t.TBreakTest? || s.t.TFinish?) && !s.stop ==> s.dataReady)
    && (!s.t.TBegin? ==> s.claimed <= Last(s.passes))
    && |s.passes| + One(s.t.TBegin?) + One(s.dataReady) <= s.interrupts
  }

  lemma StepKeepsInv(s: State, choice: Choice)
    requires WakeInv(s) && FlagInv(s)
    ensures WakeInv(Step(s, choice)) && FlagInv(Step(s, choice))
  {
    StepKeepsWake(s, choice);
    StepKeepsFlag(s, choice);
  }

  lemma StepKeepsWake(s: State, choice: Choice)
    requires WakeInv(s)
    ensures WakeInv(Step(s, choice))
  {
  }

  lemma StepKeepsFlag(s: State, choice: Choice)
    requires FlagInv(s)
    ensures FlagInv(Step(s, choice))
  {
    if choice.RunThread? {
      ThreadKeepsFlag(s);
    }
  }

  lemma ThreadKeepsFlag(s: State)
    requires FlagInv(s)
    ensures FlagInv(ThreadStep(s))
  {
    match s.t
    case TClear =>
    case TBegin => assert Last(ThreadStep(s).passes) == s.interrupts;
    case TTestReady(_) =>
    case TTestStop(_) =>
    case _ => QuietThreadKeepsFlag(s);
  }

  /** The steps that look at neither the flag nor the passes. */
  lemma QuietThreadKeepsFlag(s: State)
    requires FlagInv(s)
    requires !s.t.TClear? && !s.t.TBegin? && !s.t.TTestReady? && !s.t.TTestStop?
    ensures FlagInv(ThreadStep(s))
  {
  }

  lemma {:induction false} EveryStateOfARun(run: seq<State>, k: nat)
    requires IsRun(run) && k < |run|
    ensures WakeInv(run[k]) && FlagInv(run[k])
  {
    if k > 0 {
      EveryStateOfARun(run, k - 1);
      assert Next(run[k - 1], run[k]);
      var choice :| run[k] == Step(run[k - 1], choice);
      StepKeepsInv(run[k - 1], choice);
    }
  }

  // ---------------------------------------------------------------- what holds of every run

  /** No lost wake-up: if the thread sleeps although there is work or a request to stop, the handler or
      the remover that caused it still has its wake-up call to make. */
  lemma NoLostWakeup(run: seq<State>, k: nat)
    requires IsRun(run) && k < |run|
    requires run[k].t.TSleep? && !run[k].runnable
    ensures run[k].dataReady ==> run[k].isr.IWake?
    ensures run[k].stop ==> run[k].remove.RWake?
  {
    EveryStateOfARun(run, k);
  }

  /** Every interrupt, early or late, is followed by a pass that began after it, or is still recorded in
      the flag, or has just been taken from it by the thread, whose next step begins the pass. */
  lemma EveryInterruptIsServedOrRecorded(run: seq<State>, k: nat, interrupt: nat)
    requires IsRun(run) && k < |run|
    requires 1 <= interrupt <= run[k].interrupts
    ensures run[k].dataReady || run[k].t.TBegin?
         || exists j :: 0 <= j < |run[k].passes| && interrupt <= run[k].passes[j]
    ensures run[k].t.TBegin? ==> interrupt <= Last(ThreadStep(run[k]).passes)
  {
    EveryStateOfARun(run, k);
    var s := run[k];
    if !s.dataReady && !s.t.TBegin? {
      assert interrupt <= s.passes[|s.passes| - 1];
    }
  }

  /** No pass without cause: at every moment of a run there have been at least as many interrupts as
      passes, one more if the flag is up. */
  lemma PassesNeverExceedInterrupts(run: seq<State>, k: nat)
    requires IsRun(run) && k < |run|
    ensures |run[k].passes| + One(run[k].dataReady) <= run[k].interrupts
  {
    EveryStateOfARun(run, k);
  }

  // ---------------------------------------------------------------- stopping

  /** How many of its own steps the thread can still take once it is asked to stop. */
  function StepsToExit(t: ThreadPc): nat {
    match t
    case TExited => 0
    case TLoop => 1
    case TBreakTest => 1
    case TWork => 2
    case TBegin => 3
    case TClear => 4
    case TFinish => 2
    case TTestStop(_) => 3
    case TTestReady(_) => 4
    case TPrepare => 5
    case TSleep => 6
  }

  predicate StopUnderWay(s: State) {
    WakeInv(s) && s.stop && !s.remove.RWake?
  }

  /** From the moment the remover has made its wake-up call, nothing undoes the request to stop, every
      step of the thread brings it closer to its exit, and no other step takes it further away. */
  lemma EveryStepHelps(s: State, choice: Choice)
    requires StopUnderWay(s)
    ensures StopUnderWay(Step(s, choice))
    ensures StepsToExit(Step(s, choice).t) <= StepsToExit(s.t)
    ensures choice.RunThread? && !s.t.TExited? ==> StepsToExit(Step(s, choice).t) < StepsToExit(s.t)
  {
    StepKeepsWake(s, choice);
  }

  function ThreadSteps(schedule: seq<Choice>): nat {
    if schedule == [] then 0
    else ThreadSteps(schedule[..|schedule| - 1]) + (if schedule[|schedule| - 1].RunThread? then 1 else 0)
  }

  lemma {:induction false} StepsAreOccurrences(schedule: seq<Choice>)
    ensures ThreadSteps(schedule) == multiset(schedule)[RunThread]
  {
    if schedule != [] {
      var shorter, choice := schedule[..|schedule| - 1], schedule[|schedule| - 1];
      StepsAreOccurrences(shorter);
      assert schedule == shorter + [choice];
    }
  }

  function After(s: State, schedule: seq<Choice>): State {
    if schedule == [] then s else Step(After(s, schedule[..|schedule| - 1]), schedule[|schedule| - 1])
  }

  /** kthread_stop cannot hang: wherever the thread was when asked to stop, asleep or processing, six
      of its own steps, interleaved in any way with anything else, bring it to its exit, and the
      remover's join then returns. */
  lemma StopIsPrompt(run: seq<State>, k: nat, schedule: seq<Choice>)
    requires IsRun(run) && k < |run|
    requires run[k].stop && !run[k].remove.RWake?
    requires 6 <= ThreadSteps(schedule)
    ensures After(run[k], schedule).t.TExited?
    ensures var s := After(run[k], schedule); s.remove.RJoin? ==> RemoveStep(s).remove.RDone?
  {
    EveryStateOfARun(run, k);
    Closer(run[k], schedule);
  }

  lemma {:induction false} Closer(s: State, schedule: seq<Choice>)
    requires StopUnderWay(s)
    ensures StopUnderWay(After(s, schedule))
    ensures StepsToExit(After(s, schedule).t) <= StepsToExit(s.t)
    ensures StepsToExit(After(s, schedule).t) == 0 || StepsToExit(After(s, schedule).t) + ThreadSteps(schedule) <= StepsToExit(s.t)
  {
    if schedule != [] {
      var shorter := schedule[..|schedule| - 1];
      Closer(s, shorter);
      EveryStepHelps(After(s, shorter), schedule[|schedule| - 1]);
    }
  }

  // ---------------------------------------------------------------- serving an interrupt

  /** How many of its own steps the thread is away from having begun a pass, with the flag up. */
  function StepsToPass(t: ThreadPc): nat {
    match t
    case TExited => 0
    case TBegin => 1
    case TClear => 2
    case TBreakTest => 3
    case TFinish => 4
    case TTestReady(looping) => if looping then 5 else 4
    case TLoop => 5
    case TWork => 6
    case TPrepare => 6
    case TSleep => 7
    case TTestStop(looping) => if looping then 8 else 7
  }

  /** The interrupt has not had its pass yet, and nothing stands between the thread and that pass. */
  predicate Due(s: State, interrupt: nat) {
    && WakeInv(s) && FlagInv(s) && !s.stop && interrupt <= s.interrupts
    && (s.t.TBegin? || (s.dataReady && (s.t.TSleep? || s.t.TTestStop? ==> s.runnable)))
  }

  predicate Served(s: State, interrupt: nat) {
    interrupt <= Last(s.passes)
  }

  lemma PassComesCloser(s: State, choice: Choice, interrupt: nat)
    requires Due(s, interrupt) && !choice.CallRemove?
    ensures Served(Step(s, choice), interrupt) || Due(Step(s, choice), interrupt)
    ensures Served(Step(s, choice), interrupt)
         || StepsToPass(Step(s, choice).t) + One(choice.RunThread?) <= StepsToPass(s.t)
  {
    StepKeepsInv(s, choice);
  }

  lemma ServedStays(s: State, choice: Choice, interrupt: nat)
    requires FlagInv(s) && Served(s, interrupt) && interrupt <= s.interrupts
    ensures Served(Step(s, choice), interrupt) && interrupt <= Step(s, choice).interrupts
  {
  }

  /** Every interrupt is served: once its handler has returned, and unless the driver is being removed,
      eight steps of the thread, interleaved with any further interrupts, are enough for a pass that
      began after it, wherever the thread was: asleep, going to sleep or processing. */
  lemma EveryInterruptIsServedSoon(run: seq<State>, k: nat, schedule: seq<Choice>, interrupt: nat)
    requires IsRun(run) && k < |run|
    requires interrupt <= run[k].interrupts && !run[k].isr.IWake? && !run[k].stop
    requires forall i :: 0 <= i < |schedule| ==> !schedule[i].CallRemove?
    requires 8 <= ThreadSteps(schedule)
    ensures Served(After(run[k], schedule), interrupt)
  {
    EveryStateOfARun(run, k);
    DueOrServed(run[k], schedule, interrupt);
  }

  lemma {:induction false} DueOrServed(s: State, schedule: seq<Choice>, interrupt: nat)
    requires WakeInv(s) && FlagInv(s) && interrupt <= s.interrupts
    requires Served(s, interrupt) || Due(s, interrupt)
    requires forall i :: 0 <= i < |schedule| ==> !schedule[i].CallRemove?
    ensures var u := After(s, schedule);
      && WakeInv(u) && FlagInv(u) && interrupt <= u.interrupts
      && (Served(u, interrupt)
          || (Due(u, interrupt) && 1 <= StepsToPass(u.t) && StepsToPass(u.t) + ThreadSteps(schedule) <= StepsToPass(s.t)))
  {
    if schedule != [] {
      var shorter, choice := schedule[..|schedule| - 1], schedule[|schedule| - 1];
      DueOrServed(s, shorter, interrupt);
      var u := After(s, shorter);
      StepKeepsInv(u, choice);
      if Served(u, interrupt) {
        ServedStays(u, choice, interrupt);
      } else {
        PassComesCloser(u, choice, interrupt);
      }
    }
  }

  // ---------------------------------------------------------------- from the choices of the scheduler

  lemma {:induction false} AfterBoth(s: State, a: seq<Choice>, b: seq<Choice>)
    ensures After(s, a + b) == After(After(s, a), b)
  {
    if b == [] {
      assert a + b == a;
    } else {
      AfterBoth(s, a, b[..|b| - 1]);
      assert (a + b)[..|a + b| - 1] == a + b[..|b| - 1];
    }
  }

  lemma AfterOne(s: State, choice: Choice)
    ensures After(s, [choice]) == Step(s, choice)
  {
    assert [choice][..0] == [];
    assert After(s, []) == s;
  }

  lemma Then(s: State, a: seq<Choice>, choice: Choice)
    ensures After(s, a + [choice]) == Step(After(s, a), choice)
  {
    assert (a + [choice])[..|a|] == a;
  }

  /** How often in a schedule the handler sets the flag. */
  function HandlerRuns(s: State, schedule: seq<Choice>): nat {
    if schedule == [] then 0
    else
      var shorter, choice := schedule[..|schedule| - 1], schedule[|schedule| - 1];
      HandlerRuns(s, shorter) + One(choice.RunIsr? && After(s, shorter).isr.ISet?)
  }

  lemma StepCounts(s: State, choice: Choice)
    ensures Step(s, choice).interrupts == s.interrupts + One(choice.RunIsr? && s.isr.ISet?)
  {
  }

  /** Nothing else counts as an interrupt, and no run of the handler fails to. */
  lemma {:induction false} InterruptsAreHandlerRuns(s: State, schedule: seq<Choice>)
    ensures After(s, schedule).interrupts == s.interrupts + HandlerRuns(s, schedule)
  {
    if schedule != [] {
      InterruptsAreHandlerRuns(s, schedule[..|schedule| - 1]);
      StepCounts(After(s, schedule[..|schedule| - 1]), schedule[|schedule| - 1]);
    }
  }

  lemma StepHolds(s: State, choice: Choice)
    requires !choice.RunIsr? && !s.isr.IIdle?
    ensures Step(s, choice).isr == s.isr
  {
  }

  /** The handler stays where it is while it gets no turn. */
  lemma {:induction false} HandlerHolds(s: State, schedule: seq<Choice>)
    requires forall i :: 0 <= i < |schedule| ==> !schedule[i].RunIsr?
    requires !s.isr.IIdle?
    ensures After(s, schedule).isr == s.isr
  {
    if schedule != [] {
      HandlerHolds(s, schedule[..|schedule| - 1]);
      StepHolds(After(s, schedule[..|schedule| - 1]), schedule[|schedule| - 1]);
    }
  }

  predicate Running(s: State) {
    WakeInv(s) && FlagInv(s) && !s.stop
  }

  lemma StepRunsOn(s: State, choice: Choice)
    requires Running(s) && !choice.CallRemove?
    ensures Running(Step(s, choice)) && s.interrupts <= Step(s, choice).interrupts
  {
    StepKeepsInv(s, choice);
  }

  lemma {:induction false} RunsOn(s: State, schedule: seq<Choice>)
    requires Running(s)
    requires forall i :: 0 <= i < |schedule| ==> !schedule[i].CallRemove?
    ensures Running(After(s, schedule)) && s.interrupts <= After(s, schedule).interrupts
  {
    if schedule != [] {
      RunsOn(s, schedule[..|schedule| - 1]);
      StepRunsOn(After(s, schedule[..|schedule| - 1]), schedule[|schedule| - 1]);
    }
  }

  /** A press of the button: the handler's two steps with anything in between, removal apart. */
  ghost predicate Pressed(press: seq<Choice>, before: seq<Choice>, between: seq<Choice>) {
    && press == [RaiseInterrupt] + before + [RunIsr] + between + [RunIsr]
    && (forall i :: 0 <= i < |before| ==> !before[i].RunIsr? && !before[i].CallRemove?)
    && (forall i :: 0 <= i < |between| ==> !between[i].RunIsr? && !between[i].CallRemove?)
  }

  lemma SetterRuns(s: State)
    requires Running(s) && s.isr.ISet?
    ensures Running(Step(s, RunIsr)) && Step(s, RunIsr).isr.IWake? && s.interrupts < Step(s, RunIsr).interrupts
  {
    StepKeepsInv(s, RunIsr);
  }

  lemma WakerRuns(s: State)
    requires Running(s) && s.isr.IWake?
    ensures Running(Step(s, RunIsr)) && Step(s, RunIsr).isr.IIdle? && s.interrupts <= Step(s, RunIsr).interrupts
  {
    StepKeepsInv(s, RunIsr);
  }

  lemma PressIsRecorded(s: State, press: seq<Choice>, before: seq<Choice>, between: seq<Choice>)
    requires Running(s) && s.isr.IIdle? && Pressed(press, before, between)
    ensures Running(After(s, press)) && After(s, press).isr.IIdle? && s.interrupts < After(s, press).interrupts
  {
    var raised := Step(s, RaiseInterrupt);
    StepRunsOn(s, RaiseInterrupt);
    var waited := After(raised, before);
    HandlerHolds(raised, before);
    RunsOn(raised, before);
    var flagged := Step(waited, RunIsr);
    SetterRuns(waited);
    var held := After(flagged, between);
    HandlerHolds(flagged, between);
    RunsOn(flagged, between);
    WakerRuns(held);
    PressLeadsThere(s, before, between);
  }

  lemma PressLeadsThere(s: State, before: seq<Choice>, between: seq<Choice>)
    ensures After(s, [RaiseInterrupt] + before + [RunIsr] + between + [RunIsr])
         == Step(After(Step(After(Step(s, RaiseInterrupt), before), RunIsr), between), RunIsr)
  {
    var a := [RaiseInterrupt] + before;
    AfterOne(s, RaiseInterrupt);
    AfterBoth(s, [RaiseInterrupt], before);
    Then(s, a, RunIsr);
    AfterBoth(s, a + [RunIsr], between);
    Then(s, a + [RunIsr] + between, RunIsr);
  }

  /** Every press of the button is processed: whenever the interrupt is raised, however the handler's two
      steps interleave with thread and anything else but a removal, eight steps of the thread later a
      pass has begun that counts this interrupt. */
  lemma EveryPressIsServed(run: seq<State>, k: nat, press: seq<Choice>, before: seq<Choice>, between: seq<Choice>,
                           schedule: seq<Choice>)
    requires IsRun(run) && k < |run| && run[k].isr.IIdle? && !run[k].stop
    requires Pressed(press, before, between)
    requires forall i :: 0 <= i < |schedule| ==> !schedule[i].CallRemove?
    requires 8 <= ThreadSteps(schedule)
    ensures var u := After(run[k], press + schedule);
      u.passes != [] && run[k].interrupts < u.passes[|u.passes| - 1]
  {
    EveryStateOfARun(run, k);
    PressIsRecorded(run[k], press, before, between);
    var u := After(run[k], press);
    DueOrServed(u, schedule, u.interrupts);
    AfterBoth(run[k], press, schedule);
  }

  lemma {:induction false} RemoverHolds(s: State, schedule: seq<Choice>)
    requires forall i :: 0 <= i < |schedule| ==> !schedule[i].RunRemove?
    requires WakeInv(s) && s.remove.RWake?
    ensures WakeInv(After(s, schedule)) && After(s, schedule).remove.RWake?
  {
    if schedule != [] {
      RemoverHolds(s, schedule[..|schedule| - 1]);
      RemoverWaits(After(s, schedule[..|schedule| - 1]), schedule[|schedule| - 1]);
    }
  }

  lemma RemoverWaits(s: State, choice: Choice)
    requires WakeInv(s) && s.remove.RWake? && !choice.RunRemove?
    ensures WakeInv(Step(s, choice)) && Step(s, choice).remove.RWake?
  {
    StepKeepsWake(s, choice);
  }

  predicate Joining(s: State) {
    s.remove.RJoin? || s.remove.RDone?
  }

  lemma JoiningStays(s: State, choice: Choice)
    requires Joining(s)
    ensures Joining(Step(s, choice))
  {
  }

  lemma {:induction false} JoinsOn(s: State, schedule: seq<Choice>)
    requires Joining(s)
    ensures Joining(After(s, schedule))
  {
    if schedule != [] {
      JoinsOn(s, schedule[..|schedule| - 1]);
      JoiningStays(After(s, schedule[..|schedule| - 1]), schedule[|schedule| - 1]);
    }
  }

  lemma RemovalBegins(s: State)
    requires WakeInv(s) && s.remove.RIdle?
    ensures WakeInv(Step(s, CallRemove)) && Step(s, CallRemove).remove.RWake?
  {
    StepKeepsWake(s, CallRemove);
  }

  lemma RemoverWakes(s: State)
    requires WakeInv(s) && s.remove.RWake?
    ensures StopUnderWay(Step(s, RunRemove)) && Joining(Step(s, RunRemove))
  {
    StepKeepsWake(s, RunRemove);
  }

  lemma JoinReturns(s: State)
    requires Joining(s) && s.t.TExited?
    ensures Step(s, RunRemove).remove.RDone? && Step(s, RunRemove).t.TExited?
  {
  }

  /** Removing the driver succeeds, whenever it is called: however its steps interleave with interrupts and
      the thread, wherever the thread is, six steps of the thread after the wake-up it has exited, and
      the join returns. */
  lemma RemovalSucceeds(run: seq<State>, k: nat, before: seq<Choice>, schedule: seq<Choice>)
    requires IsRun(run) && k < |run| && run[k].remove.RIdle?
    requires forall i :: 0 <= i < |before| ==> !before[i].RunRemove?
    requires 6 <= ThreadSteps(schedule)
    ensures var u := After(run[k], [CallRemove] + before + [RunRemove] + schedule + [RunRemove]);
      u.remove.RDone? && u.t.TExited?
  {
    EveryStateOfARun(run, k);
    var called := Step(run[k], CallRemove);
    RemovalBegins(run[k]);
    var waited := After(called, before);
    RemoverHolds(called, before);
    var woken := Step(waited, RunRemove);
    RemoverWakes(waited);
    Closer(woken, schedule);
    JoinsOn(woken, schedule);
    JoinReturns(After(woken, schedule));
    RemovalLeadsThere(run[k], before, schedule);
  }

  lemma RemovalLeadsThere(s: State, before: seq<Choice>, schedule: seq<Choice>)
    ensures After(s, [CallRemove] + before + [RunRemove] + schedule + [RunRemove])
         == Step(After(Step(After(Step(s, CallRemove), before), RunRemove), schedule), RunRemove)
  {
    var a := [CallRemove] + before;
    AfterOne(s, CallRemove);
    AfterBoth(s, [CallRemove], before);
    Then(s, a, RunRemove);
    AfterBoth(s, a + [RunRemove], schedule);
    Then(s, a + [RunRemove] + schedule, RunRemove);
  }

  // ---------------------------------------------------------------- sleeping

  /** How many of its own steps a thread with nothing to do is away from its sleep. */
  function StepsToSleep(s: State): nat {
    match s.t
    case TBegin => 8
    case TWork => 7
    case TLoop => 6
    case TTestReady(looping) => if !looping then 5 else if s.runnable then 6 else 2
    case TTestStop(looping) => if !looping then 4 else if s.runnable then 5 else 1
    case TPrepare => 3
    case TSleep => if s.runnable then 4 else 0
    case _ => 0
  }

  predicate NothingToDo(s: State) {
    Running(s) && !s.dataReady
  }

  lemma SleepComesCloser(s: State)
    requires NothingToDo(s)
    ensures NothingToDo(ThreadStep(s))
    ensures StepsToSleep(s) == 0 ==> s.t.TSleep? && !s.runnable && ThreadStep(s) == s
    ensures StepsToSleep(s) > 0 ==> StepsToSleep(ThreadStep(s)) < StepsToSleep(s)
  {
    StepKeepsInv(s, RunThread);
  }

  lemma {:induction false} GoesToSleep(s: State, schedule: seq<Choice>)
    requires NothingToDo(s) && forall i :: 0 <= i < |schedule| ==> schedule[i].RunThread?
    ensures NothingToDo(After(s, schedule))
    ensures StepsToSleep(After(s, schedule)) == 0 || StepsToSleep(After(s, schedule)) + |schedule| <= StepsToSleep(s)
  {
    if schedule != [] {
      GoesToSleep(s, schedule[..|schedule| - 1]);
      SleepComesCloser(After(s, schedule[..|schedule| - 1]));
    }
  }

  /** The thread does not spin: with the flag down and no request to stop, eight of its steps, if nothing
      else happens, put it to sleep, not to run again until it is woken. */
  lemma ThreadSleeps(run: seq<State>, k: nat, schedule: seq<Choice>)
    requires IsRun(run) && k < |run| && !run[k].dataReady && !run[k].stop
    requires 8 <= |schedule| && forall i :: 0 <= i < |schedule| ==> schedule[i].RunThread?
    ensures After(run[k], schedule).t.TSleep? && !After(run[k], schedule).runnable
  {
    EveryStateOfARun(run, k);
    GoesToSleep(run[k], schedule);
    SleepComesCloser(After(run[k], schedule));
  }
}
