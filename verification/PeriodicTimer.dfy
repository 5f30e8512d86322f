/** A timer whose callback re-arms it, and the module exit that stops it: raise a flag, then delete the
    timer synchronously. The callback and the exit interleave at every access. The timer core is taken
    at its contract: a pending timer may expire at any time but not while its callback runs, and one
    attempt of the synchronous delete unlinks the timer unless the callback is running. */
module PeriodicTimer {
  import opened DriverBasics

  /** The callback returns by a step of its own: after a re-arm the timer is pending while the callback is
      still running. */
  datatype CallbackPc = NotRunning | Tick | ReadFlag | Rearm | Return

  datatype ExitPc = Loaded | Deleting | Gone

  /** `fired` and `rearmed` count expiries and re-arms, `firedLate` and `rearmedLate` those that came
      after the stop flag was raised. */
  datatype State = State(stopFlag: bool, pending: bool, callback: CallbackPc, exit: ExitPc,
                         fired: nat, rearmed: nat, firedLate: nat, rearmedLate: nat)

  datatype Choice = Expire | RunCallback | CallExit | TryDelete

  /** After my_init: the timer is armed once. */
  function Init(): State {
    State(false, true, NotRunning, Loaded, 0, 0, 0, 0)
  }

  function Step(s: State, choice: Choice): State {
    match choice
    case Expire =>
      if s.pending && s.callback.NotRunning? then
        s.(pending := false, callback := Tick, fired := s.fired + 1, firedLate := s.firedLate + One(s.stopFlag))
      else s
    case RunCallback =>
      (match s.callback
       case NotRunning => s
       case Tick => s.(callback := ReadFlag)
       case ReadFlag => s.(callback := if s.stopFlag then Return else Rearm)
       case Rearm =>
         s.(callback := Return, pending := true, rearmed := s.rearmed + 1,
            rearmedLate := s.rearmedLate + One(s.stopFlag))
       case Return => s.(callback := NotRunning))
    case CallExit =>
      if s.exit.Loaded? then s.(exit := Deleting, stopFlag := true) else s
    case TryDelete =>
      if s.exit.Deleting? && s.callback.NotRunning? then s.(exit := Gone, pending := false) else s
  }

  ghost predicate Next(s: State, u: State) {
    exists choice :: u == Step(s, choice)
  }

  ghost predicate IsRun(run: seq<State>) {
    && run != [] && run[0] == Init()
    && forall k :: 0 < k < |run| ==> Next(run[k - 1], run[k])
  }

  /** While the module is loaded the timer is always either armed or in its callback: the ticking never
      dies out. Once the flag is up, what can still happen is bounded by where the callback stood. */
  predicate Inv(s: State) {
    && (s.stopFlag <==> !s.exit.Loaded?)
    && (!s.stopFlag ==> (s.pending <==> s.callback.NotRunning? || s.callback.Return?) && s.firedLate == s.rearmedLate == 0)
    && (s.callback.Tick? || s.callback.ReadFlag? || s.callback.Rearm? ==> !s.pending)
    && (s.stopFlag ==> s.rearmedLate + One(s.callback.Rearm?) <= 1)
    && (s.stopFlag ==> s.firedLate + One(s.pending) + One(s.callback.Rearm?) <= 1)
    && (s.exit.Gone? ==> !s.pending && s.callback.NotRunning?)
  }

  lemma {:induction false} EveryStateOfARun(run: seq<State>, k: nat)
    requires IsRun(run) && k < |run|
    ensures Inv(run[k])
  {
    if k > 0 {
      EveryStateOfARun(run, k - 1);
      assert Next(run[k - 1], run[k]);
    }
  }

  /** Once exit has begun the late expiries and re-arms are all there are. */
  lemma {:induction false} LateCountsAreExact(run: seq<State>, j: nat, k: nat)
    requires IsRun(run) && j <= k < |run| && !run[j].exit.Loaded?
    ensures run[k].fired - run[j].fired == run[k].firedLate - run[j].firedLate
    ensures run[k].rearmed - run[j].rearmed == run[k].rearmedLate - run[j].rearmedLate
    ensures !run[k].exit.Loaded?
    decreases k
  {
    if j < k {
      LateCountsAreExact(run, j, k - 1);
      EveryStateOfARun(run, k - 1);
      assert Next(run[k - 1], run[k]);
    }
  }

  /** From any moment after exit has been called the callback re-arms the timer at most once and the timer
      expires at most once more; before that it is never both idle and unarmed. */
  lemma AtMostOneLateRearm(run: seq<State>, j: nat, k: nat)
    requires IsRun(run) && j <= k < |run|
    ensures !run[j].exit.Loaded? ==> run[k].rearmed <= run[j].rearmed + 1 && run[k].fired <= run[j].fired + 1
    ensures run[j].exit.Loaded? ==> run[j].pending || !run[j].callback.NotRunning?
  {
    EveryStateOfARun(run, j);
    EveryStateOfARun(run, k);
    if !run[j].exit.Loaded? {
      LateCountsAreExact(run, j, k);
    }
  }

  /** Once exit has returned the timer is neither pending nor in its callback, and it never fires or is
      re-armed again: no later step changes anything. */
  lemma {:induction false} SilentAfterExit(run: seq<State>, j: nat, k: nat)
    requires IsRun(run) && j <= k < |run| && run[j].exit.Gone?
    ensures !run[j].pending && run[j].callback.NotRunning?
    ensures run[k] == run[j]
    decreases k
  {
    EveryStateOfARun(run, j);
    if j < k {
      SilentAfterExit(run, j, k - 1);
      assert Next(run[k - 1], run[k]);
    }
  }

  // ---------------------------------------------------------------- the synchronous delete terminates

  /** How many steps the callback can still take once the flag is up. */
  function Remaining(s: State): nat {
    match s.callback
    case Rearm => 5
    case Return => if s.pending then 4 else 1
    case NotRunning => if s.pending then 3 else 0
    case Tick => 3
    case ReadFlag => 2
  }

  predicate Runs(s: State, choice: Choice) {
    choice.RunCallback? && !s.callback.NotRunning?
  }

  lemma EveryStepHelps(s: State, choice: Choice)
    requires Inv(s) && s.stopFlag
    ensures Inv(Step(s, choice)) && Step(s, choice).stopFlag
    ensures Remaining(Step(s, choice)) + One(Runs(s, choice)) <= Remaining(s)
  {
  }

  function After(s: State, schedule: seq<Choice>): State {
    if schedule == [] then s else Step(After(s, schedule[..|schedule| - 1]), schedule[|schedule| - 1])
  }

  /** How many steps the callback takes in a schedule. */
  function CallbackSteps(s: State, schedule: seq<Choice>): nat {
    if schedule == [] then 0
    else
      var shorter := schedule[..|schedule| - 1];
      CallbackSteps(s, shorter) + One(Runs(After(s, shorter), schedule[|schedule| - 1]))
  }

  /** The moments at which the callback moves. */
  ghost function Moves(s: State, schedule: seq<Choice>): set<nat> {
    set i: nat | i < |schedule| && MovesAt(s, schedule, i)
  }

  predicate MovesAt(s: State, schedule: seq<Choice>, i: nat)
    requires i < |schedule|
  {
    Runs(After(s, schedule[..i]), schedule[i])
  }

  lemma SameMoves(s: State, schedule: seq<Choice>, last: Choice, i: nat)
    requires i < |schedule|
    ensures MovesAt(s, schedule + [last], i) <==> MovesAt(s, schedule, i)
  {
    assert (schedule + [last])[..i] == schedule[..i];
  }

  lemma OneMoreMove(s: State, schedule: seq<Choice>, last: Choice)
    ensures Moves(s, schedule + [last])
         == Moves(s, schedule) + (if Runs(After(s, schedule), last) then {|schedule|} else {})
  {
    forall i: nat | i < |schedule|
      ensures MovesAt(s, schedule + [last], i) <==> MovesAt(s, schedule, i)
    {
      SameMoves(s, schedule, last, i);
    }
    assert (schedule + [last])[..|schedule|] == schedule;
  }

  lemma {:induction false} CallbackStepsAreMoves(s: State, schedule: seq<Choice>)
    ensures CallbackSteps(s, schedule) == |Moves(s, schedule)|
  {
    if schedule != [] {
      var shorter, last := schedule[..|schedule| - 1], schedule[|schedule| - 1];
      CallbackStepsAreMoves(s, shorter);
      assert schedule == shorter + [last];
      OneMoreMove(s, shorter, last);
    }
  }

  /** del_timer_sync cannot loop for ever: from the moment the flag is up, however the steps
      interleave, the callback takes at most five more steps, and an attempt made when it is not
      running succeeds; so after the fifth step every attempt does. */
  lemma DeleteTerminates(run: seq<State>, k: nat, schedule: seq<Choice>)
    requires IsRun(run) && k < |run| && run[k].stopFlag
    ensures CallbackSteps(run[k], schedule) <= 5
    ensures var s := After(run[k], schedule);
      CallbackSteps(run[k], schedule) == 5 || s.callback.NotRunning? ==> Step(s, TryDelete).exit.Gone?
  {
    EveryStateOfARun(run, k);
    StepsRunOut(run[k], schedule);
  }

  lemma {:induction false} StepsRunOut(s: State, schedule: seq<Choice>)
    requires Inv(s) && s.stopFlag
    ensures Inv(After(s, schedule)) && After(s, schedule).stopFlag
    ensures CallbackSteps(s, schedule) + Remaining(After(s, schedule)) <= Remaining(s)
  {
    if schedule != [] {
      var shorter := schedule[..|schedule| - 1];
      StepsRunOut(s, shorter);
      EveryStepHelps(After(s, shorter), schedule[|schedule| - 1]);
    }
  }

  // ---------------------------------------------------------------- from the choices of the scheduler

  lemma {:induction false} AfterBoth(s: State, a: seq<Choice>, b: seq<Choice>)
    ensures After(s, a + b) == After(After(s, a), b)
  {
    if b == [] {
      assert a + b == a;
    } else {
      AfterBoth(s, a, b[..|b| - 1]);
      assert (a + b)[..|a + b| - 1] == a + b[..|b| - 1];
    }
  }

  lemma AfterOne(s: State, choice: Choice)
    ensures After(s, [choice]) == Step(s, choice)
  {
    assert [choice][..0] == [];
    assert After(s, []) == s;
  }

  /** How often the callback gets a turn in a schedule. */
  function CallbackTurns(schedule: seq<Choice>): nat {
    if schedule == [] then 0
    else CallbackTurns(schedule[..|schedule| - 1]) + One(schedule[|schedule| - 1].RunCallback?)
  }

  lemma {:induction false} TurnsAreOccurrences(schedule: seq<Choice>)
    ensures CallbackTurns(schedule) == multiset(schedule)[RunCallback]
  {
    if schedule != [] {
      var shorter, choice := schedule[..|schedule| - 1], schedule[|schedule| - 1];
      TurnsAreOccurrences(shorter);
      assert schedule == shorter + [choice];
    }
  }

  /** While the module is loaded every expiry has led to a re-arm, except that the callback of the last one
      may still be on its way there. */
  predicate Ticks(s: State) {
    Inv(s) && s.exit.Loaded? && s.fired == s.rearmed + One(s.callback.Tick? || s.callback.ReadFlag? || s.callback.Rearm?)
  }

  /** How many steps the callback is away from returning. */
  function StepsToReturn(callback: CallbackPc): nat {
    match callback
    case NotRunning => 0
    case Return => 1
    case Rearm => 2
    case ReadFlag => 3
    case Tick => 4
  }

  lemma TicksOn(s: State, choice: Choice)
    requires Ticks(s) && !choice.CallExit?
    ensures Ticks(Step(s, choice)) && s.fired <= Step(s, choice).fired
    ensures Step(s, choice).fired == s.fired ==>
      Step(s, choice).callback.NotRunning?
      || StepsToReturn(Step(s, choice).callback) + One(choice.RunCallback?) <= StepsToReturn(s.callback)
  {
  }

  lemma {:induction false} TicksAlong(s: State, schedule: seq<Choice>)
    requires Ticks(s)
    requires forall i :: 0 <= i < |schedule| ==> !schedule[i].CallExit?
    ensures var u := After(s, schedule);
      && Ticks(u) && s.fired <= u.fired
      && (u.fired == s.fired ==>
            u.callback.NotRunning? || StepsToReturn(u.callback) + CallbackTurns(schedule) <= StepsToReturn(s.callback))
  {
    if schedule != [] {
      TicksAlong(s, schedule[..|schedule| - 1]);
      TicksOn(After(s, schedule[..|schedule| - 1]), schedule[|schedule| - 1]);
    }
  }

  lemma {:induction false} LoadedMeansTicking(run: seq<State>, k: nat)
    requires IsRun(run) && k < |run| && run[k].exit.Loaded?
    ensures Ticks(run[k])
  {
    if k > 0 {
      assert Next(run[k - 1], run[k]);
      LoadedMeansTicking(run, k - 1);
    }
  }

  /** The timer keeps its promise to be periodic: until exit is called, in any run, four turns of the
      callback after an expiry the timer has been re-armed and, unless it has expired again since, the
      callback has returned and the timer is pending. */
  lemma EveryExpiryRearms(run: seq<State>, k: nat, schedule: seq<Choice>)
    requires IsRun(run) && k < |run| && run[k].exit.Loaded? && run[k].callback.NotRunning?
    requires forall i :: 0 <= i < |schedule| ==> !schedule[i].CallExit?
    requires 4 <= CallbackTurns(schedule)
    ensures var u := After(run[k], [Expire] + schedule);
      && run[k].rearmed < u.rearmed
      && (u.fired == run[k].fired + 1 ==> u.pending && u.callback.NotRunning? && u.rearmed == run[k].rearmed + 1)
  {
    LoadedMeansTicking(run, k);
    var s := Step(run[k], Expire);
    TicksOn(run[k], Expire);
    TicksAlong(s, schedule);
    AfterOne(run[k], Expire);
    AfterBoth(run[k], [Expire], schedule);
  }

  /** Unloading succeeds, whenever exit is called: raising the flag counts from the call, not from where the
      callback stood, so however the steps interleave the callback takes at most five more, and once it
      has, or whenever it is not running, the delete returns. */
  lemma ExitReturns(run: seq<State>, k: nat, schedule: seq<Choice>)
    requires IsRun(run) && k < |run| && run[k].exit.Loaded?
    ensures var s := Step(run[k], CallExit);
      && CallbackSteps(s, schedule) <= 5
      && (CallbackSteps(s, schedule) == 5 || After(s, schedule).callback.NotRunning? ==>
            var u := After(run[k], [CallExit] + schedule + [TryDelete]);
            u.exit.Gone? && !u.pending && u.callback.NotRunning?)
  {
    EveryStateOfARun(run, k);
    var s := Step(run[k], CallExit);
    StepsRunOut(s, schedule);
    AfterOne(run[k], CallExit);
    AfterBoth(run[k], [CallExit], schedule);
    AfterBoth(run[k], [CallExit] + schedule, [TryDelete]);
    AfterOne(After(s, schedule), TryDelete);
  }
}
