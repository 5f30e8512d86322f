/** The kernel-only DMA module: its load routine allocates two buffers, copies one to the other by DMA,
    compares them and frees them again. Steps of the routine, the engine, its callback and the timeout
    interleave, every call that can fail may fail, and failures unwind through the labels at the end. */
module DmaSelfTest {
  import opened DmaBus
  import opened DriverBasics

  /** Where dma_m2m_init stands, and dma_m2m_exit at the end. */
  datatype Pc =
    | Request
    | AllocSrc
    | AllocDst
    | TestAlloc
    | Fill
    | DoMapSrc
    | DoMapDst
    | Prepare
    | InitCompletion
    | Submit
    | IssuePending
    | Wait
    | TerminateSync
    | QueryStatus
    | DoUnmapDst(complete: bool)
    | DoUnmapSrc(complete: bool)
    | Check(complete: bool)
    | Compare
    | FreeSrc
    | FreeDst
    | ForgetBoth
    | ErrUnmapDst(ret: int)
    | ErrUnmapSrc(ret: int)
    | ErrFreeSrc(ret: int)
    | ErrFreeDst(ret: int)
    | ErrForgetBoth(ret: int)
    | ErrRelease(ret: int)
    | Loaded(ret: int)
    | Exiting
    | Gone

  /** A buffer pointer: null, to memory the module holds, or to memory it has freed. */
  datatype Pointer = Null | Live | Dangling

  /** `misuse` records a use of a buffer that is not allocated, a second free of one, a free of one that is
      mapped or that the engine may still touch, and a release of a channel not held or still at work. */
  datatype State = State(bus: Bus, pc: Pc, channel: bool, srcBuf: Pointer, dstBuf: Pointer,
                         verdict: Verdict, misuse: bool)

  datatype Verdict = NotCompared | Success | Mismatch

  datatype Choice = Drive(ok: bool) | CallExit | RunEngine(engine: EngineChoice)

  function Init(size: nat, src: seq<Byte>, dst: seq<Byte>): State
    requires |src| == |dst| == size
  {
    State(Bus(src, dst, false, false, Idle, InProgress, 0, [], false), Request, false, Null, Null, NotCompared, false)
  }

  /** kfree leaves the pointer as it is: a null pointer stays null, any other now dangles. */
  function AfterFree(p: Pointer): Pointer {
    if p.Null? then Null else Dangling
  }

  /** kfree accepts a null pointer; freeing memory twice, or a buffer the device may still touch, is
      misuse. */
  function FreedSrc(s: State): State {
    s.(srcBuf := AfterFree(s.srcBuf),
       misuse := s.misuse || s.srcBuf.Dangling? || (s.srcBuf.Live? && (s.bus.srcMapped || s.bus.engine.Copying?)))
  }

  function FreedDst(s: State): State {
    s.(dstBuf := AfterFree(s.dstBuf),
       misuse := s.misuse || s.dstBuf.Dangling? || (s.dstBuf.Live? && (s.bus.dstMapped || s.bus.engine.Copying?)))
  }

  function Released(s: State): State {
    s.(channel := false, misuse := s.misuse || !s.channel || !s.bus.engine.Idle?)
  }

  function Touches(s: State): State {
    s.(misuse := s.misuse || !s.srcBuf.Live? || !s.dstBuf.Live?)
  }

  /** The source buffer once cleared and filled: the text, its terminator, zeros. */
  function Filled(text: seq<Byte>, size: nat): (r: seq<Byte>)
    ensures |r| == size
  {
    seq(size, i requires 0 <= i < size => if i < |text| && i + 1 < size then text[i] else 0)
  }

  /** Acquiring the channel, the buffers and the mappings. */
  function DriveSetup(s: State, text: seq<Byte>, ok: bool): State {
    var b := s.bus;
    match s.pc
    case Request => if ok then s.(channel := true, pc := AllocSrc) else s.(pc := Loaded(-ENODEV))
    case AllocSrc => s.(srcBuf := if ok then Live else Null, pc := AllocDst)
    case AllocDst => s.(dstBuf := if ok then Live else Null, pc := TestAlloc)
    case TestAlloc => s.(pc := if s.srcBuf.Null? || s.dstBuf.Null? then ErrFreeSrc(-ENOMEM) else Fill)
    case Fill =>
      Touches(s).(bus := CpuDst(CpuSrc(b, Filled(text, |b.src|)), seq(|b.dst|, _ => 0)), pc := DoMapSrc)
    case DoMapSrc =>
      if ok then Touches(s).(bus := MapSrc(b), pc := DoMapDst) else s.(pc := ErrFreeSrc(-ENOMEM))
    case DoMapDst =>
      if ok then Touches(s).(bus := MapDst(b), pc := Prepare) else s.(pc := ErrUnmapSrc(-ENOMEM))
    case _ => s
  }

  /** The transfer proper, up to the unmapping. */
  function DriveTransfer(s: State, ok: bool): State {
    var b := s.bus;
    match s.pc
    case Prepare => s.(pc := if ok then InitCompletion else ErrUnmapDst(-EIO))
    case InitCompletion => s.(bus := b.(done := []), pc := Submit)
    case Submit => s.(pc := if ok then IssuePending else ErrUnmapDst(-EIO))
    case IssuePending => s.(bus := Issue(b, |b.src|), pc := Wait)
    case Wait =>
      if b.done != [] then s.(bus := b.(done := b.done[1..]), pc := QueryStatus)
      else if !ok then s.(pc := TerminateSync)
      else s
    case TerminateSync => s.(bus := Terminate(b), pc := ErrUnmapDst(-ETIMEDOUT))
    case QueryStatus => s.(pc := DoUnmapDst(b.status.Complete? && ok))
    case DoUnmapDst(complete) => s.(bus := UnmapDst(b), pc := DoUnmapSrc(complete))
    case DoUnmapSrc(complete) => s.(bus := UnmapSrc(b), pc := Check(complete))
    case _ => s
  }

  /** The comparison and the two ways out of the routine, and out of the module. */
  function DriveFinish(s: State): State {
    var b := s.bus;
    match s.pc
    case Check(complete) => s.(pc := if complete then Compare else ErrFreeSrc(-EIO))
    case Compare =>
      Touches(s).(bus := CpuDst(CpuSrc(b, b.src), b.dst), pc := FreeSrc,
                  verdict := if b.src == b.dst then Success else Mismatch)
    case FreeSrc => FreedSrc(s).(pc := FreeDst)
    case FreeDst => FreedDst(s).(pc := ForgetBoth)
    case ForgetBoth => s.(srcBuf := Null, dstBuf := Null, pc := Loaded(0))
    case ErrUnmapDst(ret) => s.(bus := UnmapDst(b), pc := ErrUnmapSrc(ret))
    case ErrUnmapSrc(ret) => s.(bus := UnmapSrc(b), pc := ErrFreeSrc(ret))
    case ErrFreeSrc(ret) => FreedSrc(s).(pc := ErrFreeDst(ret))
    case ErrFreeDst(ret) => FreedDst(s).(pc := ErrForgetBoth(ret))
    case ErrForgetBoth(ret) => s.(srcBuf := Null, dstBuf := Null, pc := ErrRelease(ret))
    case ErrRelease(ret) => (if s.channel then Released(s) else s).(pc := Loaded(ret))
    case Exiting => (if s.channel then Released(s) else s).(pc := Gone)
    case _ => s
  }

  predicate InSetup(pc: Pc) {
    || pc.Request? || pc.AllocSrc? || pc.AllocDst? || pc.TestAlloc? || pc.Fill? || pc.DoMapSrc? || pc.DoMapDst?
  }

  predicate InTransfer(pc: Pc) {
    || pc.Prepare? || pc.InitCompletion? || pc.Submit? || pc.IssuePending? || pc.Wait? || pc.TerminateSync?
    || pc.QueryStatus? || pc.DoUnmapDst? || pc.DoUnmapSrc?
  }

  function Drive1(s: State, text: seq<Byte>, ok: bool): State {
    if InSetup(s.pc) then DriveSetup(s, text, ok)
    else if InTransfer(s.pc) then DriveTransfer(s, ok)
    else DriveFinish(s)
  }

  /** Only a module that loaded can be unloaded. */
  function Step(s: State, text: seq<Byte>, choice: Choice): State {
    match choice
    case Drive(ok) => Drive1(s, text, ok)
    case CallExit => if s.pc == Loaded(0) then s.(pc := Exiting) else s
    case RunEngine(e) => s.(bus := EngineStep(s.bus, e))
  }

  ghost predicate Next(text: seq<Byte>, s: State, t: State) {
    exists choice :: t == Step(s, text, choice)
  }

  ghost predicate IsRun(size: nat, text: seq<Byte>, run: seq<State>) {
    && run != []
    && |run[0].bus.src| == |run[0].bus.dst| == size
    && run[0] == Init(size, run[0].bus.src, run[0].bus.dst)
    && forall k :: 0 < k < |run| ==> Next(text, run[k - 1], run[k])
  }

  // ---------------------------------------------------------------- the invariant

  predicate HalfLent(b: Bus) {
    !b.fault && b.engine.Idle? && b.srcMapped && !b.dstMapped
  }

  /** Who owns the buffers, at every point of the routine. */
  ghost predicate Ownership(b: Bus, pc: Pc) {
    match pc
    case DoMapDst => HalfLent(b)
    case Prepare => Lent(b)
    case InitCompletion => Lent(b)
    case Submit => Lent(b) && b.done == []
    case IssuePending => Lent(b) && b.done == []
    case Wait => InFlight(b, |b.src|)
    case TerminateSync => InFlight(b, |b.src|)
    case QueryStatus => Lent(b) && (b.status.Complete? ==> Copied(b.src, b.dst, |b.src|))
    case DoUnmapDst(complete) => Lent(b) && (complete ==> Copied(b.src, b.dst, |b.src|))
    case DoUnmapSrc(complete) => HalfLent(b) && (complete ==> Copied(b.src, b.dst, |b.src|))
    case Check(complete) => Owned(b) && (complete ==> Copied(b.src, b.dst, |b.src|))
    case Compare => Owned(b) && Copied(b.src, b.dst, |b.src|)
    case ErrUnmapDst(_) => Lent(b)
    case ErrUnmapSrc(_) => HalfLent(b)
    case _ => Owned(b)
  }

  /** What is allocated, at every point of the routine. */
  predicate Resources(s: State) {
    && !s.misuse
    && match s.pc
       case Request => !s.channel && s.srcBuf == s.dstBuf == Null
       case AllocSrc => s.channel && s.srcBuf == s.dstBuf == Null
       case AllocDst => s.channel && !s.srcBuf.Dangling? && s.dstBuf.Null?
       case TestAlloc => s.channel && !s.srcBuf.Dangling? && !s.dstBuf.Dangling?
       case FreeDst => s.channel && s.srcBuf.Dangling? && s.dstBuf.Live?
       case ForgetBoth => s.channel && s.srcBuf == s.dstBuf == Dangling
       case ErrFreeSrc(ret) => s.channel && !s.srcBuf.Dangling? && !s.dstBuf.Dangling? && ret != 0
       case ErrFreeDst(ret) => s.channel && !s.srcBuf.Live? && !s.dstBuf.Dangling? && ret != 0
       case ErrForgetBoth(ret) => s.channel && !s.srcBuf.Live? && !s.dstBuf.Live? && ret != 0
       case ErrRelease(ret) => s.channel && s.srcBuf == s.dstBuf == Null && ret != 0
       case ErrUnmapDst(ret) => s.channel && s.srcBuf == s.dstBuf == Live && ret != 0
       case ErrUnmapSrc(ret) => s.channel && s.srcBuf == s.dstBuf == Live && ret != 0
       case Loaded(ret) => (s.channel <==> ret == 0) && s.srcBuf == s.dstBuf == Null
       case Exiting => s.channel && s.srcBuf == s.dstBuf == Null
       case Gone => !s.channel && s.srcBuf == s.dstBuf == Null
       case _ => s.channel && s.srcBuf == s.dstBuf == Live
  }

  predicate Verdicts(s: State) {
    match s.pc
    case FreeSrc => s.verdict.Success?
    case FreeDst => s.verdict.Success?
    case ForgetBoth => s.verdict.Success?
    case Loaded(ret) => s.verdict == if ret == 0 then Success else NotCompared
    case Exiting => s.verdict.Success?
    case Gone => s.verdict.Success?
    case _ => s.verdict.NotCompared?
  }

  predicate Carrying(pc: Pc) {
    pc.DoMapSrc? || pc.DoMapDst? || InTransfer(pc) || pc.Check? || pc.Compare?
  }

  /** What is sent, and what has arrived once the comparison has succeeded. */
  predicate Contents(s: State, text: seq<Byte>) {
    && (Carrying(s.pc) ==> s.bus.src == Filled(text, |s.bus.src|))
    && (s.verdict.Success? ==> s.bus.dst == Filled(text, |s.bus.dst|))
  }

  ghost predicate Inv(s: State, size: nat, text: seq<Byte>) {
    && |s.bus.src| == |s.bus.dst| == size
    && Contents(s, text)
    && Ownership(s.bus, s.pc)
    && Resources(s)
    && Verdicts(s)
  }

  lemma StepKeepsInv(s: State, size: nat, text: seq<Byte>, choice: Choice)
    requires Inv(s, size, text)
    ensures Inv(Step(s, text, choice), size, text)
  {
    match choice
    case RunEngine(e) =>
      if s.pc.Wait? || s.pc.TerminateSync? {
        EngineKeepsFlight(s.bus, |s.bus.src|, e);
      } else {
        EngineRestsWhenIdle(s.bus, e);
      }
    case Drive(ok) => DriveKeepsInv(s, size, text, ok);
    case CallExit =>
  }

  lemma DriveKeepsInv(s: State, size: nat, text: seq<Byte>, ok: bool)
    requires Inv(s, size, text)
    ensures Inv(Drive1(s, text, ok), size, text)
  {
    if InSetup(s.pc) {
      SetupKeepsInv(s, size, text, ok);
    } else if InTransfer(s.pc) {
      TransferKeepsInv(s, size, text, ok);
    } else {
      FinishKeepsInv(s, size, text);
    }
  }

  lemma SetupKeepsInv(s: State, size: nat, text: seq<Byte>, ok: bool)
    requires Inv(s, size, text) && InSetup(s.pc)
    ensures Inv(DriveSetup(s, text, ok), size, text)
  {
  }

  lemma TransferKeepsInv(s: State, size: nat, text: seq<Byte>, ok: bool)
    requires Inv(s, size, text) && InTransfer(s.pc)
    ensures Inv(DriveTransfer(s, ok), size, text)
  {
    if s.pc.IssuePending? {
      IssueStartsFlight(s.bus, |s.bus.src|);
    } else if s.pc.Wait? && s.bus.done != [] {
      WaitSucceeds(s.bus, |s.bus.src|);
    }
  }

  lemma FinishKeepsInv(s: State, size: nat, text: seq<Byte>)
    requires Inv(s, size, text) && !InSetup(s.pc) && !InTransfer(s.pc)
    ensures Inv(DriveFinish(s), size, text)
  {
    if s.pc.Compare? {
      assert s.bus.src == s.bus.src[..size] == s.bus.dst[..size] == s.bus.dst;
    }
  }

  lemma {:induction false} EveryStateOfARun(size: nat, text: seq<Byte>, run: seq<State>, k: nat)
    requires IsRun(size, text, run) && k < |run|
    ensures Inv(run[k], size, text)
  {
    if k > 0 {
      EveryStateOfARun(size, text, run, k - 1);
      assert Next(text, run[k - 1], run[k]);
      var choice :| run[k] == Step(run[k - 1], text, choice);
      StepKeepsInv(run[k - 1], size, text, choice);
    }
  }

  /** Whatever fails and however the steps interleave: buffers change hands cleanly, nothing is used
      before it is allocated, freed twice, or freed while the device may touch it, and the comparison
      never finds a difference. */
  lemma EveryPathIsClean(size: nat, text: seq<Byte>, run: seq<State>, k: nat)
    requires IsRun(size, text, run) && k < |run|
    ensures !run[k].bus.fault && !run[k].misuse && !run[k].verdict.Mismatch?
    ensures run[k].bus.engine.Copying? ==> run[k].bus.srcMapped && run[k].bus.dstMapped && run[k].srcBuf == run[k].dstBuf == Live
    ensures run[k].pc.Fill? || run[k].pc.Compare? ==> Owned(run[k].bus) && run[k].srcBuf == run[k].dstBuf == Live
    ensures run[k].pc.DoMapSrc? || run[k].pc.DoMapDst? ==> run[k].srcBuf == run[k].dstBuf == Live
    ensures run[k].pc.FreeSrc? || run[k].pc.ErrFreeSrc? ==> Owned(run[k].bus) && !run[k].srcBuf.Dangling?
    ensures run[k].pc.FreeDst? || run[k].pc.ErrFreeDst? ==> Owned(run[k].bus) && !run[k].dstBuf.Dangling?
    ensures run[k].pc.ErrRelease? || run[k].pc.Exiting? ==> run[k].channel && run[k].bus.engine.Idle?
  {
    EveryStateOfARun(size, text, run, k);
  }

  /** Load leaves nothing behind: both buffers are freed and unmapped whatever the result; the channel is
      kept exactly when loading succeeded, which it does only after a verified copy of the cleared and
      filled source: as much of the text as fits before a terminator, and zeros behind it. */
  lemma LoadAndUnloadBalance(size: nat, text: seq<Byte>, run: seq<State>, k: nat)
    requires IsRun(size, text, run) && k < |run| && (run[k].pc.Loaded? || run[k].pc.Gone?)
    ensures Owned(run[k].bus) && run[k].srcBuf == run[k].dstBuf == Null
    ensures run[k].channel <==> run[k].pc == Loaded(0)
    ensures run[k].verdict.Success? <==> run[k].pc == Loaded(0) || run[k].pc.Gone?
    ensures run[k].verdict.Success? ==> |run[k].bus.dst| == size
    ensures run[k].verdict.Success? ==> forall i :: 0 <= i < size ==>
      run[k].bus.dst[i] == if i < |text| && i + 1 < size then text[i] else 0
  {
    EveryStateOfARun(size, text, run, k);
  }

  // ---------------------------------------------------------------- what loading answers

  /** A run and the choices of the scheduler that lead through it. */
  ghost predicate Scheduled(size: nat, text: seq<Byte>, run: seq<State>, schedule: seq<Choice>) {
    && |run| == |schedule| + 1
    && |run[0].bus.src| == |run[0].bus.dst| == size
    && run[0] == Init(size, run[0].bus.src, run[0].bus.dst)
    && forall k :: 0 <= k < |schedule| ==> Leads(text, run, schedule, k)
  }

  predicate Leads(text: seq<Byte>, run: seq<State>, schedule: seq<Choice>, k: nat)
    requires k < |schedule| < |run|
  {
    run[k + 1] == Step(run[k], text, schedule[k])
  }

  lemma ScheduledIsRun(size: nat, text: seq<Byte>, run: seq<State>, schedule: seq<Choice>)
    requires Scheduled(size, text, run, schedule)
    ensures IsRun(size, text, run)
  {
    forall k | 0 < k < |run|
      ensures Next(text, run[k - 1], run[k])
    {
      assert Leads(text, run, schedule, k - 1);
    }
  }

  /** The failures: the call the routine is at fails, or its wait finds no completion in time, or its query
      no complete transfer. Each with the error number it stands for. */
  function Failure(s: State, choice: Choice): Option<int> {
    if !choice.Drive? then None
    else if s.pc.QueryStatus? then
      if choice.ok && s.bus.status.Complete? then None else Some(-EIO)
    else if choice.ok then None
    else
      match s.pc
      case Request => Some(-ENODEV)
      case AllocSrc => Some(-ENOMEM)
      case AllocDst => Some(-ENOMEM)
      case DoMapSrc => Some(-ENOMEM)
      case DoMapDst => Some(-ENOMEM)
      case Prepare => Some(-EIO)
      case Submit => Some(-EIO)
      case Wait => if s.bus.done == [] then Some(-ETIMEDOUT) else None
      case _ => None
  }

  function Sooner(first: Option<int>, next: Option<int>): Option<int> {
    if first.Some? then first else next
  }

  /** The first failure among the first k choices. */
  function FirstFailure(run: seq<State>, schedule: seq<Choice>, k: nat): Option<int>
    requires k <= |schedule| < |run|
  {
    if k == 0 then None
    else
      Sooner(FirstFailure(run, schedule, k - 1), Failure(run[k - 1], schedule[k - 1]))
  }

  /** The failure each point of the routine stands for. */
  function Told(s: State): Option<int> {
    match s.pc
    case AllocDst => if s.srcBuf.Null? then Some(-ENOMEM) else None
    case TestAlloc => if s.srcBuf.Null? || s.dstBuf.Null? then Some(-ENOMEM) else None
    case TerminateSync => Some(-ETIMEDOUT)
    case DoUnmapDst(complete) => if complete then None else Some(-EIO)
    case DoUnmapSrc(complete) => if complete then None else Some(-EIO)
    case Check(complete) => if complete then None else Some(-EIO)
    case ErrUnmapDst(ret) => Some(ret)
    case ErrUnmapSrc(ret) => Some(ret)
    case ErrFreeSrc(ret) => Some(ret)
    case ErrFreeDst(ret) => Some(ret)
    case ErrForgetBoth(ret) => Some(ret)
    case ErrRelease(ret) => Some(ret)
    case Loaded(ret) => if ret == 0 then None else Some(ret)
    case _ => None
  }

  /** The first failure so far is the one the point stands for. */
  predicate Tells(s: State, failure: Option<int>) {
    failure == Told(s) != Some(0)
  }

  lemma SetupTells(s: State, text: seq<Byte>, ok: bool, failure: Option<int>)
    requires Tells(s, failure) && InSetup(s.pc)
    ensures Tells(DriveSetup(s, text, ok), Sooner(failure, Failure(s, Drive(ok))))
  {
  }

  lemma TransferTells(s: State, ok: bool, failure: Option<int>)
    requires Tells(s, failure) && InTransfer(s.pc)
    ensures Tells(DriveTransfer(s, ok), Sooner(failure, Failure(s, Drive(ok))))
  {
  }

  lemma FinishTells(s: State, ok: bool, failure: Option<int>)
    requires Tells(s, failure) && !InSetup(s.pc) && !InTransfer(s.pc)
    ensures Tells(DriveFinish(s), Sooner(failure, Failure(s, Drive(ok))))
  {
  }

  lemma StepTells(s: State, text: seq<Byte>, choice: Choice, failure: Option<int>)
    requires Tells(s, failure)
    ensures Tells(Step(s, text, choice), Sooner(failure, Failure(s, choice)))
  {
    match choice
    case Drive(ok) =>
      if InSetup(s.pc) {
        SetupTells(s, text, ok, failure);
      } else if InTransfer(s.pc) {
        TransferTells(s, ok, failure);
      } else {
        FinishTells(s, ok, failure);
      }
    case _ =>
  }

  lemma {:induction false} TellsAlong(size: nat, text: seq<Byte>, run: seq<State>, schedule: seq<Choice>, k: nat)
    requires Scheduled(size, text, run, schedule) && k <= |schedule|
    ensures Tells(run[k], FirstFailure(run, schedule, k))
  {
    if k > 0 {
      TellsAlong(size, text, run, schedule, k - 1);
      assert Leads(text, run, schedule, k - 1);
      StepTells(run[k - 1], text, schedule[k - 1], FirstFailure(run, schedule, k - 1));
    }
  }

  /** Loading answers its first failure, with that failure's error number, and 0 if there was none. */
  lemma LoadAnswersItsFirstFailure(size: nat, text: seq<Byte>, run: seq<State>, schedule: seq<Choice>, k: nat)
    requires Scheduled(size, text, run, schedule) && k <= |schedule| && run[k].pc.Loaded?
    ensures run[k].pc.ret == match FirstFailure(run, schedule, k) case Some(error) => error case None => 0
  {
    TellsAlong(size, text, run, schedule, k);
  }

  /** Nothing fails: every call succeeds, no wait gives up, and the engine reports no error. */
  predicate Smooth(choice: Choice) {
    && (choice.Drive? ==> choice.ok)
    && !(choice.RunEngine? && choice.engine.Fail?)
  }

  ghost predicate AllSmooth(schedule: seq<Choice>) {
    forall k :: 0 <= k < |schedule| ==> Smooth(schedule[k])
  }

  /** Where nothing has failed, the wait can only end in a complete transfer. */
  predicate Untroubled(s: State) {
    && (s.pc.QueryStatus? ==> s.bus.status.Complete?)
    && (s.pc.Submit? || s.pc.IssuePending? ==> s.bus.done == [])
    && (s.pc.Wait? ==>
          match s.bus.engine
          case Copying(_, _) => s.bus.done == []
          case Halted(_) => s.bus.done == [] && s.bus.status.Complete?
          case Idle => s.bus.done != [] && s.bus.status.Complete?)
    && (!s.pc.Wait? ==> s.bus.engine.Idle?)
    && !s.pc.TerminateSync?
  }

  lemma EngineUntroubled(s: State, text: seq<Byte>, e: EngineChoice)
    requires Untroubled(s) && !e.Fail?
    ensures Untroubled(Step(s, text, RunEngine(e)))
  {
  }

  lemma SetupUntroubled(s: State, text: seq<Byte>)
    requires Untroubled(s) && InSetup(s.pc)
    ensures Untroubled(DriveSetup(s, text, true))
  {
  }

  lemma TransferUntroubled(s: State)
    requires Untroubled(s) && InTransfer(s.pc)
    ensures Untroubled(DriveTransfer(s, true))
  {
  }

  lemma FinishUntroubled(s: State)
    requires Untroubled(s) && !InSetup(s.pc) && !InTransfer(s.pc)
    ensures Untroubled(DriveFinish(s))
  {
  }

  lemma StepUntroubled(s: State, text: seq<Byte>, choice: Choice)
    requires Untroubled(s) && Smooth(choice)
    ensures Untroubled(Step(s, text, choice)) && Failure(s, choice).None?
  {
    match choice
    case RunEngine(e) => EngineUntroubled(s, text, e);
    case Drive(_) =>
      if InSetup(s.pc) {
        SetupUntroubled(s, text);
      } else if InTransfer(s.pc) {
        TransferUntroubled(s);
      } else {
        FinishUntroubled(s);
      }
    case CallExit =>
  }

  lemma {:induction false} NoFailure(size: nat, text: seq<Byte>, run: seq<State>, schedule: seq<Choice>, k: nat)
    requires Scheduled(size, text, run, schedule) && AllSmooth(schedule) && k <= |schedule|
    ensures Untroubled(run[k]) && FirstFailure(run, schedule, k).None?
  {
    if k > 0 {
      NoFailure(size, text, run, schedule, k - 1);
      assert Leads(text, run, schedule, k - 1);
      StepUntroubled(run[k - 1], text, schedule[k - 1]);
    }
  }

  /** When nothing fails, whatever the interleaving, loading answers 0 if it answers at all. */
  lemma SmoothLoadSucceeds(size: nat, text: seq<Byte>, run: seq<State>, schedule: seq<Choice>, k: nat)
    requires Scheduled(size, text, run, schedule) && AllSmooth(schedule) && k <= |schedule| && run[k].pc.Loaded?
    ensures run[k].pc == Loaded(0)
  {
    NoFailure(size, text, run, schedule, k);
    LoadAnswersItsFirstFailure(size, text, run, schedule, k);
  }

  function EngineToGo(engine: Engine): nat {
    match engine
    case Copying(_, left) => 2 + |left|
    case Halted(_) => 1
    case Idle => 0
  }

  /** How far a smooth load is from its end. */
  function ToGo(s: State): nat {
    match s.pc
    case Request => 22 + |s.bus.src|
    case AllocSrc => 21 + |s.bus.src|
    case AllocDst => 20 + |s.bus.src|
    case TestAlloc => 19 + |s.bus.src|
    case Fill => 18 + |s.bus.src|
    case DoMapSrc => 17 + |s.bus.src|
    case DoMapDst => 16 + |s.bus.src|
    case Prepare => 15 + |s.bus.src|
    case InitCompletion => 14 + |s.bus.src|
    case Submit => 13 + |s.bus.src|
    case IssuePending => 12 + |s.bus.src|
    case Wait => 9 + EngineToGo(s.bus.engine)
    case QueryStatus => 8
    case DoUnmapDst(_) => 7
    case DoUnmapSrc(_) => 6
    case Check(_) => 5
    case Compare => 4
    case FreeSrc => 3
    case FreeDst => 2
    case ForgetBoth => 1
    case _ => 0
  }

  lemma {:induction false} BelowIsSmall(n: nat)
    ensures |Below(n)| <= n
  {
    if n > 0 {
      BelowIsSmall(n - 1);
    }
  }

  /** While the transfer is under way the engine, or the driver once the callback has run, can go on. */
  lemma TransferGoesOn(s: State, text: seq<Byte>) returns (choice: Choice)
    requires InFlight(s.bus, |s.bus.src|) && Untroubled(s) && s.pc.Wait?
    ensures Smooth(choice)
    ensures ToGo(Step(s, text, choice)) < ToGo(s)
  {
    match s.bus.engine
    case Copying(_, left) =>
      if left == {} {
        choice := RunEngine(Finish);
      } else {
        var i :| i in left;
        choice := RunEngine(CopyByte(i));
        assert |left - {i}| < |left|;
      }
    case Halted(_) => choice := RunEngine(RunCallback);
    case Idle => choice := Drive(true);
  }

  lemma SetupGoesOn(s: State, text: seq<Byte>)
    requires InSetup(s.pc) && (s.pc.TestAlloc? ==> !s.srcBuf.Null? && !s.dstBuf.Null?)
    ensures ToGo(DriveSetup(s, text, true)) < ToGo(s)
  {
  }

  lemma IssueGoesOn(s: State)
    requires s.pc.IssuePending?
    ensures ToGo(DriveTransfer(s, true)) < ToGo(s)
  {
    var t := DriveTransfer(s, true);
    BelowIsSmall(|s.bus.src|);
    assert t.bus.engine == Copying(s.bus.transfer, Below(|s.bus.src|));
    assert ToGo(t) == 9 + EngineToGo(t.bus.engine);
  }

  lemma QuietTransferGoesOn(s: State)
    requires InTransfer(s.pc) && !s.pc.Wait? && !s.pc.TerminateSync? && !s.pc.IssuePending?
    ensures ToGo(DriveTransfer(s, true)) < ToGo(s)
  {
  }

  lemma FinishGoesOn(s: State)
    requires !InSetup(s.pc) && !InTransfer(s.pc) && (s.pc.Check? ==> s.pc.complete) && ToGo(s) > 0
    ensures ToGo(DriveFinish(s)) < ToGo(s)
  {
  }

  lemma DriverGoesOn(s: State, text: seq<Byte>)
    requires Tells(s, None) && !s.pc.Wait? && ToGo(s) > 0
    ensures ToGo(Drive1(s, text, true)) < ToGo(s)
  {
    if InSetup(s.pc) {
      SetupGoesOn(s, text);
    } else if InTransfer(s.pc) {
      if s.pc.IssuePending? {
        IssueGoesOn(s);
      } else {
        QuietTransferGoesOn(s);
      }
    } else {
      FinishGoesOn(s);
    }
  }

  lemma OneMore(size: nat, text: seq<Byte>, run: seq<State>, schedule: seq<Choice>, choice: Choice)
    requires Scheduled(size, text, run, schedule) && AllSmooth(schedule) && Smooth(choice)
    ensures Scheduled(size, text, run + [Step(run[|schedule|], text, choice)], schedule + [choice])
    ensures AllSmooth(schedule + [choice])
  {
    var longer, choices := run + [Step(run[|schedule|], text, choice)], schedule + [choice];
    forall k | 0 <= k < |choices|
      ensures Leads(text, longer, choices, k)
    {
      if k < |schedule| {
        assert Leads(text, run, schedule, k);
      }
    }
  }

  /** A load in which nothing has failed can always still succeed: from wherever it stands, for any size and
      text, some smooth choices bring it to its end, and it answers 0. */
  lemma {:induction false} LoadCanSucceed(size: nat, text: seq<Byte>, run: seq<State>, schedule: seq<Choice>)
    returns (longer: seq<State>, choices: seq<Choice>)
    requires Scheduled(size, text, run, schedule) && AllSmooth(schedule)
    requires !run[|schedule|].pc.Exiting? && !run[|schedule|].pc.Gone?
    ensures Scheduled(size, text, longer, choices) && AllSmooth(choices) && schedule <= choices
    ensures longer[|choices|].pc == Loaded(0)
    decreases ToGo(run[|schedule|])
  {
    var s := run[|schedule|];
    NoFailure(size, text, run, schedule, |schedule|);
    TellsAlong(size, text, run, schedule, |schedule|);
    if ToGo(s) == 0 {
      longer, choices := run, schedule;
    } else {
      var choice := Drive(true);
      if s.pc.Wait? {
        ScheduledIsRun(size, text, run, schedule);
        EveryStateOfARun(size, text, run, |schedule|);
        choice := TransferGoesOn(s, text);
      } else {
        DriverGoesOn(s, text);
      }
      OneMore(size, text, run, schedule, choice);
      var t := Step(s, text, choice);
      assert t.pc.Exiting? || t.pc.Gone? ==> s.pc.Loaded? || s.pc.Exiting?;
      longer, choices := LoadCanSucceed(size, text, run + [t], schedule + [choice]);
    }
  }

  /** A module that has loaded can be unloaded, and that gives the channel back. */
  lemma UnloadReleases(size: nat, text: seq<Byte>, run: seq<State>, k: nat, ok: bool)
    requires IsRun(size, text, run) && k < |run| && run[k].pc == Loaded(0)
    ensures var s := Step(Step(run[k], text, CallExit), text, Drive(ok));
      run[k].channel && s == run[k].(pc := Gone, channel := false)
  {
    EveryStateOfARun(size, text, run, k);
  }
}
