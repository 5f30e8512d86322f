/** The DMA character device: every write is copied from one buffer to the other by the DMA engine. The
    driver, the engine, its callback and the timeout interleave at every step, and every call that can
    fail may fail. Calls of the driver are serialised: it takes no lock of its own. */
module DmaCharDriver {
  import opened CharDevice
  import opened DmaBus
  import opened DriverBasics

  /** Where dev_write stands, do_dma_transfer included; `len` is the clamped length. */
  datatype Pc =
    | Ready
    | CopyFromUser(data: seq<Byte>)
    | ClearDst(len: nat)
    | DoMapSrc(len: nat)
    | DoMapDst(len: nat)
    | UndoMapSrc(len: nat)
    | Prepare(len: nat)
    | Reinit(len: nat)
    | Submit(len: nat)
    | IssuePending(len: nat)
    | Wait(len: nat)
    | TerminateSync(len: nat)
    | QueryStatus(len: nat, satisfiedBy: nat)
    | DoUnmapDst(len: nat, ret: int)
    | DoUnmapSrc(len: nat, ret: int)
    | Return(len: nat, ret: int)

  /** `given` is what the write under way was asked to store; `stored` is what the last write stored, if
      it succeeded and no write has begun since. */
  datatype State = State(bus: Bus, pc: Pc, dataLen: nat, given: seq<Byte>, stored: Option<seq<Byte>>)

  /** `ok` lets a call that can fail succeed; `copied` is how far copy_from_user gets when it does not.
      A wait whose completion is signalled succeeds; otherwise it stays, or times out if not `ok`. */
  datatype Choice =
    | CallWrite(data: seq<Byte>)
    | CallRead
    | Drive(ok: bool, copied: nat)
    | RunEngine(engine: EngineChoice)

  function Init(capacity: nat, src: seq<Byte>, dst: seq<Byte>): State
    requires |src| == |dst| == capacity
  {
    State(Bus(src, dst, false, false, Idle, InProgress, 0, [], false), Ready, 0, [], None)
  }

  function Drive1(s: State, ok: bool, copied: nat): State {
    var b := s.bus;
    match s.pc
    case Ready => s
    case CopyFromUser(data) =>
      var len := Min(|data|, |b.src|);
      if ok then
        s.(bus := CpuSrc(b, data[..len] + b.src[len..]), pc := ClearDst(len))
      else
        var n := Min(copied, len);
        s.(bus := CpuSrc(b, data[..n] + b.src[n..]), pc := Return(len, -EFAULT))
    case ClearDst(len) =>
      s.(bus := CpuDst(b, seq(|b.dst|, _ => 0)), pc := DoMapSrc(len))
    case DoMapSrc(len) =>
      if ok then s.(bus := MapSrc(b), pc := DoMapDst(len)) else s.(pc := Return(len, -ENOMEM))
    case DoMapDst(len) =>
      if ok then s.(bus := MapDst(b), pc := Prepare(len)) else s.(pc := UndoMapSrc(len))
    case UndoMapSrc(len) =>
      s.(bus := UnmapSrc(b), pc := Return(len, -ENOMEM))
    case Prepare(len) =>
      s.(pc := if ok then Reinit(len) else DoUnmapDst(len, -EIO))
    case Reinit(len) =>
      s.(bus := b.(done := []), pc := Submit(len))
    case Submit(len) =>
      s.(pc := if ok then IssuePending(len) else DoUnmapDst(len, -EIO))
    case IssuePending(len) =>
      s.(bus := Issue(b, len), pc := Wait(len))
    case Wait(len) =>
      if b.done != [] then s.(bus := b.(done := b.done[1..]), pc := QueryStatus(len, b.done[0]))
      else if !ok then s.(pc := TerminateSync(len))
      else s
    case TerminateSync(len) =>
      s.(bus := Terminate(b), pc := DoUnmapDst(len, -ETIMEDOUT))
    case QueryStatus(len, _) =>
      s.(pc := DoUnmapDst(len, if b.status.Complete? && ok then 0 else -EIO))
    case DoUnmapDst(len, ret) =>
      s.(bus := UnmapDst(b), pc := DoUnmapSrc(len, ret))
    case DoUnmapSrc(len, ret) =>
      s.(bus := UnmapSrc(b), pc := Return(len, ret))
    case Return(len, ret) =>
      if ret == 0 then s.(pc := Ready, dataLen := len, stored := Some(s.given)) else s.(pc := Ready)
  }

  function Step(s: State, choice: Choice): State {
    match choice
    case CallWrite(data) =>
      if s.pc.Ready? then
        s.(pc := CopyFromUser(data), bus := s.bus.(transfer := s.bus.transfer + 1),
           given := data[..Min(|data|, |s.bus.src|)], stored := None)
      else s
    case CallRead =>
      // dev_read touches the destination buffer; what it hands out is Piece(dst[..dataLen], off, len).
      if s.pc.Ready? then s.(bus := CpuDst(s.bus, s.bus.dst)) else s
    case Drive(ok, copied) => Drive1(s, ok, copied)
    case RunEngine(e) => s.(bus := EngineStep(s.bus, e))
  }

  ghost predicate Next(s: State, t: State) {
    exists choice :: t == Step(s, choice)
  }

  /** A run, from buffers holding anything. */
  ghost predicate IsRun(capacity: nat, run: seq<State>) {
    && run != []
    && |run[0].bus.src| == |run[0].bus.dst| == capacity
    && run[0] == Init(capacity, run[0].bus.src, run[0].bus.dst)
    && forall k :: 0 < k < |run| ==> StepAt(run, k)
  }

  ghost predicate StepAt(run: seq<State>, k: nat)
    requires 0 < k < |run|
  {
    Next(run[k - 1], run[k])
  }

  // ---------------------------------------------------------------- the invariant

  /** Who owns the buffers, at every point of the driver. */
  ghost predicate Ownership(s: State) {
    match s.pc
    case Ready => Owned(s.bus)
    case CopyFromUser(_) => Owned(s.bus)
    case ClearDst(_) => Owned(s.bus)
    case DoMapSrc(_) => Owned(s.bus)
    case DoMapDst(_) => !s.bus.fault && s.bus.engine.Idle? && s.bus.srcMapped && !s.bus.dstMapped
    case UndoMapSrc(_) => !s.bus.fault && s.bus.engine.Idle? && s.bus.srcMapped && !s.bus.dstMapped
    case Prepare(_) => Lent(s.bus)
    case Reinit(_) => Lent(s.bus)
    case Submit(_) => Lent(s.bus) && s.bus.done == []
    case IssuePending(_) => Lent(s.bus) && s.bus.done == []
    case Wait(len) => InFlight(s.bus, len)
    case TerminateSync(len) => InFlight(s.bus, len)
    case QueryStatus(len, t) =>
      Lent(s.bus) && t == s.bus.transfer && (s.bus.status.Complete? ==> Copied(s.bus.src, s.bus.dst, len))
    case DoUnmapDst(len, ret) => Lent(s.bus) && (ret == 0 ==> Copied(s.bus.src, s.bus.dst, len))
    case DoUnmapSrc(len, ret) =>
      !s.bus.fault && s.bus.engine.Idle? && s.bus.srcMapped && !s.bus.dstMapped && (ret == 0 ==> Copied(s.bus.src, s.bus.dst, len))
    case Return(len, ret) => Owned(s.bus) && (ret == 0 ==> Copied(s.bus.src, s.bus.dst, len))
  }

  /** What is being stored, and what a successful write has stored. */
  ghost predicate Contents(s: State, capacity: nat) {
    && |s.bus.src| == |s.bus.dst| == capacity
    && s.dataLen <= capacity && |s.given| <= capacity
    && (s.stored.Some? ==> s.pc.Ready? && s.dataLen == |s.stored.value| && s.bus.dst[..s.dataLen] == s.stored.value)
    && match s.pc
       case Ready => true
       case CopyFromUser(data) => s.given == data[..Min(|data|, capacity)]
       case Return(len, ret) => ret == 0 ==> len == |s.given| && s.bus.src[..len] == s.given && ZeroBeyond(s.bus.dst, len)
       case ClearDst(len) => len == |s.given| && s.bus.src[..len] == s.given
       case _ => s.pc.len == |s.given| && s.bus.src[..s.pc.len] == s.given && ZeroBeyond(s.bus.dst, s.pc.len)
  }

  predicate ZeroBeyond(dst: seq<Byte>, len: nat) {
    forall i :: len <= i < |dst| ==> dst[i] == 0
  }

  lemma StepKeepsInv(s: State, capacity: nat, choice: Choice)
    requires Ownership(s) && Contents(s, capacity)
    ensures Ownership(Step(s, choice)) && Contents(Step(s, choice), capacity)
  {
    match choice
    case RunEngine(e) =>
      if s.pc.Wait? || s.pc.TerminateSync? {
        EngineKeepsFlight(s.bus, s.pc.len, e);
      } else {
        EngineRestsWhenIdle(s.bus, e);
      }
    case Drive(ok, copied) => DriveKeepsInv(s, capacity, ok, copied);
    case CallWrite(_) =>
    case CallRead =>
  }

  lemma DriveKeepsInv(s: State, capacity: nat, ok: bool, copied: nat)
    requires Ownership(s) && Contents(s, capacity)
    ensures Ownership(Drive1(s, ok, copied)) && Contents(Drive1(s, ok, copied), capacity)
  {
    match s.pc
    case IssuePending(len) => IssueStartsFlight(s.bus, len);
    case Wait(len) =>
      if s.bus.done != [] {
        WaitSucceeds(s.bus, len);
      }
    case _ =>
  }

  lemma {:induction false} EveryStateOfARun(capacity: nat, run: seq<State>, k: nat)
    requires IsRun(capacity, run) && k < |run|
    ensures Ownership(run[k]) && Contents(run[k], capacity)
  {
    if k > 0 {
      EveryStateOfARun(capacity, run, k - 1);
      assert StepAt(run, k);
      var choice :| run[k] == Step(run[k - 1], choice);
      StepKeepsInv(run[k - 1], capacity, choice);
    }
  }

  /** Some run leads here. */
  ghost predicate Reachable(capacity: nat, s: State) {
    exists run :: IsRun(capacity, run) && run[|run| - 1] == s
  }

  lemma InitIsReachable(capacity: nat, src: seq<Byte>, dst: seq<Byte>)
    requires |src| == |dst| == capacity
    ensures Reachable(capacity, Init(capacity, src, dst))
  {
    var run := [Init(capacity, src, dst)];
    assert IsRun(capacity, run) && run[|run| - 1] == Init(capacity, src, dst);
  }

  lemma StepIsReachable(capacity: nat, s: State, choice: Choice)
    requires Reachable(capacity, s)
    ensures Reachable(capacity, Step(s, choice))
  {
    var run :| IsRun(capacity, run) && run[|run| - 1] == s;
    var longer := run + [Step(s, choice)];
    forall k | 0 < k < |longer|
      ensures StepAt(longer, k)
    {
      if k < |run| {
        assert StepAt(run, k);
        assert longer[k - 1] == run[k - 1];
      } else {
        assert longer[k] == Step(longer[k - 1], choice);
      }
    }
    assert IsRun(capacity, longer) && longer[|longer| - 1] == Step(s, choice);
  }

  lemma ReachableIsOk(capacity: nat, s: State)
    requires Reachable(capacity, s)
    ensures Ownership(s) && Contents(s, capacity)
  {
    var run :| IsRun(capacity, run) && run[|run| - 1] == s;
    EveryStateOfARun(capacity, run, |run| - 1);
  }

  // ---------------------------------------------------------------- what holds of every run

  /** In every interleaving and for every choice of failing calls, the engine touches the buffers only
      while both are mapped, the CPU only while unmapped, every mapping is undone once, after the engine
      is done with it, and before the call returns. */
  lemma BuffersChangeHandsCleanly(capacity: nat, run: seq<State>, k: nat)
    requires IsRun(capacity, run) && k < |run|
    ensures !run[k].bus.fault
    ensures run[k].bus.engine.Copying? ==> run[k].bus.srcMapped && run[k].bus.dstMapped
    ensures run[k].pc.Ready? || run[k].pc.Return? ==> Owned(run[k].bus)
  {
    EveryStateOfARun(capacity, run, k);
  }

  /** A zero result means what it says: the destination holds what was to be stored, and nothing of an
      earlier message. */
  lemma ZeroMeansCopied(capacity: nat, run: seq<State>, k: nat)
    requires IsRun(capacity, run) && k < |run|
    requires run[k].pc.Return? && run[k].pc.ret == 0
    ensures var s := run[k];
      && s.pc.len == |s.given| && s.pc.len <= |s.bus.dst| && s.pc.len <= |s.bus.src|
      && s.bus.dst[..s.pc.len] == s.bus.src[..s.pc.len] == s.given
      && ZeroBeyond(s.bus.dst, s.pc.len)
  {
    EveryStateOfARun(capacity, run, k);
  }

  /** A wait that succeeds was satisfied by the callback of its own transfer, never by a stale one left
      behind by a transfer that timed out. */
  lemma WaitIsSatisfiedByItsOwnCallback(capacity: nat, run: seq<State>, k: nat)
    requires IsRun(capacity, run) && k < |run|
    ensures run[k].pc.Wait? && run[k].bus.done != [] ==> run[k].bus.done == [run[k].bus.transfer] && run[k].bus.engine.Idle?
    ensures run[k].pc.QueryStatus? ==> run[k].pc.satisfiedBy == run[k].bus.transfer
  {
    EveryStateOfARun(capacity, run, k);
  }

  /** After a write that succeeded, and whatever reads have happened since, a reader at any offset, 0
      for a fresh file, gets consecutive pieces of what was written, and nothing beyond it. */
  lemma ReadsReturnWhatWasWritten(capacity: nat, run: seq<State>, k: nat, off: nat, lens: seq<nat>)
    requires IsRun(capacity, run) && k < |run| && run[k].stored.Some?
    ensures var s := run[k]; var written := s.stored.value;
      && s.dataLen <= |s.bus.dst|
      && Join(Pieces(s.bus.dst[..s.dataLen], off, lens)) == Piece(written, off, Sum(lens))
  {
    EveryStateOfARun(capacity, run, k);
    PiecesAreConsecutive(run[k].stored.value, off, lens);
  }
}
