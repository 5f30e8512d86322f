/** Two buffers shared by a CPU and a DMA engine. A streaming mapping hands a buffer to the engine; only
    the unmapping hands it back. Everything the discipline forbids sets `fault`, so that "never a fault"
    says who touched what when. The engine copies byte by byte in any order, may fail or stall at any
    point, and announces the end of a transfer, good or bad, by one callback after its last write.
    Terminating the channel synchronously stops it for good. */
module DmaBus {
  import opened DriverBasics

  datatype Engine =
    | Idle
    | Copying(transfer: nat, left: set<nat>)
    | Halted(transfer: nat)

  datatype Status = InProgress | Complete | Failed

  /** `done` lists, by transfer, the completions signalled and not yet consumed: the completion object
      of the driver is its length. `transfer` numbers the transfers the driver has begun. */
  datatype Bus = Bus(src: seq<Byte>, dst: seq<Byte>, srcMapped: bool, dstMapped: bool,
                     engine: Engine, status: Status, transfer: nat, done: seq<nat>, fault: bool)

  datatype EngineChoice = CopyByte(i: nat) | Finish | Fail | RunCallback

  function EngineStep(b: Bus, choice: EngineChoice): Bus {
    match choice
    case CopyByte(i) =>
      if b.engine.Copying? && i in b.engine.left && i < |b.src| && i < |b.dst| then
        b.(dst := b.dst[i := b.src[i]], engine := Copying(b.engine.transfer, b.engine.left - {i}),
           fault := b.fault || !b.srcMapped || !b.dstMapped)
      else b
    case Finish =>
      if b.engine.Copying? && b.engine.left == {} then
        b.(engine := Halted(b.engine.transfer), status := Complete)
      else b
    case Fail =>
      if b.engine.Copying? then b.(engine := Halted(b.engine.transfer), status := Failed) else b
    case RunCallback =>
      if b.engine.Halted? then b.(engine := Idle, done := b.done + [b.engine.transfer]) else b
  }

  /** The CPU reads or writes a buffer. */
  function CpuSrc(b: Bus, src: seq<Byte>): Bus {
    b.(src := src, fault := b.fault || b.srcMapped)
  }

  function CpuDst(b: Bus, dst: seq<Byte>): Bus {
    b.(dst := dst, fault := b.fault || b.dstMapped)
  }

  function MapSrc(b: Bus): Bus {
    b.(srcMapped := true, fault := b.fault || b.srcMapped)
  }

  function MapDst(b: Bus): Bus {
    b.(dstMapped := true, fault := b.fault || b.dstMapped)
  }

  /** Unmapping takes the buffer back: it must be mapped, and the engine must be done with it. */
  function UnmapSrc(b: Bus): Bus {
    b.(srcMapped := false, fault := b.fault || !b.srcMapped || b.engine.Copying?)
  }

  function UnmapDst(b: Bus): Bus {
    b.(dstMapped := false, fault := b.fault || !b.dstMapped || b.engine.Copying?)
  }

  function Below(n: nat): (r: set<nat>)
    ensures forall i: nat :: i in r <==> i < n
  {
    if n == 0 then {} else Below(n - 1) + {n - 1}
  }

  function Issue(b: Bus, len: nat): Bus {
    b.(engine := Copying(b.transfer, Below(len)), status := InProgress)
  }

  function Terminate(b: Bus): Bus {
    b.(engine := Idle)
  }

  // ---------------------------------------------------------------- what a driver can rely on

  /** The CPU owns both buffers and the engine is at rest. */
  predicate Owned(b: Bus) {
    !b.fault && b.engine.Idle? && !b.srcMapped && !b.dstMapped
  }

  /** Both buffers are with the device, the engine at rest. */
  predicate Lent(b: Bus) {
    !b.fault && b.engine.Idle? && b.srcMapped && b.dstMapped
  }

  ghost predicate Copied(src: seq<Byte>, dst: seq<Byte>, len: nat) {
    len <= |src| && len <= |dst| && dst[..len] == src[..len]
  }

  /** A transfer of `len` bytes is under way. Until its callback nothing is signalled; a completed
      transfer has copied every byte; only this transfer's callback can be waiting to be consumed. */
  ghost predicate InFlight(b: Bus, len: nat) {
    && !b.fault && b.srcMapped && b.dstMapped
    && len <= |b.src| && len <= |b.dst|
    && match b.engine
       case Copying(t, left) =>
         && t == b.transfer && b.done == [] && b.status.InProgress?
         && (forall i :: i in left ==> i < len)
         && (forall i :: 0 <= i < len && i !in left ==> b.dst[i] == b.src[i])
       case Halted(t) =>
         t == b.transfer && b.done == [] && !b.status.InProgress? && (b.status.Complete? ==> Copied(b.src, b.dst, len))
       case Idle =>
         b.done == [b.transfer] && !b.status.InProgress? && (b.status.Complete? ==> Copied(b.src, b.dst, len))
  }

  lemma EngineRestsWhenIdle(b: Bus, choice: EngineChoice)
    requires b.engine.Idle?
    ensures EngineStep(b, choice) == b
  {
  }

  lemma EngineKeepsFlight(b: Bus, len: nat, choice: EngineChoice)
    requires InFlight(b, len)
    ensures InFlight(EngineStep(b, choice), len)
    ensures var c := EngineStep(b, choice);
      c.src == b.src && |c.dst| == |b.dst| && c.transfer == b.transfer
      && forall i :: len <= i < |b.dst| ==> c.dst[i] == b.dst[i]
  {
    if choice.Finish? && b.engine.Copying? && b.engine.left == {} {
      assert forall i :: 0 <= i < len ==> b.dst[i] == b.src[i];
    }
  }

  lemma IssueStartsFlight(b: Bus, len: nat)
    requires Lent(b) && b.done == [] && len <= |b.src| && len <= |b.dst|
    ensures InFlight(Issue(b, len), len)
  {
  }

  /** A wait that succeeds consumes this transfer's own completion and finds the engine at rest. */
  lemma WaitSucceeds(b: Bus, len: nat)
    requires InFlight(b, len) && b.done != []
    ensures b.done[0] == b.transfer && Lent(b)
    ensures b.status.Complete? ==> Copied(b.src, b.dst, len)
    ensures b.done[1..] == []
  {
  }
}
