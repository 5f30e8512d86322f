/** The DMA character device as its code reads: two buffers filled in place, and a transfer routine with
    one way out. While the driver waits, and between its calls, the engine takes turns of its own. Every
    call is shadowed, step by step, by a run of the machine of DmaCharDriver, so what holds of every run
    holds of the code. */
module DmaCharDevice {
  import opened CharDevice
  import opened DmaBus
  import opened DriverBasics
  import Machine = DmaCharDriver

  /** The buffers, the mappings, the engine and the completion object, updated in place. */
  class Hardware {
    const src: array<Byte>
    const dst: array<Byte>
    var srcMapped: bool
    var dstMapped: bool
    var engine: Engine
    var status: Status
    var transfer: nat
    var done: seq<nat>
    ghost var fault: bool

    ghost function Value(): Bus
      reads this, src, dst
    {
      Bus(src[..], dst[..], srcMapped, dstMapped, engine, status, transfer, done, fault)
    }

    constructor (capacity: nat)
      ensures fresh(src) && fresh(dst) && src != dst && src.Length == dst.Length == capacity
      ensures Value() == Machine.Init(capacity, src[..], dst[..]).bus
    {
      src := new Byte[capacity](_ => 0);
      dst := new Byte[capacity](_ => 0);
      srcMapped, dstMapped, engine, status, transfer, done := false, false, Idle, InProgress, 0, [];
      fault := false;
    }

    /** copy_from_user, as far as user memory lets it. */
    method CopyFromUser(data: seq<Byte>, n: nat)
      requires src != dst && n <= |data| && n <= src.Length
      modifies this`fault, src
      ensures Value() == CpuSrc(old(Value()), data[..n] + old(src[..])[n..])
    {
      var i := 0;
      while i < n
        invariant i <= n && dst[..] == old(dst[..]) && fault == old(fault)
        invariant forall j :: 0 <= j < i ==> src[j] == data[j]
        invariant forall j :: i <= j < src.Length ==> src[j] == old(src[j])
      {
        src[i] := data[i];
        i := i + 1;
      }
      assert src[..] == data[..n] + old(src[..])[n..];
      fault := fault || srcMapped;
    }

    /** memset */
    method ClearDst()
      requires src != dst
      modifies this`fault, dst
      ensures Value() == CpuDst(old(Value()), seq(dst.Length, _ => 0))
    {
      var i := 0;
      while i < dst.Length
        invariant i <= dst.Length && src[..] == old(src[..]) && fault == old(fault)
        invariant forall j :: 0 <= j < i ==> dst[j] == 0
      {
        dst[i] := 0;
        i := i + 1;
      }
      assert dst[..] == seq(dst.Length, _ => 0);
      fault := fault || dstMapped;
    }

    /** dma_map_single and dma_unmap_single, of either buffer. */
    method MapSrc()
      modifies this`srcMapped, this`fault
      ensures Value() == DmaBus.MapSrc(old(Value()))
    {
      fault := fault || srcMapped;
      srcMapped := true;
    }

    method MapDst()
      modifies this`dstMapped, this`fault
      ensures Value() == DmaBus.MapDst(old(Value()))
    {
      fault := fault || dstMapped;
      dstMapped := true;
    }

    method UnmapSrc()
      modifies this`srcMapped, this`fault
      ensures Value() == DmaBus.UnmapSrc(old(Value()))
    {
      fault := fault || !srcMapped || engine.Copying?;
      srcMapped := false;
    }

    method UnmapDst()
      modifies this`dstMapped, this`fault
      ensures Value() == DmaBus.UnmapDst(old(Value()))
    {
      fault := fault || !dstMapped || engine.Copying?;
      dstMapped := false;
    }

    /** One turn of the engine. */
    method Turn(choice: EngineChoice)
      requires src != dst
      modifies this`engine, this`status, this`done, this`fault, dst
      ensures Value() == EngineStep(old(Value()), choice)
    {
      match choice
      case CopyByte(i) =>
        if engine.Copying? && i in engine.left && i < src.Length && i < dst.Length {
          dst[i] := src[i];
          engine := Copying(engine.transfer, engine.left - {i});
          fault := fault || !srcMapped || !dstMapped;
        }
      case Finish =>
        if engine.Copying? && engine.left == {} {
          engine, status := Halted(engine.transfer), Complete;
        }
      case Fail =>
        if engine.Copying? {
          engine, status := Halted(engine.transfer), Failed;
        }
      case RunCallback =>
        if engine.Halted? {
          engine, done := Idle, done + [engine.transfer];
        }
    }
  }

  /** What the calls of one write meet: how far copy_from_user gets, which calls succeed, and the turns
      the engine gets while the driver waits, after it has given up, and before each of its other
      calls. */
  datatype Weather = Weather(copies: bool, copied: nat, srcMaps: bool, dstMaps: bool, prepares: bool, submits: bool,
                             meanwhile: seq<EngineChoice>, late: seq<EngineChoice>, between: nat -> seq<EngineChoice>,
                             reports: bool)

  /** What the wait finds when the engine takes these turns: the verdict of the transfer, once its
      callback has run, or nothing if time runs out first. */
  function Await(left: set<nat>, verdict: Status, turns: seq<EngineChoice>): Option<Status>
    decreases |turns|
  {
    if turns == [] then None
    else
      match turns[0]
      case CopyByte(i) => Await(left - {i}, verdict, turns[1..])
      case Finish => Await(left, if verdict.InProgress? && left == {} then Complete else verdict, turns[1..])
      case Fail => if verdict.InProgress? then Await({}, Failed, turns[1..]) else Await(left, verdict, turns[1..])
      case RunCallback => if verdict.InProgress? then Await(left, verdict, turns[1..]) else Some(verdict)
  }

  /** What dev_write answers: the first failure on its way, or the number of bytes. */
  function Answer(len: nat, w: Weather): int {
    if !w.copies then -EFAULT
    else if !w.srcMaps || !w.dstMaps then -ENOMEM
    else if !w.prepares || !w.submits then -EIO
    else
      match Await(Below(len), InProgress, w.meanwhile)
      case None => -ETIMEDOUT
      case Some(verdict) => if verdict.Complete? && w.reports then len else -EIO
  }

  /** The engine's turns while the driver waits include its callback, with this verdict. */
  predicate Finds(len: nat, w: Weather, verdict: Status) {
    Await(Below(len), InProgress, w.meanwhile) == Some(verdict)
  }

  /** The conditions under which the driver gets as far as its wait. */
  predicate Waits(w: Weather) {
    w.copies && w.srcMaps && w.dstMaps && w.prepares && w.submits
  }

  /** Which error means what: each is the answer exactly for the calls that failed, and a number of bytes is
      the answer exactly if none did; it is the number asked for. */
  lemma AnswersTell(len: nat, w: Weather)
    ensures Answer(len, w) == -EFAULT <==> !w.copies
    ensures Answer(len, w) == -ENOMEM <==> w.copies && (!w.srcMaps || !w.dstMaps)
    ensures Answer(len, w) == -ETIMEDOUT <==>
      (Waits(w) && Await(Below(len), InProgress, w.meanwhile).None?)
    ensures Answer(len, w) == -EIO <==>
      (w.copies && w.srcMaps && w.dstMaps
       && (!w.prepares || !w.submits || (Await(Below(len), InProgress, w.meanwhile).Some? && !(Finds(len, w, Complete) && w.reports))))
    ensures Answer(len, w) == len <==> (Waits(w) && Finds(len, w, Complete) && w.reports)
  {
  }

  /** The transfer's result, zero or an error, is the answer without the length. */
  predicate Answers(ret: int, len: nat, w: Weather) {
    ret <= 0 && Answer(len, w) == if ret == 0 then len else ret
  }

  function Pending(engine: Engine): set<nat> {
    if engine.Copying? then engine.left else {}
  }

  lemma AwaitTurn(b: Bus, len: nat, turns: seq<EngineChoice>)
    requires InFlight(b, len) && b.done == [] && turns != []
    ensures var c := EngineStep(b, turns[0]);
      Await(Pending(b.engine), b.status, turns)
      == if c.done != [] then Some(c.status) else Await(Pending(c.engine), c.status, turns[1..])
  {
    if turns[0].CopyByte? && turns[0].i !in Pending(b.engine) {
      assert Pending(b.engine) - {turns[0].i} == Pending(b.engine);
    }
  }

  /** The engine can only be found to have finished if it has copied every byte. */
  lemma {:induction false} FinishingTakesEveryByte(left: set<nat>, turns: seq<EngineChoice>, i: nat)
    requires Await(left, InProgress, turns) == Some(Complete) && i in left
    ensures CopyByte(i) in turns
    decreases |turns|
  {
    if turns[0] != CopyByte(i) {
      if turns[0].Fail? {
        FailureStays(turns[1..]);
      }
      FinishingTakesEveryByte(if turns[0].CopyByte? then left - {turns[0].i} else left, turns[1..], i);
    }
  }

  lemma {:induction false} FailureStays(turns: seq<EngineChoice>)
    ensures Await({}, Failed, turns) != Some(Complete)
  {
    if turns != [] {
      FailureStays(turns[1..]);
      if turns[0].CopyByte? {
        assert {} - {turns[0].i} == {};
      }
    }
  }

  lemma SliceOfPrefix(s: seq<Byte>, n: nat, off: nat, count: nat)
    requires off + count <= n <= |s|
    ensures s[..n][off..off + count] == s[off..off + count]
  {
  }

  class Driver {
    const hw: Hardware
    var dataLen: nat
    ghost var now: Machine.State

    /** The driver is at this point of its code, in a state that some run of the machine reaches. */
    ghost predicate At(pc: Machine.Pc)
      reads this, hw, hw.src, hw.dst
    {
      && hw.src != hw.dst && hw.src.Length == hw.dst.Length
      && Machine.Reachable(hw.src.Length, now)
      && now.bus == hw.Value() && now.dataLen == dataLen && now.pc == pc
    }

    ghost predicate Valid()
      reads this, hw, hw.src, hw.dst
    {
      At(Machine.Ready)
    }

    constructor (capacity: nat)
      ensures Valid() && fresh(hw) && fresh(hw.src) && fresh(hw.dst)
      ensures hw.src.Length == capacity && dataLen == 0
    {
      hw := new Hardware(capacity);
      dataLen := 0;
      new;
      now := Machine.Init(capacity, hw.src[..], hw.dst[..]);
      Machine.InitIsReachable(capacity, hw.src[..], hw.dst[..]);
    }

    /** The machine takes the step the code has just taken. */
    ghost method Advance(choice: Machine.Choice)
      requires hw.src != hw.dst && hw.src.Length == hw.dst.Length && Machine.Reachable(hw.src.Length, now)
      requires Machine.Step(now, choice).bus == hw.Value()
      requires Machine.Step(now, choice).dataLen == dataLen
      modifies this`now
      ensures now == Machine.Step(old(now), choice)
      ensures At(now.pc)
    {
      Machine.StepIsReachable(hw.src.Length, now, choice);
      now := Machine.Step(now, choice);
    }

    // ---------------------------------------------------------------- the calls on the DMA API

    method MapSrc(len: nat, ok: bool)
      requires At(Machine.DoMapSrc(len))
      modifies this`now, hw`srcMapped, hw`fault
      ensures At(if ok then Machine.DoMapDst(len) else Machine.Return(len, -ENOMEM))
      ensures now.given == old(now.given)
    {
      if ok {
        hw.MapSrc();
      }
      Advance(Machine.Drive(ok, 0));
    }

    method MapDst(len: nat, ok: bool)
      requires At(Machine.DoMapDst(len))
      modifies this`now, hw`dstMapped, hw`fault
      ensures At(if ok then Machine.Prepare(len) else Machine.UndoMapSrc(len))
      ensures now.given == old(now.given)
    {
      if ok {
        hw.MapDst();
      }
      Advance(Machine.Drive(ok, 0));
    }

    method UnmapSrc(len: nat, ret: int)
      requires At(now.pc)
      requires now.pc == Machine.DoUnmapSrc(len, ret) || (now.pc == Machine.UndoMapSrc(len) && ret == -ENOMEM)
      modifies this`now, hw`srcMapped, hw`fault
      ensures At(Machine.Return(len, ret))
      ensures now.given == old(now.given)
    {
      hw.UnmapSrc();
      Advance(Machine.Drive(true, 0));
    }

    method UnmapDst(len: nat, ret: int)
      requires At(Machine.DoUnmapDst(len, ret))
      modifies this`now, hw`dstMapped, hw`fault
      ensures At(Machine.DoUnmapSrc(len, ret))
      ensures now.given == old(now.given)
    {
      hw.UnmapDst();
      Advance(Machine.Drive(true, 0));
    }

    method PrepMemcpy(len: nat, ok: bool)
      requires At(Machine.Prepare(len))
      modifies this`now
      ensures At(if ok then Machine.Reinit(len) else Machine.DoUnmapDst(len, -EIO))
      ensures now.given == old(now.given)
    {
      Advance(Machine.Drive(ok, 0));
    }

    method ReinitCompletion(len: nat)
      requires At(Machine.Reinit(len))
      modifies this`now, hw`done
      ensures At(Machine.Submit(len))
      ensures now.given == old(now.given)
    {
      hw.done := [];
      Advance(Machine.Drive(true, 0));
    }

    method Submit(len: nat, ok: bool)
      requires At(Machine.Submit(len))
      modifies this`now
      ensures At(if ok then Machine.IssuePending(len) else Machine.DoUnmapDst(len, -EIO))
      ensures now.given == old(now.given)
    {
      Advance(Machine.Drive(ok, 0));
    }

    method IssuePending(len: nat)
      requires At(Machine.IssuePending(len))
      modifies this`now, hw`engine, hw`status
      ensures At(Machine.Wait(len)) && hw.done == []
      ensures hw.engine == Copying(hw.transfer, Below(len)) && hw.status == InProgress
      ensures now.given == old(now.given)
    {
      Machine.ReachableIsOk(hw.src.Length, now);
      hw.engine, hw.status := Copying(hw.transfer, Below(len)), InProgress;
      Advance(Machine.Drive(true, 0));
    }

    /** wait_for_completion_timeout: time runs out when the engine has taken all its turns. */
    method WaitForCompletion(turns: seq<EngineChoice>, len: nat) returns (inTime: bool)
      requires At(Machine.Wait(len)) && hw.done == []
      modifies this`now, hw`engine, hw`status, hw`done, hw`fault, hw.dst
      ensures At(if inTime then Machine.QueryStatus(len, hw.transfer) else Machine.TerminateSync(len))
      ensures now.given == old(now.given)
      ensures Await(Pending(old(hw.engine)), old(hw.status), turns) == if inTime then Some(hw.status) else None
      ensures inTime ==> hw.engine.Idle?
    {
      var i := 0;
      while hw.done == [] && i < |turns|
        invariant 0 <= i <= |turns|
        invariant At(Machine.Wait(len)) && now.given == old(now.given)
        invariant Await(Pending(old(hw.engine)), old(hw.status), turns)
               == if hw.done != [] then Some(hw.status) else Await(Pending(hw.engine), hw.status, turns[i..])
        decreases |turns| - i
      {
        EngineTurn(turns[i..], len);
        i := i + 1;
      }
      inTime := hw.done != [];
      TakeCompletion(len);
      if inTime {
        Machine.ReachableIsOk(hw.src.Length, now);
      }
    }

    /** The engine takes the next turn while the driver waits. */
    method EngineTurn(turns: seq<EngineChoice>, len: nat)
      requires At(Machine.Wait(len)) && hw.done == [] && turns != []
      modifies this`now, hw`engine, hw`status, hw`done, hw`fault, hw.dst
      ensures At(Machine.Wait(len)) && now.given == old(now.given)
      ensures Await(Pending(old(hw.engine)), old(hw.status), turns)
           == if hw.done != [] then Some(hw.status) else Await(Pending(hw.engine), hw.status, turns[1..])
    {
      Machine.ReachableIsOk(hw.src.Length, now);
      AwaitTurn(hw.Value(), len, turns);
      hw.Turn(turns[0]);
      Advance(Machine.RunEngine(turns[0]));
    }

    /** Consumes the completion if there is one; otherwise the time has run out. */
    method TakeCompletion(len: nat)
      requires At(Machine.Wait(len))
      modifies this`now, hw`done
      ensures At(if old(hw.done) != [] then Machine.QueryStatus(len, hw.transfer) else Machine.TerminateSync(len))
      ensures now.given == old(now.given)
    {
      if hw.done != [] {
        Machine.ReachableIsOk(hw.src.Length, now);
        WaitSucceeds(hw.Value(), len);
        hw.done := hw.done[1..];
      }
      Advance(Machine.Drive(false, 0));
    }

    /** The engine takes turns while the driver is at some point of its code; at rest it does nothing. */
    method EngineTurns(turns: seq<EngineChoice>, ghost pc: Machine.Pc)
      requires At(pc)
      modifies this`now, hw`engine, hw`status, hw`done, hw`fault, hw.dst
      ensures At(pc) && now.given == old(now.given)
      ensures old(hw.engine).Idle? ==> hw.Value() == old(hw.Value())
    {
      var i := 0;
      while i < |turns|
        invariant At(pc) && now.given == old(now.given)
        invariant old(hw.engine).Idle? ==> hw.Value() == old(hw.Value())
      {
        hw.Turn(turns[i]);
        Advance(Machine.RunEngine(turns[i]));
        i := i + 1;
      }
    }

    /** dmaengine_terminate_sync */
    method TerminateSync(len: nat)
      requires At(Machine.TerminateSync(len))
      modifies this`now, hw`engine
      ensures At(Machine.DoUnmapDst(len, -ETIMEDOUT))
      ensures now.given == old(now.given)
    {
      hw.engine := Idle;
      Advance(Machine.Drive(true, 0));
    }

    method IsTxComplete(len: nat, reports: bool) returns (ret: int)
      requires At(Machine.QueryStatus(len, hw.transfer))
      modifies this`now
      ensures At(Machine.DoUnmapDst(len, ret))
      ensures ret == if hw.status.Complete? && reports then 0 else -EIO
      ensures now.given == old(now.given)
    {
      Advance(Machine.Drive(reports, 0));
      return if hw.status.Complete? && reports then 0 else -EIO;
    }

    // ---------------------------------------------------------------- the driver's own code

    /** do_dma_transfer between the mappings: every failure leads to the label that unmaps. */
    method RunTransfer(len: nat, weather: Weather) returns (ret: int)
      requires At(Machine.Prepare(len))
      modifies this`now, hw`engine, hw`status, hw`done, hw`fault, hw.dst
      ensures At(Machine.DoUnmapDst(len, ret))
      ensures now.given == old(now.given)
      ensures weather.copies && weather.srcMaps && weather.dstMaps ==> Answers(ret, len, weather)
    {
      PrepMemcpy(len, weather.prepares);
      if !weather.prepares {
        return -EIO;
      }
      EngineTurns(weather.between(3), Machine.Reinit(len));
      ReinitCompletion(len);
      EngineTurns(weather.between(4), Machine.Submit(len));
      Submit(len, weather.submits);
      if !weather.submits {
        return -EIO;
      }
      EngineTurns(weather.between(5), Machine.IssuePending(len));
      ret := Copy(len, weather);
    }

    /** The rest of it: the engine at work, and the wait for its callback. */
    method Copy(len: nat, weather: Weather) returns (ret: int)
      requires At(Machine.IssuePending(len))
      modifies this`now, hw`engine, hw`status, hw`done, hw`fault, hw.dst
      ensures At(Machine.DoUnmapDst(len, ret))
      ensures now.given == old(now.given)
      ensures ret == match Await(Below(len), InProgress, weather.meanwhile)
        case None => -ETIMEDOUT
        case Some(verdict) => if verdict.Complete? && weather.reports then 0 else -EIO
    {
      IssuePending(len);
      var inTime := WaitForCompletion(weather.meanwhile, len);
      if !inTime {
        EngineTurns(weather.late, Machine.TerminateSync(len));
        TerminateSync(len);
        return -ETIMEDOUT;
      }
      EngineTurns(weather.between(6), Machine.QueryStatus(len, hw.transfer));
      ret := IsTxComplete(len, weather.reports);
    }

    /** do_dma_transfer */
    method DoDmaTransfer(len: nat, weather: Weather) returns (ret: int)
      requires At(Machine.DoMapSrc(len))
      modifies this`now, hw, hw.dst
      ensures At(Machine.Return(len, ret))
      ensures now.given == old(now.given)
      ensures weather.copies ==> Answers(ret, len, weather)
    {
      MapSrc(len, weather.srcMaps);
      if !weather.srcMaps {
        return -ENOMEM;
      }
      EngineTurns(weather.between(1), Machine.DoMapDst(len));
      MapDst(len, weather.dstMaps);
      if !weather.dstMaps {
        EngineTurns(weather.between(2), Machine.UndoMapSrc(len));
        UnmapSrc(len, -ENOMEM);
        return -ENOMEM;
      }
      EngineTurns(weather.between(2), Machine.Prepare(len));
      ret := RunTransfer(len, weather);
      EngineTurns(weather.between(7), Machine.DoUnmapDst(len, ret));
      UnmapDst(len, ret);
      EngineTurns(weather.between(8), Machine.DoUnmapSrc(len, ret));
      UnmapSrc(len, ret);
    }

    /** The first half of dev_write: take the bytes over and clear the destination. */
    method Receive(data: seq<Byte>, weather: Weather) returns (len: nat)
      requires Valid()
      modifies this`now, hw`transfer, hw`fault, hw.src, hw.dst
      ensures len == Min(|data|, hw.src.Length) && now.given == data[..len]
      ensures At(if weather.copies then Machine.DoMapSrc(len) else Machine.Return(len, -EFAULT))
    {
      len := |data|;
      if len > hw.src.Length {
        len := hw.src.Length;
      }
      Begin(data);
      TakeOver(data, len, weather);
      if weather.copies {
        ClearDst(len);
      }
    }

    method Begin(data: seq<Byte>)
      requires Valid()
      modifies this`now, hw`transfer
      ensures At(Machine.CopyFromUser(data)) && now.given == data[..Min(|data|, hw.src.Length)]
    {
      hw.transfer := hw.transfer + 1;
      Advance(Machine.CallWrite(data));
    }

    method ClearDst(len: nat)
      requires At(Machine.ClearDst(len))
      modifies this`now, hw`fault, hw.dst
      ensures At(Machine.DoMapSrc(len)) && now.given == old(now.given)
    {
      hw.ClearDst();
      Advance(Machine.Drive(true, 0));
    }

    method TakeOver(data: seq<Byte>, len: nat, weather: Weather)
      requires At(Machine.CopyFromUser(data)) && len == Min(|data|, hw.src.Length)
      modifies this`now, hw`fault, hw.src
      ensures At(if weather.copies then Machine.ClearDst(len) else Machine.Return(len, -EFAULT))
      ensures now.given == old(now.given)
    {
      hw.CopyFromUser(data, if weather.copies then len else Min(weather.copied, len));
      Advance(Machine.Drive(weather.copies, weather.copied));
    }

    /** The last half of dev_write. */
    method Conclude(len: nat, ret: int)
      requires At(Machine.Return(len, ret))
      modifies this`now, this`dataLen
      ensures Valid() && Owned(hw.Value())
      ensures dataLen == if ret == 0 then len else old(dataLen)
      ensures ret == 0 ==> len <= hw.dst.Length && hw.dst[..len] == old(now.given)
      ensures now.stored == if ret == 0 then Some(old(now.given)) else now.stored
    {
      Machine.ReachableIsOk(hw.src.Length, now);
      if ret == 0 {
        dataLen := len;
      }
      Advance(Machine.Drive(true, 0));
      Machine.ReachableIsOk(hw.src.Length, now);
    }

    /** dev_write: a result that is no error means that exactly these bytes can now be read; after an
        error the length of what can be read is what it was. Either way the CPU owns both buffers. */
    method Write(data: seq<Byte>, weather: Weather) returns (ret: int)
      requires Valid()
      modifies this, hw, hw.src, hw.dst
      ensures Valid() && Owned(hw.Value())
      ensures ret == Answer(Min(|data|, hw.src.Length), weather)
      ensures ret >= 0 ==> dataLen == ret <= hw.dst.Length && hw.dst[..dataLen] == data[..dataLen]
      ensures ret < 0 ==> dataLen == old(dataLen)
    {
      var len := Receive(data, weather);
      if !weather.copies {
        Conclude(len, -EFAULT);
        return -EFAULT;
      }
      EngineTurns(weather.between(0), Machine.DoMapSrc(len));
      ret := DoDmaTransfer(len, weather);
      EngineTurns(weather.between(9), Machine.Return(len, ret));
      Conclude(len, ret);
      return if ret != 0 then ret else len;
    }

    /** copy_to_user, from the destination buffer. */
    method CopyToUser(off: nat, count: nat) returns (bytes: seq<Byte>)
      requires Valid() && off + count <= hw.dst.Length
      modifies this`now, hw`fault
      ensures Valid() && bytes == hw.dst[off..off + count]
    {
      hw.fault := hw.fault || hw.dstMapped;
      Advance(Machine.CallRead);
      bytes := hw.dst[off..off + count];
    }

    lemma AtRest()
      requires Valid()
      ensures Owned(hw.Value()) && dataLen <= hw.dst.Length
    {
      Machine.ReachableIsOk(hw.src.Length, now);
    }

    /** dev_read */
    method Read(off: nat, len: nat, fault: bool) returns (ret: int, bytes: seq<Byte>, after: nat)
      requires Valid()
      modifies this`now, hw`fault
      ensures Valid() && Owned(hw.Value()) && dataLen <= hw.dst.Length
      ensures var piece := Piece(hw.dst[..dataLen], off, len);
        if fault && piece != [] then ret == -EFAULT && bytes == [] && after == off
        else bytes == piece && ret == |piece| && after == off + |piece|
    {
      AtRest();
      if off >= dataLen {
        return 0, [], off;
      }
      var count := len;
      if count > dataLen - off {
        count := dataLen - off;
      }
      bytes := CopyToUser(off, count);
      AtRest();
      assert bytes == Piece(hw.dst[..dataLen], off, len) by {
        SliceOfPrefix(hw.dst[..], dataLen, off, count);
      }
      if fault && count > 0 {
        return -EFAULT, [], off;
      }
      return count, bytes, off + count;
    }
  }
}
