/** The ring protected by a spinlock, with a wait queue for the consumer: any number of producers, and
    any number of consumers in the machine, although the driver is right for one only. Steps interleave
    at every single access to shared memory, including the emptiness tests that take no lock. Memory is
    sequentially consistent and no signal interrupts a wait. */
module LockedRing {
  import opened BoundedFifo
  import opened DriverBasics
  import opened RingLayout

  /** Where a ring_push stands. */
  datatype PushPc =
    | PIdle
    | PLock(msg: CString)
    | PLoadHead(msg: CString)
    | PLoadTail(msg: CString, next: nat)
    | PLoadSlot(msg: CString, next: nat)
    | PCopy(msg: CString, next: nat, slot: nat, i: nat)
    | PStoreHead(msg: CString, next: nat)
    | PUnlock(result: Event)
    | PWake(result: Event)
    | PReturn(result: Event)

  /** Where a ring_pop stands. wait_event tests once, and only then queues itself and tests again before
      each sleep: `looping` tells the two tests apart. */
  datatype PopPc =
    | CIdle
    | CTestHead(looping: bool)
    | CTestTail(looping: bool, head: nat)
    | CPrepare
    | CSleep
    | CFinish
    | CLock
    | CLoadSlot
    | CCopy(slot: nat, out: string)
    | CLoadOld(out: string)
    | CStoreTail(out: string, last: nat)
    | CUnlock(result: Event)
    | CReturn(result: Event)

  /** A producer, what its calls were asked to push and what they have returned. */
  datatype Producer = Producer(pc: PushPc, asked: seq<CString>, results: seq<Event>)

  /** A consumer that is not `runnable` stops at its next sleep; a wake-up reaches it only while it is
      `queued` on the ring's wait queue. */
  datatype Consumer = Consumer(pc: PopPc, queued: bool, runnable: bool, results: seq<Event>)

  datatype Lock = Free | PusherHolds(i: nat) | PopperHolds(i: nat)

  datatype State = State(data: seq<Row>, head: nat, tail: nat, lock: Lock,
                         pushers: seq<Producer>, poppers: seq<Consumer>, history: seq<Event>)

  datatype Choice = CallPush(i: nat, msg: CString) | RunPusher(i: nat) | CallPop(i: nat) | RunPopper(i: nat)

  function Init(n: nat, pushers: nat, poppers: nat): State {
    State(seq(n, _ => seq(MAX_PACKET, _ => '\0')), 0, 0, Free,
          seq(pushers, _ => Producer(PIdle, [], [])), seq(poppers, _ => Consumer(CIdle, false, true, [])), [])
  }

  /** What the steps need in order not to index outside the ring. */
  predicate InBounds(s: State) {
    && 2 <= |s.data|
    && (forall i :: 0 <= i < |s.pushers| && s.pushers[i].pc.PCopy? ==>
         s.pushers[i].pc.slot < |s.data| && s.pushers[i].pc.i < MAX_PACKET)
    && (forall i :: 0 <= i < |s.poppers| && s.poppers[i].pc.CCopy? ==> s.poppers[i].pc.slot < |s.data|)
  }

  function At(s: State, i: nat, pc: PushPc): State
    requires i < |s.pushers|
  {
    s.(pushers := s.pushers[i := s.pushers[i].(pc := pc)])
  }

  function Called(s: State, i: nat, msg: CString): State
    requires i < |s.pushers|
  {
    s.(pushers := s.pushers[i := s.pushers[i].(pc := PLock(msg), asked := s.pushers[i].asked + [msg])])
  }

  function PopAt(s: State, i: nat, pc: PopPc): State
    requires i < |s.poppers|
  {
    s.(poppers := s.poppers[i := s.poppers[i].(pc := pc)])
  }

  function PopperId(s: State, i: nat): nat {
    |s.pushers| + i
  }

  /** wake_up_interruptible: every queued waiter becomes runnable and leaves the queue. */
  function Woken(cs: seq<Consumer>): (r: seq<Consumer>)
    ensures |r| == |cs|
  {
    seq(|cs|, i requires 0 <= i < |cs| =>
      if cs[i].queued then cs[i].(queued := false, runnable := true) else cs[i])
  }

  function PushStep(s: State, i: nat): State
    requires InBounds(s) && i < |s.pushers|
  {
    match s.pushers[i].pc
    case PIdle => s
    case PLock(msg) =>
      if s.lock.Free? then At(s, i, PLoadHead(msg)).(lock := PusherHolds(i)) else s
    case PLoadHead(msg) =>
      At(s, i, PLoadTail(msg, (s.head + 1) % |s.data|))
    case PLoadTail(msg, next) =>
      if next == s.tail then
        At(s, i, PUnlock(Full(i))).(history := s.history + [Full(i)])
      else
        At(s, i, PLoadSlot(msg, next))
    case PLoadSlot(msg, next) =>
      At(s, i, PCopy(msg, next, s.head, 0))
    case PCopy(msg, next, slot, j) =>
      if j < MAX_PACKET - 1 && j < |msg| then
        At(s, i, PCopy(msg, next, slot, j + 1)).(data := s.data[slot := s.data[slot][j := msg[j]]])
      else
        At(s, i, PStoreHead(msg, next)).(data := s.data[slot := s.data[slot][j := '\0']])
    case PStoreHead(msg, next) =>
      At(s, i, PUnlock(Accepted(i, Cut(msg)))).(head := next, history := s.history + [Accepted(i, Cut(msg))])
    case PUnlock(result) =>
      At(s, i, if result.Full? then PReturn(result) else PWake(result)).(lock := Free)
    case PWake(result) =>
      At(s, i, PReturn(result)).(poppers := Woken(s.poppers))
    case PReturn(result) =>
      s.(pushers := s.pushers[i := s.pushers[i].(pc := PIdle, results := s.pushers[i].results + [result])])
  }

  function PopStep(s: State, i: nat): State
    requires InBounds(s) && i < |s.poppers|
  {
    match s.poppers[i].pc
    case CIdle => s
    case CTestHead(looping) => PopAt(s, i, CTestTail(looping, s.head))
    case CTestTail(looping, head) =>
      PopAt(s, i, if head != s.tail then (if looping then CFinish else CLock)
                  else (if looping then CSleep else CPrepare))
    case CPrepare =>
      s.(poppers := s.poppers[i := s.poppers[i].(pc := CTestHead(true), queued := true, runnable := false)])
    case CSleep =>
      if s.poppers[i].runnable then PopAt(s, i, CPrepare) else s
    case CFinish =>
      s.(poppers := s.poppers[i := s.poppers[i].(pc := CLock, queued := false, runnable := true)])
    case CLock =>
      if s.lock.Free? then PopAt(s, i, CLoadSlot).(lock := PopperHolds(i)) else s
    case CLoadSlot => PopAt(s, i, CCopy(s.tail, ""))
    case CCopy(slot, out) =>
      if |out| < MAX_PACKET - 1 && s.data[slot][|out|] != '\0' then
        PopAt(s, i, CCopy(slot, out + [s.data[slot][|out|]]))
      else
        PopAt(s, i, CLoadOld(out))
    case CLoadOld(out) => PopAt(s, i, CStoreTail(out, s.tail))
    case CStoreTail(out, last) =>
      var e := Popped(PopperId(s, i), out);
      PopAt(s, i, CUnlock(e)).(tail := (last + 1) % |s.data|, history := s.history + [e])
    case CUnlock(result) => PopAt(s, i, CReturn(result)).(lock := Free)
    case CReturn(result) =>
      s.(poppers := s.poppers[i := s.poppers[i].(pc := CIdle, results := s.poppers[i].results + [result])])
  }

  /** One choice of the scheduler. A choice that names no thread, or calls a busy one, changes nothing. */
  function Step(s: State, choice: Choice): State
    requires InBounds(s)
  {
    match choice
    case CallPush(i, msg) =>
      if i < |s.pushers| && s.pushers[i].pc.PIdle? then Called(s, i, msg) else s
    case RunPusher(i) => if i < |s.pushers| then PushStep(s, i) else s
    case CallPop(i) =>
      if i < |s.poppers| && s.poppers[i].pc.CIdle? then PopAt(s, i, CTestHead(false)) else s
    case RunPopper(i) => if i < |s.poppers| then PopStep(s, i) else s
  }

  // ---------------------------------------------------------------- the invariant, for one consumer

  ghost function Queue(s: State): Option<seq<string>>
    requires InBounds(s)
  {
    Replay(s.history, |s.data| - 1)
  }

  predicate PushCritical(pc: PushPc) {
    !(pc.PIdle? || pc.PLock? || pc.PWake? || pc.PReturn?)
  }

  predicate PopCritical(pc: PopPc) {
    pc.CLoadSlot? || pc.CCopy? || pc.CLoadOld? || pc.CStoreTail? || pc.CUnlock?
  }

  /** The spinlock excludes: a thread is in its critical section exactly when it holds the lock. */
  ghost predicate LockInv(s: State) {
    && (s.lock.PusherHolds? ==> s.lock.i < |s.pushers|)
    && (s.lock.PopperHolds? ==> s.lock.i < |s.poppers|)
    && (forall i :: 0 <= i < |s.pushers| ==> (PushCritical(s.pushers[i].pc) <==> s.lock == PusherHolds(i)))
    && (forall i :: 0 <= i < |s.poppers| ==> (PopCritical(s.poppers[i].pc) <==> s.lock == PopperHolds(i)))
  }

  ghost predicate HolderInv(s: State, q: seq<string>)
    requires Indices(s.data, s.head, s.tail) && LockInv(s)
  {
    s.lock.PusherHolds? ==>
      match s.pushers[s.lock.i].pc
      case PLoadTail(_, next) => next == (s.head + 1) % |s.data|
      case PLoadSlot(_, next) => next == (s.head + 1) % |s.data| && |q| < |s.data| - 1
      case PCopy(msg, next, slot, j) =>
        && next == (s.head + 1) % |s.data| && |q| < |s.data| - 1
        && slot == s.head && j <= |Cut(msg)| && s.data[slot][..j] == msg[..j]
      case PStoreHead(msg, next) =>
        next == (s.head + 1) % |s.data| && |q| < |s.data| - 1 && Holds(s.data[s.head], Cut(msg))
      case _ => true
  }

  /** Once the consumer has seen the ring non-empty it stays so, although the test took no lock. */
  ghost predicate PopperInv(s: State, q: seq<string>, pc: PopPc) {
    match pc
    case CTestTail(_, head) => head != s.tail ==> q != []
    case CFinish => q != []
    case CLock => q != []
    case CLoadSlot => q != []
    case CCopy(slot, out) => slot == s.tail && q != [] && out <= q[0]
    case CLoadOld(out) => q != [] && out == q[0]
    case CStoreTail(out, last) => q != [] && out == q[0] && last == s.tail
    case _ => true
  }

  /** What a thread's calls have returned, and the result its current call is bound to return. */
  function PushTotal(p: Producer): seq<Event> {
    p.results + (if p.pc.PUnlock? || p.pc.PWake? || p.pc.PReturn? then [p.pc.result] else [])
  }

  function PopTotal(c: Consumer): seq<Event> {
    c.results + (if c.pc.CUnlock? || c.pc.CReturn? then [c.pc.result] else [])
  }

  ghost predicate ResultsMatch(s: State) {
    && (forall i :: 0 <= i < |s.pushers| ==> OfThread(s.history, i) == PushTotal(s.pushers[i]))
    && (forall i :: 0 <= i < |s.poppers| ==> OfThread(s.history, PopperId(s, i)) == PopTotal(s.poppers[i]))
  }

  /** The result a push by thread i may return for a message. */
  predicate Answers(e: Event, i: nat, msg: CString) {
    e == Full(i) || e == Accepted(i, Cut(msg))
  }

  ghost predicate ProducerInv(p: Producer, i: nat) {
    && |p.asked| == |p.results| + (if p.pc.PIdle? then 0 else 1)
    && (forall k :: 0 <= k < |p.results| ==> Answers(p.results[k], i, p.asked[k]))
    && match p.pc
       case PIdle => true
       case PUnlock(result) => Answers(result, i, p.asked[|p.asked| - 1])
       case PWake(result) => Answers(result, i, p.asked[|p.asked| - 1])
       case PReturn(result) => Answers(result, i, p.asked[|p.asked| - 1])
       case _ => p.pc.msg == p.asked[|p.asked| - 1]
  }

  ghost predicate AskedInv(s: State) {
    forall i :: 0 <= i < |s.pushers| ==> ProducerInv(s.pushers[i], i)
  }

  /** Some producer has published a message and still has its wake-up call to make. */
  ghost predicate WakePending(s: State) {
    exists i :: 0 <= i < |s.pushers| && OwesWake(s.pushers[i].pc)
  }

  predicate OwesWake(pc: PushPc) {
    pc.PWake? || (pc.PUnlock? && !pc.result.Full?)
  }

  /** What the consumer has seen of the head is out of date, or is about to make it sleep on an
      out-of-date view. */
  predicate Stale(s: State, pc: PopPc) {
    || (pc.CTestTail? && pc.looping && pc.head != s.head)
    || (pc.CSleep? && s.head != s.tail)
  }

  ghost predicate WaitInv(s: State) {
    forall i :: 0 <= i < |s.poppers| ==>
      var c := s.poppers[i];
      && (!c.runnable ==> c.queued)
      && (!c.runnable ==> c.pc.CSleep? || c.pc.CFinish? || (c.pc.CTestHead? && c.pc.looping) || (c.pc.CTestTail? && c.pc.looping))
      && (!c.runnable && Stale(s, c.pc) ==> WakePending(s))
  }

  ghost predicate RingInv(s: State) {
    && InBounds(s)
    && Indices(s.data, s.head, s.tail)
    && Queue(s).Some?
    && Contains(s.data, s.head, s.tail, Queue(s).value)
    && LockInv(s)
    && HolderInv(s, Queue(s).value)
  }

  ghost predicate PopperOk(s: State)
    requires RingInv(s)
  {
    |s.poppers| == 1 && PopperInv(s, Queue(s).value, s.poppers[0].pc)
  }

  ghost predicate Inv(s: State) {
    && RingInv(s)
    && PopperOk(s)
    && ResultsMatch(s)
    && AskedInv(s)
    && WaitInv(s)
  }

  ghost predicate Next(s: State, t: State) {
    InBounds(s) && exists choice :: t == Step(s, choice)
  }

  ghost predicate IsRunFrom(first: State, run: seq<State>) {
    && run != [] && run[0] == first
    && forall k :: 0 < k < |run| ==> StepAt(run, k)
  }

  ghost predicate StepAt(run: seq<State>, k: nat)
    requires 0 < k < |run|
  {
    Next(run[k - 1], run[k])
  }

  /** A run: from a freshly zeroed ring of n slots, with any number of producers and one consumer, one
      choice of the scheduler at a time. */
  ghost predicate IsRun(n: nat, pushers: nat, run: seq<State>) {
    2 <= n && IsRunFrom(Init(n, pushers, 1), run)
  }

  lemma {:induction false} EveryStateOfARun(n: nat, pushers: nat, run: seq<State>, k: nat)
    requires IsRun(n, pushers, run) && k < |run|
    ensures Inv(run[k]) && |run[k].data| == n && |run[k].pushers| == pushers
  {
    if k == 0 {
      InitInv(n, pushers);
    } else {
      EveryStateOfARun(n, pushers, run, k - 1);
      assert StepAt(run, k);
      NextKeepsInv(run[k - 1], run[k]);
    }
  }

  lemma NextKeepsInv(s: State, t: State)
    requires Inv(s) && Next(s, t)
    ensures Inv(t) && SameShape(s, t)
  {
    var choice :| t == Step(s, choice);
    StepKeepsInv(s, choice);
  }

  lemma InitInv(n: nat, pushers: nat)
    requires 2 <= n
    ensures Inv(Init(n, pushers, 1))
  {
  }

  ghost predicate SameShape(s: State, t: State) {
    |t.data| == |s.data| && |t.pushers| == |s.pushers| && |t.poppers| == |s.poppers|
  }

  // ---------------------------------------------------------------- what holds of every run

  /** Whatever the interleaving of any number of producers and the consumer, the operations that took
      effect form a legal history of a FIFO of capacity n - 1 in head-update order: a push is refused
      only when the ring is full, every popped message is the oldest accepted one, cut to 63
      characters, and what was accepted is what was popped followed by what the slots hold. */
  lemma RefinesBoundedFifo(n: nat, pushers: nat, run: seq<State>, k: nat)
    requires IsRun(n, pushers, run) && k < |run|
    ensures ImplementsFifo(run[k].data, run[k].head, run[k].tail, run[k].history, n - 1)
  {
    EveryStateOfARun(n, pushers, run, k);
    NothingLostRepeatedOrReordered(run[k].history, n - 1);
  }

  /** The test that takes no lock is still right when the consumer holds the lock: from the moment it
      passes until it has taken its message the ring is not empty. */
  lemma TestedItemIsStillThere(n: nat, pushers: nat, run: seq<State>, k: nat)
    requires IsRun(n, pushers, run) && k < |run|
    requires run[k].poppers != []
    requires var pc := run[k].poppers[0].pc;
      pc.CFinish? || pc.CLock? || pc.CLoadSlot? || pc.CCopy? || pc.CLoadOld? || pc.CStoreTail?
    ensures run[k].head != run[k].tail
  {
    EveryStateOfARun(n, pushers, run, k);
    FullAndEmptyTests(run[k].data, run[k].head, run[k].tail, Queue(run[k]).value);
  }

  /** The spinlock excludes: no two threads are past it at once, so no slot is read while written. */
  lemma OneThreadPastTheLock(n: nat, pushers: nat, run: seq<State>, k: nat, i: nat)
    requires IsRun(n, pushers, run) && k < |run|
    requires i < |run[k].pushers| && PushCritical(run[k].pushers[i].pc)
    ensures forall j :: 0 <= j < |run[k].poppers| ==> !PopCritical(run[k].poppers[j].pc)
    ensures forall j :: 0 <= j < |run[k].pushers| && j != i ==> !PushCritical(run[k].pushers[j].pc)
  {
    EveryStateOfARun(n, pushers, run, k);
  }

  /** No lost wake-up: if the consumer sleeps although the ring holds a message, some producer has
      published it and still has its wake-up call to make. */
  lemma NoLostWakeup(n: nat, pushers: nat, run: seq<State>, k: nat)
    requires IsRun(n, pushers, run) && k < |run|
    requires run[k].poppers != [] && run[k].poppers[0].pc.CSleep? && !run[k].poppers[0].runnable
    requires run[k].head != run[k].tail
    ensures exists i :: 0 <= i < |run[k].pushers| && OwesWake(run[k].pushers[i].pc)
  {
    EveryStateOfARun(n, pushers, run, k);
    assert Stale(run[k], run[k].poppers[0].pc);
  }

  /** The j-th push of a producer returns for the j-th message it was asked to push. */
  lemma PushesAnswerTheirMessages(n: nat, pushers: nat, run: seq<State>, k: nat, i: nat, j: nat)
    requires IsRun(n, pushers, run) && k < |run| && i < |run[k].pushers| && j < |run[k].pushers[i].results|
    ensures j < |run[k].pushers[i].asked| && Answers(run[k].pushers[i].results[j], i, run[k].pushers[i].asked[j])
  {
    EveryStateOfARun(n, pushers, run, k);
    assert ProducerInv(run[k].pushers[i], i);
  }

  /** The history only grows and, at a moment when a thread is between calls, holds exactly what that
      thread's finished calls returned. So every call takes effect once, between its invocation and its
      return, with the result it returns: the ring is linearizable. */
  lemma EachCallTakesEffectOnceInside(n: nat, pushers: nat, run: seq<State>, j: nat, k: nat)
    requires IsRun(n, pushers, run) && j <= k < |run|
    ensures run[j].history <= run[k].history
    ensures forall i :: 0 <= i < |run[j].pushers| && run[j].pushers[i].pc.PIdle? ==>
      OfThread(run[j].history, i) == run[j].pushers[i].results
    ensures forall i :: 0 <= i < |run[j].poppers| && run[j].poppers[i].pc.CIdle? ==>
      OfThread(run[j].history, PopperId(run[j], i)) == run[j].poppers[i].results
  {
    EveryStateOfARun(n, pushers, run, j);
    HistoryGrowsAlong(n, pushers, run, j, k);
  }

  lemma {:induction false} HistoryGrowsAlong(n: nat, pushers: nat, run: seq<State>, j: nat, k: nat)
    requires IsRun(n, pushers, run) && j <= k < |run|
    ensures run[j].history <= run[k].history
    decreases k
  {
    if j < k {
      HistoryGrowsAlong(n, pushers, run, j, k - 1);
      assert StepAt(run, k);
      HistoryOnlyGrows(run[k - 1], run[k]);
    }
  }

  lemma HistoryOnlyGrows(s: State, t: State)
    requires Next(s, t)
    ensures s.history <= t.history
  {
  }

  lemma StepKeepsInv(s: State, choice: Choice)
    requires Inv(s)
    ensures Inv(Step(s, choice)) && SameShape(s, Step(s, choice))
  {
    match choice
    case CallPush(i, msg) =>
      if i < |s.pushers| && s.pushers[i].pc.PIdle? {
        CallPushKeepsInv(s, i, msg);
      }
    case RunPusher(i) =>
      if i < |s.pushers| {
        PushKeepsInv(s, i);
      }
    case CallPop(i) =>
      if i < |s.poppers| && s.poppers[i].pc.CIdle? {
        CallPopKeepsInv(s);
      }
    case RunPopper(i) =>
      if i < |s.poppers| {
        PopKeepsInv(s);
      }
  }

  lemma CallPushKeepsInv(s: State, i: nat, msg: CString)
    requires Inv(s) && i < |s.pushers| && s.pushers[i].pc.PIdle?
    ensures Inv(Called(s, i, msg)) && SameShape(s, Called(s, i, msg))
  {
    var s' := Called(s, i, msg);
    FrameRing(s, s');
    FrameResults(s, s');
    FrameWait(s, s');
  }

  lemma CallPopKeepsInv(s: State)
    requires Inv(s) && s.poppers[0].pc.CIdle?
    ensures Inv(PopAt(s, 0, CTestHead(false))) && SameShape(s, PopAt(s, 0, CTestHead(false)))
  {
    var s' := PopAt(s, 0, CTestHead(false));
    FrameRing(s, s');
    FrameResults(s, s');
  }

  // ---------------------------------------------------------------- what does not change

  lemma FrameRing(s: State, s': State)
    requires RingInv(s)
    requires s'.data == s.data && s'.head == s.head && s'.tail == s.tail && s'.history == s.history
    requires LockInv(s') && InBounds(s')
    requires s'.lock.PusherHolds? ==> HolderInv(s', Queue(s').value)
    ensures RingInv(s') && Queue(s') == Queue(s)
  {
  }

  lemma FrameResults(s: State, s': State)
    requires ResultsMatch(s) && s'.history == s.history
    requires |s'.pushers| == |s.pushers| && |s'.poppers| == |s.poppers|
    requires forall j :: 0 <= j < |s.pushers| ==> PushTotal(s'.pushers[j]) == PushTotal(s.pushers[j])
    requires forall j :: 0 <= j < |s.poppers| ==> PopTotal(s'.poppers[j]) == PopTotal(s.poppers[j])
    ensures ResultsMatch(s')
  {
  }

  /** A step that leaves head, tail and consumer alone and drops no wake-up obligation. */
  lemma FrameWait(s: State, s': State)
    requires WaitInv(s) && s'.head == s.head && s'.tail == s.tail && s'.poppers == s.poppers
    requires |s'.pushers| == |s.pushers|
    requires forall j :: 0 <= j < |s.pushers| && OwesWake(s.pushers[j].pc) ==> OwesWake(s'.pushers[j].pc)
    ensures WaitInv(s')
  {
    if WakePending(s) {
      var k :| 0 <= k < |s.pushers| && OwesWake(s.pushers[k].pc);
      assert OwesWake(s'.pushers[k].pc);
    }
  }

  lemma Recorded(s: State, s': State, e: Event)
    requires ResultsMatch(s) && s'.history == s.history + [e]
    requires |s'.pushers| == |s.pushers| && |s'.poppers| == |s.poppers|
    requires forall j :: 0 <= j < |s.pushers| ==>
      PushTotal(s'.pushers[j]) == PushTotal(s.pushers[j]) + (if e.thread == j then [e] else [])
    requires forall j :: 0 <= j < |s.poppers| ==>
      PopTotal(s'.poppers[j]) == PopTotal(s.poppers[j]) + (if e.thread == PopperId(s, j) then [e] else [])
    ensures ResultsMatch(s')
  {
    forall j | 0 <= j < |s.pushers|
      ensures OfThread(s'.history, j) == PushTotal(s'.pushers[j])
    {
      Snoc(s.history, e, 0, j);
    }
    forall j | 0 <= j < |s.poppers|
      ensures OfThread(s'.history, PopperId(s', j)) == PopTotal(s'.poppers[j])
    {
      Snoc(s.history, e, 0, PopperId(s, j));
    }
  }

  // ---------------------------------------------------------------- a producer's steps

  lemma PushKeepsInv(s: State, i: nat)
    requires Inv(s) && i < |s.pushers|
    ensures Inv(PushStep(s, i)) && SameShape(s, PushStep(s, i))
  {
    PushKeepsRing(s, i);
    PushKeepsPopper(s, i);
    PushKeepsResults(s, i);
    PushKeepsAsked(s, i);
    PushKeepsWait(s, i);
  }

  lemma PushKeepsAsked(s: State, i: nat)
    requires InBounds(s) && AskedInv(s) && i < |s.pushers|
    ensures AskedInv(PushStep(s, i))
  {
    var s' := PushStep(s, i);
    assert forall j :: 0 <= j < |s'.pushers| && j != i ==> s'.pushers[j] == s.pushers[j];
    assert ProducerInv(s.pushers[i], i);
  }

  lemma PushKeepsLock(s: State, i: nat)
    requires InBounds(s) && LockInv(s) && i < |s.pushers|
    ensures LockInv(PushStep(s, i)) && SameShape(s, PushStep(s, i))
    ensures |PushStep(s, i).poppers| == |s.poppers|
    ensures forall j :: 0 <= j < |s.poppers| ==> PushStep(s, i).poppers[j].pc == s.poppers[j].pc
  {
    var s' := PushStep(s, i);
    forall j | 0 <= j < |s'.poppers|
      ensures s'.poppers[j].pc == s.poppers[j].pc
    {
    }
  }

  lemma PushKeepsRing(s: State, i: nat)
    requires RingInv(s) && i < |s.pushers|
    ensures RingInv(PushStep(s, i)) && SameShape(s, PushStep(s, i))
  {
    PushKeepsLock(s, i);
    match s.pushers[i].pc
    case PLoadTail(_, _) => TestSpaceKeepsRing(s, i);
    case PCopy(_, _, _, _) => CopyInKeepsRing(s, i);
    case PStoreHead(_, _) => PublishKeepsRing(s, i);
    case _ => QuietPushKeepsRing(s, i);
  }

  predicate QuietPush(pc: PushPc) {
    !(pc.PLoadTail? || pc.PCopy? || pc.PStoreHead?)
  }

  /** The steps that neither touch the ring nor record an event. */
  lemma QuietPushTouches(s: State, i: nat)
    requires InBounds(s) && i < |s.pushers| && QuietPush(s.pushers[i].pc)
    ensures var s' := PushStep(s, i);
      && s'.data == s.data && s'.head == s.head && s'.tail == s.tail && s'.history == s.history
      && |s'.pushers| == |s.pushers| && |s'.poppers| == |s.poppers|
      && (forall j :: 0 <= j < |s.pushers| && j != i ==> s'.pushers[j] == s.pushers[j])
      && PushTotal(s'.pushers[i]) == PushTotal(s.pushers[i])
      && (forall j :: 0 <= j < |s.poppers| ==> s'.poppers[j].pc == s.poppers[j].pc)
      && (forall j :: 0 <= j < |s.poppers| ==> PopTotal(s'.poppers[j]) == PopTotal(s.poppers[j]))
  {
  }

  lemma QuietPushKeepsRing(s: State, i: nat)
    requires RingInv(s) && i < |s.pushers| && QuietPush(s.pushers[i].pc)
    ensures RingInv(PushStep(s, i))
  {
    PushKeepsLock(s, i);
    QuietPushTouches(s, i);
    FrameRing(s, PushStep(s, i));
  }

  lemma TestSpaceKeepsRing(s: State, i: nat)
    requires RingInv(s) && i < |s.pushers| && s.pushers[i].pc.PLoadTail?
    requires LockInv(PushStep(s, i))
    ensures RingInv(PushStep(s, i)) && Queue(PushStep(s, i)) == Queue(s)
  {
    FullAndEmptyTests(s.data, s.head, s.tail, Queue(s).value);
    Snoc(s.history, Full(i), |s.data| - 1, i);
  }

  lemma CopyInKeepsRing(s: State, i: nat)
    requires RingInv(s) && i < |s.pushers| && s.pushers[i].pc.PCopy?
    requires LockInv(PushStep(s, i))
    ensures RingInv(PushStep(s, i))
  {
    var PCopy(msg, next, slot, j) := s.pushers[i].pc;
    var q := Queue(s).value;
    var s' := PushStep(s, i);
    var row := s'.data[slot];
    SpareSlotIsFree(s.data, s.head, s.tail, q, row);
    assert Queue(s') == Some(q);
    if j < |Cut(msg)| {
      assert row[..j + 1] == s.data[slot][..j] + [msg[j]] == msg[..j + 1];
    } else {
      assert row[..j] == s.data[slot][..j] == Cut(msg);
    }
  }

  lemma PublishKeepsRing(s: State, i: nat)
    requires RingInv(s) && i < |s.pushers| && s.pushers[i].pc.PStoreHead?
    requires LockInv(PushStep(s, i))
    ensures RingInv(PushStep(s, i))
    ensures Queue(PushStep(s, i)) == Some(Queue(s).value + [Cut(s.pushers[i].pc.msg)])
  {
    var m := Cut(s.pushers[i].pc.msg);
    Publish(s.data, s.head, s.tail, Queue(s).value, m);
    Snoc(s.history, Accepted(i, m), |s.data| - 1, i);
    assert Queue(PushStep(s, i)) == Some(Queue(s).value + [m]);
  }

  lemma PushKeepsPopper(s: State, i: nat)
    requires Inv(s) && i < |s.pushers| && RingInv(PushStep(s, i))
    ensures PopperOk(PushStep(s, i))
  {
    PushKeepsLock(s, i);
    PushOnlyAppends(s, i);
    NonEmptyIsStable(s, PushStep(s, i), Queue(s).value, Queue(PushStep(s, i)).value, s.poppers[0].pc);
  }

  lemma PushOnlyAppends(s: State, i: nat)
    requires RingInv(s) && i < |s.pushers| && RingInv(PushStep(s, i))
    ensures Queue(s).value <= Queue(PushStep(s, i)).value && PushStep(s, i).tail == s.tail
  {
    match s.pushers[i].pc
    case PLoadTail(_, _) => TestSpaceKeepsRing(s, i);
    case PStoreHead(_, _) => PublishKeepsRing(s, i);
    case _ => assert PushStep(s, i).history == s.history;
  }

  lemma NonEmptyIsStable(s: State, s': State, q: seq<string>, q': seq<string>, pc: PopPc)
    requires PopperInv(s, q, pc) && s'.tail == s.tail && q <= q'
    ensures PopperInv(s', q', pc)
  {
  }

  lemma PushKeepsResults(s: State, i: nat)
    requires InBounds(s) && ResultsMatch(s) && i < |s.pushers|
    requires |s.poppers| == 1
    ensures ResultsMatch(PushStep(s, i))
  {
    var s' := PushStep(s, i);
    match s.pushers[i].pc
    case PLoadTail(_, next) =>
      if next == s.tail {
        Recorded(s, s', Full(i));
      } else {
        FrameResults(s, s');
      }
    case PStoreHead(msg, _) => Recorded(s, s', Accepted(i, Cut(msg)));
    case PCopy(_, _, _, _) => FrameResults(s, s');
    case _ =>
      QuietPushTouches(s, i);
      FrameResults(s, s');
  }

  lemma PushKeepsWait(s: State, i: nat)
    requires InBounds(s) && WaitInv(s) && i < |s.pushers|
    ensures WaitInv(PushStep(s, i))
  {
    var s' := PushStep(s, i);
    match s.pushers[i].pc
    case PStoreHead(_, _) => assert OwesWake(s'.pushers[i].pc);
    case PWake(_) =>
    case _ => FrameWait(s, s');
  }

  // ---------------------------------------------------------------- the consumer's steps

  lemma PopKeepsInv(s: State)
    requires Inv(s)
    ensures Inv(PopStep(s, 0)) && SameShape(s, PopStep(s, 0))
  {
    PopKeepsRing(s);
    PopKeepsResults(s);
    PopKeepsWait(s);
    assert PopStep(s, 0).pushers == s.pushers;
  }

  lemma PopKeepsLock(s: State)
    requires InBounds(s) && LockInv(s) && |s.poppers| == 1
    ensures LockInv(PopStep(s, 0)) && SameShape(s, PopStep(s, 0))
  {
    if s.poppers[0].pc.CLock? || s.poppers[0].pc.CUnlock? {
      LockStepKeepsLock(s);
    } else {
      OtherPopTouches(s);
    }
  }

  lemma LockStepKeepsLock(s: State)
    requires InBounds(s) && LockInv(s) && |s.poppers| == 1
    requires s.poppers[0].pc.CLock? || s.poppers[0].pc.CUnlock?
    ensures LockInv(PopStep(s, 0)) && SameShape(s, PopStep(s, 0))
  {
  }

  lemma OtherPopTouches(s: State)
    requires InBounds(s) && |s.poppers| == 1
    requires !s.poppers[0].pc.CLock? && !s.poppers[0].pc.CUnlock?
    ensures var s' := PopStep(s, 0);
      && s'.lock == s.lock && s'.pushers == s.pushers && SameShape(s, s')
      && PopCritical(s'.poppers[0].pc) == PopCritical(s.poppers[0].pc)
  {
  }

  lemma QuietPopTouches(s: State)
    requires InBounds(s) && |s.poppers| == 1
    requires !s.poppers[0].pc.CCopy? && !s.poppers[0].pc.CStoreTail?
    ensures var s' := PopStep(s, 0);
      && s'.data == s.data && s'.head == s.head && s'.tail == s.tail && s'.history == s.history
      && s'.pushers == s.pushers && |s'.poppers| == 1
      && (s'.poppers[0].pc.CCopy? ==> s'.poppers[0].pc.slot == s.tail)
  {
  }

  lemma PopKeepsRing(s: State)
    requires Inv(s)
    ensures RingInv(PopStep(s, 0))
    ensures PopperOk(PopStep(s, 0))
  {
    PopKeepsLock(s);
    if s.poppers[0].pc.CCopy? {
      CopyOutKeepsRing(s);
    } else if s.poppers[0].pc.CStoreTail? {
      RetireKeepsRing(s);
    } else {
      QuietPopKeepsRing(s);
      QuietPopKeepsPopper(s, Queue(s).value);
    }
  }

  lemma QuietPopKeepsRing(s: State)
    requires RingInv(s) && |s.poppers| == 1
    requires !s.poppers[0].pc.CCopy? && !s.poppers[0].pc.CStoreTail?
    ensures RingInv(PopStep(s, 0)) && Queue(PopStep(s, 0)) == Queue(s)
  {
    PopKeepsLock(s);
    QuietPopTouches(s);
    var s' := PopStep(s, 0);
    assert s'.lock.PusherHolds? ==> s'.lock == s.lock;
    FrameRing(s, s');
  }

  lemma QuietPopKeepsPopper(s: State, q: seq<string>)
    requires InBounds(s) && |s.poppers| == 1 && PopperInv(s, q, s.poppers[0].pc)
    requires Indices(s.data, s.head, s.tail) && Contains(s.data, s.head, s.tail, q)
    requires !s.poppers[0].pc.CCopy? && !s.poppers[0].pc.CStoreTail?
    ensures PopperInv(PopStep(s, 0), q, PopStep(s, 0).poppers[0].pc)
  {
    FullAndEmptyTests(s.data, s.head, s.tail, q);
  }

  lemma CopyOutKeepsRing(s: State)
    requires Inv(s) && s.poppers[0].pc.CCopy? && LockInv(PopStep(s, 0))
    ensures RingInv(PopStep(s, 0))
    ensures PopperOk(PopStep(s, 0))
  {
    var q := Queue(s).value;
    assert Holds(s.data[s.tail], q[0]) by {
      assert s.data[Slot(s.tail, 0, |s.data|)] == s.data[s.tail];
    }
    CopyStep(s.data[s.tail], q[0], s.poppers[0].pc.out);
    FrameRing(s, PopStep(s, 0));
  }

  lemma RetireKeepsRing(s: State)
    requires Inv(s) && s.poppers[0].pc.CStoreTail? && LockInv(PopStep(s, 0))
    ensures RingInv(PopStep(s, 0))
    ensures PopperOk(PopStep(s, 0))
  {
    var q := Queue(s).value;
    var e := Popped(PopperId(s, 0), s.poppers[0].pc.out);
    FullAndEmptyTests(s.data, s.head, s.tail, q);
    Retire(s.data, s.head, s.tail, q);
    Snoc(s.history, e, |s.data| - 1, 0);
    assert Queue(PopStep(s, 0)) == Some(q[1..]);
  }

  lemma PopKeepsResults(s: State)
    requires InBounds(s) && ResultsMatch(s) && |s.poppers| == 1
    ensures ResultsMatch(PopStep(s, 0))
  {
    match s.poppers[0].pc
    case CStoreTail(out, _) => Recorded(s, PopStep(s, 0), Popped(PopperId(s, 0), out));
    case _ => FrameResults(s, PopStep(s, 0));
  }

  lemma PopKeepsWait(s: State)
    requires InBounds(s) && WaitInv(s) && |s.poppers| == 1
    ensures WaitInv(PopStep(s, 0))
  {
    var s' := PopStep(s, 0);
    if WakePending(s) {
      var k :| 0 <= k < |s.pushers| && OwesWake(s.pushers[k].pc);
      assert OwesWake(s'.pushers[k].pc);
    }
  }

  // ---------------------------------------------------------------- progress

  /** The consumer's next step would change nothing: the lock is taken, or it sleeps. */
  predicate Blocked(s: State) {
    |s.poppers| == 1 && ((s.poppers[0].pc.CLock? && !s.lock.Free?) || (s.poppers[0].pc.CSleep? && !s.poppers[0].runnable))
  }

  /** With a message in the ring the consumer is blocked only while some producer is past the lock or owes
      a wake-up. */
  lemma BlockedByAProducer(n: nat, pushers: nat, run: seq<State>, k: nat)
    requires IsRun(n, pushers, run) && k < |run|
    requires Blocked(run[k]) && run[k].head != run[k].tail
    ensures run[k].lock.PusherHolds? || WakePending(run[k])
  {
    EveryStateOfARun(n, pushers, run, k);
    if run[k].poppers[0].pc.CSleep? {
      assert Stale(run[k], run[k].poppers[0].pc);
    }
  }

  /** A stretch of states, and the choices of the scheduler that lead through it. */
  predicate Scheduled(stretch: seq<State>, schedule: seq<Choice>) {
    && |stretch| == |schedule| + 1
    && forall k :: 0 <= k < |schedule| ==> Leads(stretch, schedule, k)
  }

  predicate Leads(stretch: seq<State>, schedule: seq<Choice>, k: nat)
    requires k < |schedule| < |stretch|
  {
    InBounds(stretch[k]) && stretch[k + 1] == Step(stretch[k], schedule[k])
  }

  /** How often a choice is made among the first k. */
  function Turns(schedule: seq<Choice>, mine: Choice, k: nat): nat
    requires k <= |schedule|
  {
    if k == 0 then 0 else Turns(schedule, mine, k - 1) + One(schedule[k - 1] == mine)
  }

  lemma {:induction false} TurnsAreOccurrences(schedule: seq<Choice>, mine: Choice, k: nat)
    requires k <= |schedule|
    ensures Turns(schedule, mine, k) == multiset(schedule[..k])[mine]
  {
    if k > 0 {
      TurnsAreOccurrences(schedule, mine, k - 1);
      assert schedule[..k] == schedule[..k - 1] + [schedule[k - 1]];
    }
  }

  /** What producer i was called with among the first k choices. A call of a busy producer is none. */
  function Requested(stretch: seq<State>, schedule: seq<Choice>, i: nat, k: nat): seq<CString>
    requires k <= |schedule| < |stretch|
  {
    if k == 0 then []
    else
      var s, choice := stretch[k - 1], schedule[k - 1];
      Requested(stretch, schedule, i, k - 1)
      + (if choice.CallPush? && choice.i == i && i < |s.pushers| && s.pushers[i].pc.PIdle? then [choice.msg] else [])
  }

  /** A producer's pushes are those its callers made, with the messages they gave. */
  lemma {:induction false} PushesAreTheCalls(stretch: seq<State>, schedule: seq<Choice>, i: nat, k: nat)
    requires Scheduled(stretch, schedule) && k <= |schedule| && i < |stretch[0].pushers|
    ensures i < |stretch[k].pushers|
    ensures stretch[k].pushers[i].asked == stretch[0].pushers[i].asked + Requested(stretch, schedule, i, k)
  {
    if k > 0 {
      PushesAreTheCalls(stretch, schedule, i, k - 1);
      assert Leads(stretch, schedule, k - 1);
    }
  }

  /** How many of its own steps a producer past the lock is away from the end of its call. */
  function PushLeft(pc: PushPc): nat {
    match pc
    case PIdle => 0
    case PReturn(_) => 1
    case PWake(_) => 2
    case PUnlock(_) => 3
    case PStoreHead(_, _) => 4
    case PCopy(_, _, _, j) => if j < MAX_PACKET then 4 + MAX_PACKET - j else 5
    case PLoadSlot(_, _) => 5 + MAX_PACKET
    case PLoadTail(_, _) => 6 + MAX_PACKET
    case PLoadHead(_) => 7 + MAX_PACKET
    case PLock(_) => 8 + MAX_PACKET
  }

  lemma ProducerGoesOn(s: State, i: nat, choice: Choice)
    requires InBounds(s) && i < |s.pushers| && !s.pushers[i].pc.PLock? && !(choice.CallPush? && choice.i == i)
    ensures i < |Step(s, choice).pushers| && !Step(s, choice).pushers[i].pc.PLock?
    ensures PushLeft(Step(s, choice).pushers[i].pc) <= PushLeft(s.pushers[i].pc)
    ensures choice == RunPusher(i) && !s.pushers[i].pc.PIdle? ==>
      PushLeft(Step(s, choice).pushers[i].pc) < PushLeft(s.pushers[i].pc)
  {
  }

  /** The lock is never kept, nor a wake-up owed, for long: from wherever a producer stands past the lock, 71
      of its own steps finish its call, whatever all the others do meanwhile. */
  lemma {:induction false} ProducerFinishes(stretch: seq<State>, schedule: seq<Choice>, i: nat, k: nat)
    requires Scheduled(stretch, schedule) && k <= |schedule|
    requires i < |stretch[0].pushers| && !stretch[0].pushers[i].pc.PLock?
    requires forall j :: 0 <= j < k ==> !(schedule[j].CallPush? && schedule[j].i == i)
    ensures i < |stretch[k].pushers| && !stretch[k].pushers[i].pc.PLock?
    ensures var pc := stretch[k].pushers[i].pc;
      pc.PIdle? || PushLeft(pc) + Turns(schedule, RunPusher(i), k) <= PushLeft(stretch[0].pushers[i].pc)
    ensures 71 <= Turns(schedule, RunPusher(i), k) ==> stretch[k].pushers[i].pc.PIdle?
  {
    if k > 0 {
      ProducerFinishes(stretch, schedule, i, k - 1);
      assert Leads(stretch, schedule, k - 1);
      ProducerGoesOn(stretch[k - 1], i, schedule[k - 1]);
    }
  }

  /** How many of its own steps the consumer is away from taking the oldest message. */
  function Distance(pc: PopPc, tail: nat): nat {
    match pc
    case CTestTail(_, head) => if head != tail then 71 else 75
    case CSleep => 74
    case CPrepare => 73
    case CTestHead(_) => 72
    case CFinish => 70
    case CLock => 69
    case CLoadSlot => 68
    case CCopy(_, out) => if |out| < MAX_PACKET then 67 - |out| else 3
    case CLoadOld(_) => 2
    case CStoreTail(_, _) => 1
    case _ => 0
  }

  predicate BeforeTaking(pc: PopPc) {
    !(pc.CIdle? || pc.CStoreTail? || pc.CUnlock? || pc.CReturn?)
  }

  /** The consumer is inside a call that has not taken its message yet, and `m` is the oldest message. */
  ghost predicate Expecting(s: State, m: string) {
    && Inv(s)
    && Queue(s).value != [] && Queue(s).value[0] == m
    && (BeforeTaking(s.poppers[0].pc) || s.poppers[0].pc.CStoreTail?)
  }

  lemma DistanceDrops(s: State)
    requires InBounds(s) && |s.poppers| == 1
    requires s.head != s.tail && !Blocked(s) && BeforeTaking(s.poppers[0].pc)
    requires s.poppers[0].pc.CCopy? ==> |s.poppers[0].pc.out| < MAX_PACKET
    ensures var s' := PopStep(s, 0);
      && |s'.poppers| == 1 && s'.tail == s.tail && s'.history == s.history && s'.data == s.data
      && Distance(s'.poppers[0].pc, s.tail) < Distance(s.poppers[0].pc, s.tail)
      && (BeforeTaking(s'.poppers[0].pc) || s'.poppers[0].pc.CStoreTail?)
  {
  }

  lemma BlockedStaysPut(s: State)
    requires InBounds(s) && Blocked(s)
    ensures PopStep(s, 0) == s
  {
  }

  /** What a producer's choice leaves alone. */
  lemma ProducerTouches(s: State, choice: Choice)
    requires InBounds(s) && |s.poppers| == 1 && (choice.CallPush? || choice.RunPusher?)
    ensures var t := Step(s, choice);
      && t.tail == s.tail && |t.poppers| == 1
      && t.poppers[0].pc == s.poppers[0].pc && t.poppers[0].results == s.poppers[0].results
  {
  }

  lemma ProducerOnlyAppends(s: State, choice: Choice)
    requires RingInv(s) && RingInv(Step(s, choice)) && (choice.CallPush? || choice.RunPusher?)
    ensures Queue(s).value <= Queue(Step(s, choice)).value
  {
    if choice.RunPusher? && choice.i < |s.pushers| {
      PushOnlyAppends(s, choice.i);
    }
  }

  lemma ProducerLeavesConsumer(s: State, choice: Choice, m: string)
    requires Expecting(s, m) && Inv(Step(s, choice)) && (choice.CallPush? || choice.RunPusher?)
    ensures Expecting(Step(s, choice), m)
  {
    ProducerTouches(s, choice);
    ProducerOnlyAppends(s, choice);
  }

  /** The message stays the oldest and nothing more has been taken. */
  ghost predicate StillExpecting(s: State, t: State, m: string) {
    Expecting(s, m) && Expecting(t, m) && PopTotal(t.poppers[0]) == PopTotal(s.poppers[0])
  }

  lemma ProducerTurn(s: State, choice: Choice, m: string)
    requires Expecting(s, m) && Inv(Step(s, choice)) && (choice.CallPush? || choice.RunPusher?)
    ensures var t := Step(s, choice);
      StillExpecting(s, t, m) && Distance(t.poppers[0].pc, t.tail) == Distance(s.poppers[0].pc, s.tail)
  {
    ProducerTouches(s, choice);
    ProducerLeavesConsumer(s, choice, m);
  }

  lemma ConsumerTurn(s: State, m: string)
    requires Expecting(s, m) && !Blocked(s) && !s.poppers[0].pc.CStoreTail? && Inv(PopStep(s, 0))
    ensures var t := PopStep(s, 0);
      StillExpecting(s, t, m) && Distance(t.poppers[0].pc, t.tail) < Distance(s.poppers[0].pc, s.tail)
  {
    var q := Queue(s).value;
    FullAndEmptyTests(s.data, s.head, s.tail, q);
    if s.poppers[0].pc.CCopy? {
      assert |s.poppers[0].pc.out| <= |q[0]| < MAX_PACKET by {
        assert Holds(s.data[Slot(s.tail, 0, |s.data|)], q[0]);
      }
    }
    DistanceDrops(s);
  }

  lemma TakingTurn(s: State, m: string)
    requires Expecting(s, m) && s.poppers[0].pc.CStoreTail? && Inv(PopStep(s, 0))
    ensures PopTotal(PopStep(s, 0).poppers[0]) == PopTotal(s.poppers[0]) + [Popped(PopperId(s, 0), m)]
  {
  }

  /** What the consumer's calls have taken is never taken back. */
  lemma TakenStaysTaken(s: State, choice: Choice)
    requires InBounds(s) && |s.poppers| == 1
    ensures |Step(s, choice).poppers| == 1 && PopTotal(s.poppers[0]) <= PopTotal(Step(s, choice).poppers[0])
  {
    if choice.CallPush? || choice.RunPusher? {
      ProducerTouches(s, choice);
    }
  }

  /** The consumer's own steps at which it is not blocked, among the first k of a schedule. */
  function UnblockedTurns(stretch: seq<State>, schedule: seq<Choice>, k: nat): nat
    requires k <= |schedule| < |stretch|
  {
    if k == 0 then 0
    else UnblockedTurns(stretch, schedule, k - 1) + One(schedule[k - 1] == RunPopper(0) && !Blocked(stretch[k - 1]))
  }

  ghost function UnblockedMoments(stretch: seq<State>, schedule: seq<Choice>, k: nat): set<nat>
    requires k <= |schedule| < |stretch|
  {
    set i: nat | i < k && schedule[i] == RunPopper(0) && !Blocked(stretch[i])
  }

  lemma {:induction false} UnblockedTurnsAreMoments(stretch: seq<State>, schedule: seq<Choice>, k: nat)
    requires k <= |schedule| < |stretch|
    ensures UnblockedTurns(stretch, schedule, k) == |UnblockedMoments(stretch, schedule, k)|
  {
    if k == 0 {
      assert UnblockedMoments(stretch, schedule, 0) == {};
    } else {
      UnblockedTurnsAreMoments(stretch, schedule, k - 1);
      var before, now := UnblockedMoments(stretch, schedule, k - 1), UnblockedMoments(stretch, schedule, k);
      if schedule[k - 1] == RunPopper(0) && !Blocked(stretch[k - 1]) {
        assert now == before + {k - 1};
      } else {
        assert now == before;
      }
    }
  }

  /** From a state whose consumer had taken `taken` and was `far` from the message `m`, this one is reached
      after a number of unblocked turns of the consumer. */
  ghost predicate Nearer(t: State, m: string, taken: seq<Event>, far: nat, turns: nat) {
    && Inv(t)
    && (|| taken + [Popped(PopperId(t, 0), m)] <= PopTotal(t.poppers[0])
        || (&& Expecting(t, m) && PopTotal(t.poppers[0]) == taken
            && 1 <= Distance(t.poppers[0].pc, t.tail)
            && Distance(t.poppers[0].pc, t.tail) + turns <= far))
  }

  /** One turn of the scheduler: the message is taken, or stays the oldest and comes no further away, and
      closer if the turn was the consumer's and it was not blocked. */
  lemma NearerYet(t: State, choice: Choice, m: string, taken: seq<Event>, far: nat, turns: nat)
    requires Nearer(t, m, taken, far, turns)
    ensures |Step(t, choice).pushers| == |t.pushers|
    ensures Nearer(Step(t, choice), m, taken, far, turns + One(choice == RunPopper(0) && !Blocked(t)))
  {
    StepKeepsInv(t, choice);
    if taken + [Popped(PopperId(t, 0), m)] <= PopTotal(t.poppers[0]) {
      TakenStaysTaken(t, choice);
    } else if choice.CallPush? || choice.RunPusher? {
      ProducerTurn(t, choice, m);
    } else if choice == RunPopper(0) {
      if t.poppers[0].pc.CStoreTail? {
        TakingTurn(t, m);
      } else if Blocked(t) {
        BlockedStaysPut(t);
      } else {
        ConsumerTurn(t, m);
      }
    }
  }

  lemma {:induction false} Approach(stretch: seq<State>, schedule: seq<Choice>, k: nat, m: string, taken: seq<Event>, far: nat)
    requires Scheduled(stretch, schedule) && k <= |schedule|
    requires Nearer(stretch[0], m, taken, far, 0)
    ensures Nearer(stretch[k], m, taken, far, UnblockedTurns(stretch, schedule, k))
    ensures |stretch[k].pushers| == |stretch[0].pushers|
  {
    if k > 0 {
      Approach(stretch, schedule, k - 1, m, taken, far);
      assert Leads(stretch, schedule, k - 1);
      NearerYet(stretch[k - 1], schedule[k - 1], m, taken, far, UnblockedTurns(stretch, schedule, k - 1));
    }
  }

  /** Under any interleaving with any number of producers, 75 steps at which the consumer is not blocked
      deliver the oldest message of the ring, even if the consumer had gone to sleep: whatever the state
      of the run in which the consumer is inside a call and the ring not empty, that message is what
      the consumer's calls take next. */
  lemma ConsumerDelivers(n: nat, pushers: nat, run: seq<State>, j: nat, stretch: seq<State>, schedule: seq<Choice>, k: nat)
    requires IsRun(n, pushers, run) && j < |run| && run[j].head != run[j].tail
    requires run[j].poppers != [] && var pc := run[j].poppers[0].pc; BeforeTaking(pc) || pc.CStoreTail?
    requires Scheduled(stretch, schedule) && stretch[0] == run[j] && k <= |schedule|
    requires 75 <= UnblockedTurns(stretch, schedule, k)
    ensures InBounds(run[j]) && Queue(run[j]).Some? && Queue(run[j]).value != []
    ensures var id := PopperId(run[j], 0);
      OfThread(run[j].history, id) + [Popped(id, Queue(run[j]).value[0])] <= OfThread(stretch[k].history, id)
  {
    var s := run[j];
    EveryStateOfARun(n, pushers, run, j);
    FullAndEmptyTests(s.data, s.head, s.tail, Queue(s).value);
    var far := Distance(s.poppers[0].pc, s.tail);
    assert far <= 75;
    Approach(stretch, schedule, k, Queue(s).value[0], PopTotal(s.poppers[0]), far);
  }

  /** How many of its own steps a consumer waiting on the empty ring is away from its sleep. */
  function StepsToSleep(c: Consumer): nat {
    match c.pc
    case CTestHead(looping) => if !looping then 5 else if c.runnable then 6 else 2
    case CTestTail(looping, _) => if !looping then 4 else if c.runnable then 5 else 1
    case CPrepare => 3
    case CSleep => if c.runnable then 4 else 0
    case _ => 0
  }

  ghost predicate Drowsy(s: State) {
    Inv(s) && s.head == s.tail && BeforeTaking(s.poppers[0].pc)
  }

  lemma DrowsierYet(s: State)
    requires Drowsy(s)
    ensures Drowsy(PopStep(s, 0))
    ensures StepsToSleep(s.poppers[0]) == 0 ==> Blocked(s) && PopStep(s, 0) == s
    ensures StepsToSleep(s.poppers[0]) > 0 ==>
      StepsToSleep(PopStep(s, 0).poppers[0]) < StepsToSleep(s.poppers[0])
  {
    PopKeepsInv(s);
    FullAndEmptyTests(s.data, s.head, s.tail, Queue(s).value);
  }

  /** At most `far` steps from its sleep when it had taken none, the consumer has taken `steps` steps. */
  ghost predicate Nods(s: State, far: nat, steps: nat) {
    Drowsy(s) && (StepsToSleep(s.poppers[0]) == 0 || StepsToSleep(s.poppers[0]) + steps <= far)
  }

  lemma NodsOn(s: State, far: nat, steps: nat)
    requires Nods(s, far, steps)
    ensures Nods(PopStep(s, 0), far, steps + 1)
  {
    DrowsierYet(s);
  }

  lemma {:induction false} NodsAlong(stretch: seq<State>, schedule: seq<Choice>, k: nat, far: nat)
    requires Scheduled(stretch, schedule) && k <= |schedule| && Nods(stretch[0], far, 0)
    requires forall j :: 0 <= j < |schedule| ==> schedule[j] == RunPopper(0)
    ensures Nods(stretch[k], far, k)
  {
    if k > 0 {
      NodsAlong(stretch, schedule, k - 1, far);
      assert Leads(stretch, schedule, k - 1);
      NodsOn(stretch[k - 1], far, k - 1);
    }
  }

  /** The consumer does not spin: inside a call on an empty ring, six of its steps, if no producer steps in,
      put it to sleep, not to run again until it is woken. */
  lemma ConsumerSleeps(n: nat, pushers: nat, run: seq<State>, j: nat, stretch: seq<State>, schedule: seq<Choice>)
    requires IsRun(n, pushers, run) && j < |run| && run[j].head == run[j].tail
    requires run[j].poppers != [] && BeforeTaking(run[j].poppers[0].pc)
    requires Scheduled(stretch, schedule) && stretch[0] == run[j] && 6 <= |schedule|
    requires forall i :: 0 <= i < |schedule| ==> schedule[i] == RunPopper(0)
    ensures stretch[|schedule|].poppers != []
    ensures var c := stretch[|schedule|].poppers[0]; c.pc.CSleep? && !c.runnable
  {
    EveryStateOfARun(n, pushers, run, j);
    NodsAlong(stretch, schedule, |schedule|, 6);
    DrowsierYet(stretch[|schedule|]);
  }

  // ---------------------------------------------------------------- why one consumer only

  function Last(run: seq<State>): State
    requires run != []
  {
    run[|run| - 1]
  }

  /** Extends a run, with any number of threads, by one choice of the scheduler. */
  lemma Extend(first: State, run: seq<State>, choice: Choice, t: State) returns (longer: seq<State>)
    requires IsRunFrom(first, run) && InBounds(Last(run)) && Step(Last(run), choice) == t
    ensures IsRunFrom(first, longer) && Last(longer) == t
  {
    longer := run + [t];
    forall k | 0 < k < |longer|
      ensures StepAt(longer, k)
    {
      if k < |run| {
        assert StepAt(run, k);
        assert longer[k - 1] == run[k - 1];
      } else {
        assert t == Step(longer[k - 1], choice);
      }
    }
  }

  lemma AtTwice(s: State, i: nat, a: PushPc, b: PushPc)
    requires i < |s.pushers|
    ensures At(At(s, i, a), i, b) == At(s, i, b)
  {
    assert At(At(s, i, a), i, b).pushers == At(s, i, b).pushers;
  }

  lemma PopAtTwice(s: State, i: nat, a: PopPc, b: PopPc)
    requires i < |s.poppers|
    ensures PopAt(PopAt(s, i, a), i, b) == PopAt(s, i, b)
  {
    assert PopAt(PopAt(s, i, a), i, b).poppers == PopAt(s, i, b).poppers;
  }

  // A consumer past the test, alone.

  lemma {:induction false} CopiesOut(first: State, run: seq<State>, i: nat, out: string) returns (longer: seq<State>)
    requires IsRunFrom(first, run) && InBounds(Last(run)) && i < |Last(run).poppers| && |out| < MAX_PACKET
    requires Last(run).poppers[i].pc == CCopy(Last(run).tail, out)
    ensures IsRunFrom(first, longer)
    ensures Last(longer) == PopAt(Last(run), i, CLoadOld(out + TextFrom(Last(run).data[Last(run).tail], |out|)))
    decreases MAX_PACKET - |out|
  {
    var s := Last(run);
    var row := s.data[s.tail];
    if |out| < MAX_PACKET - 1 && row[|out|] != '\0' {
      var next := out + [row[|out|]];
      longer := Extend(first, run, RunPopper(i), PopAt(s, i, CCopy(s.tail, next)));
      longer := CopiesOut(first, longer, i, next);
      PopAtTwice(s, i, CCopy(s.tail, next), CLoadOld(next + TextFrom(row, |next|)));
      assert next + TextFrom(row, |next|) == out + TextFrom(row, |out|);
    } else {
      longer := Extend(first, run, RunPopper(i), PopAt(s, i, CLoadOld(out)));
      assert out + [] == out;
    }
  }

  predicate ReadyToTake(s: State, i: nat) {
    InBounds(s) && i < |s.poppers| && s.poppers[i].pc.CLock? && s.lock.Free? && s.tail < |s.data|
  }

  lemma ReadsTheSlot(first: State, run: seq<State>, i: nat) returns (longer: seq<State>)
    requires IsRunFrom(first, run) && ReadyToTake(Last(run), i)
    ensures IsRunFrom(first, longer)
    ensures Last(longer) == PopAt(Last(run).(lock := PopperHolds(i)), i, CLoadOld(Text(Last(run).data[Last(run).tail])))
  {
    var s := Last(run).(lock := PopperHolds(i));
    var text := Text(s.data[s.tail]);
    longer := Extend(first, run, RunPopper(i), PopAt(s, i, CLoadSlot));
    PopAtTwice(s, i, CLoadSlot, CCopy(s.tail, ""));
    longer := Extend(first, longer, RunPopper(i), PopAt(s, i, CCopy(s.tail, "")));
    longer := CopiesOut(first, longer, i, "");
    assert "" + text == text;
    PopAtTwice(s, i, CCopy(s.tail, ""), CLoadOld(text));
  }

  /** Past the test, the code takes whatever the tail slot holds: a consumer running alone with the lock
      free advances the tail and pops that slot's text, whether or not the ring is empty. */
  lemma TakesWithoutLooking(first: State, run: seq<State>, i: nat) returns (longer: seq<State>)
    requires IsRunFrom(first, run) && ReadyToTake(Last(run), i)
    ensures IsRunFrom(first, longer)
    ensures var s := Last(run); var e := Popped(PopperId(s, i), Text(s.data[s.tail]));
      Last(longer) == PopAt(s, i, CReturn(e)).(tail := (s.tail + 1) % |s.data|, history := s.history + [e])
  {
    var s := Last(run).(lock := PopperHolds(i));
    var text := Text(s.data[s.tail]);
    var e := Popped(PopperId(s, i), text);
    longer := ReadsTheSlot(first, run, i);
    PopAtTwice(s, i, CLoadOld(text), CStoreTail(text, s.tail));
    longer := Extend(first, longer, RunPopper(i), PopAt(s, i, CStoreTail(text, s.tail)));
    var taken := s.(tail := (s.tail + 1) % |s.data|, history := s.history + [e]);
    PopAtTwice(s, i, CStoreTail(text, s.tail), CUnlock(e));
    longer := Extend(first, longer, RunPopper(i), PopAt(taken, i, CUnlock(e)));
    PopAtTwice(s, i, CUnlock(e), CReturn(e));
    longer := Extend(first, longer, RunPopper(i), PopAt(taken, i, CReturn(e)).(lock := Free));
  }

  lemma PassesTheTest(first: State, run: seq<State>, i: nat) returns (longer: seq<State>)
    requires IsRunFrom(first, run) && InBounds(Last(run))
    requires i < |Last(run).poppers| && Last(run).poppers[i].pc.CIdle? && Last(run).head != Last(run).tail
    ensures IsRunFrom(first, longer) && Last(longer) == PopAt(Last(run), i, CLock)
  {
    var s := Last(run);
    longer := Extend(first, run, CallPop(i), PopAt(s, i, CTestHead(false)));
    PopAtTwice(s, i, CTestHead(false), CTestTail(false, s.head));
    longer := Extend(first, longer, RunPopper(i), PopAt(s, i, CTestTail(false, s.head)));
    PopAtTwice(s, i, CTestTail(false, s.head), CLock);
    longer := Extend(first, longer, RunPopper(i), PopAt(s, i, CLock));
  }

  // A producer, alone.

  lemma {:induction false} CopiesIn(first: State, run: seq<State>, i: nat, msg: CString, next: nat, slot: nat, j: nat)
    returns (longer: seq<State>, row: Row)
    requires IsRunFrom(first, run) && InBounds(Last(run)) && i < |Last(run).pushers|
    requires Last(run).pushers[i].pc == PCopy(msg, next, slot, j)
    requires j <= |Cut(msg)| && Last(run).data[slot][..j] == msg[..j]
    ensures IsRunFrom(first, longer) && Holds(row, Cut(msg))
    ensures Last(longer) == At(Last(run), i, PStoreHead(msg, next)).(data := Last(run).data[slot := row])
    decreases MAX_PACKET - j
  {
    var s := Last(run);
    if j < |Cut(msg)| {
      row := s.data[slot][j := msg[j]];
      assert row[..j + 1] == s.data[slot][..j] + [msg[j]] == msg[..j + 1];
      var pc := PCopy(msg, next, slot, j + 1);
      longer := Extend(first, run, RunPusher(i), At(s, i, pc).(data := s.data[slot := row]));
      var written := row;
      longer, row := CopiesIn(first, longer, i, msg, next, slot, j + 1);
      AtTwice(s, i, pc, PStoreHead(msg, next));
      assert s.data[slot := written][slot := row] == s.data[slot := row];
    } else {
      row := s.data[slot][j := '\0'];
      assert row[..j] == s.data[slot][..j] == Cut(msg);
      longer := Extend(first, run, RunPusher(i), At(s, i, PStoreHead(msg, next)).(data := s.data[slot := row]));
    }
  }

  predicate ReadyToPush(s: State, i: nat) {
    && InBounds(s) && s.head < |s.data| && s.tail < |s.data| && (s.head + 1) % |s.data| != s.tail
    && i < |s.pushers| && s.pushers[i].pc.PIdle? && s.lock.Free?
  }

  lemma FindsRoom(first: State, run: seq<State>, i: nat, msg: CString) returns (longer: seq<State>)
    requires IsRunFrom(first, run) && ReadyToPush(Last(run), i)
    ensures IsRunFrom(first, longer)
    ensures var s := Last(run);
      Last(longer) == At(Called(s, i, msg), i, PCopy(msg, (s.head + 1) % |s.data|, s.head, 0)).(lock := PusherHolds(i))
  {
    var c := Called(Last(run), i, msg);
    var s := c.(lock := PusherHolds(i));
    var next := (s.head + 1) % |s.data|;
    longer := Extend(first, run, CallPush(i, msg), c);
    longer := Extend(first, longer, RunPusher(i), At(s, i, PLoadHead(msg)));
    AtTwice(s, i, PLoadHead(msg), PLoadTail(msg, next));
    longer := Extend(first, longer, RunPusher(i), At(s, i, PLoadTail(msg, next)));
    AtTwice(s, i, PLoadTail(msg, next), PLoadSlot(msg, next));
    longer := Extend(first, longer, RunPusher(i), At(s, i, PLoadSlot(msg, next)));
    AtTwice(s, i, PLoadSlot(msg, next), PCopy(msg, next, s.head, 0));
    longer := Extend(first, longer, RunPusher(i), At(s, i, PCopy(msg, next, s.head, 0)));
  }

  /** A producer running alone with the lock free publishes its message in the head slot. */
  lemma PushesAlone(first: State, run: seq<State>, i: nat, msg: CString) returns (longer: seq<State>, row: Row)
    requires IsRunFrom(first, run) && ReadyToPush(Last(run), i)
    ensures IsRunFrom(first, longer) && Holds(row, Cut(msg))
    ensures var s := Last(run); var e := Accepted(i, Cut(msg));
      Last(longer) == At(Called(s, i, msg), i, PWake(e))
        .(data := s.data[s.head := row], head := (s.head + 1) % |s.data|, history := s.history + [e])
  {
    var s := Called(Last(run), i, msg);
    var next := (s.head + 1) % |s.data|;
    var e := Accepted(i, Cut(msg));
    longer := FindsRoom(first, run, i, msg);
    longer, row := CopiesIn(first, longer, i, msg, next, s.head, 0);
    var full := s.(data := s.data[s.head := row], lock := PusherHolds(i));
    AtTwice(s, i, PCopy(msg, next, s.head, 0), PStoreHead(msg, next));
    assert Last(longer) == At(full, i, PStoreHead(msg, next));
    var published := full.(head := next, history := s.history + [e]);
    AtTwice(s, i, PStoreHead(msg, next), PUnlock(e));
    longer := Extend(first, longer, RunPusher(i), At(published, i, PUnlock(e)));
    AtTwice(s, i, PUnlock(e), PWake(e));
    longer := Extend(first, longer, RunPusher(i), At(published, i, PWake(e)).(lock := Free));
  }

  lemma BothPassTheTest(n: nat, pushers: nat, poppers: nat, msg: CString) returns (run: seq<State>)
    requires 2 <= n && 1 <= pushers && 2 <= poppers
    ensures IsRunFrom(Init(n, pushers, poppers), run)
    ensures ReadyToTake(Last(run), 0) && ReadyToTake(Last(run), 1)
    ensures var s := Last(run);
      && |s.data| == n && s.tail == 0 && |s.pushers| == pushers && s.history == [Accepted(0, Cut(msg))]
      && Text(s.data[0]) == Cut(msg) && Text(s.data[1]) == ""
  {
    var first := Init(n, pushers, poppers);
    var row: Row;
    Successor(0, n);
    run, row := PushesAlone(first, [first], 0, msg);
    TextOfHeld(row, Cut(msg), 0);
    assert [] + [Accepted(0, Cut(msg))] == [Accepted(0, Cut(msg))];
    run := PassesTheTest(first, run, 0);
    run := PassesTheTest(first, run, 1);
  }

  /** With a producer and two consumers the ring is no longer a FIFO: whatever is pushed, both consumers can
      pass the unlocked test on that one message, and the second then pops a message nobody pushed,
      from a slot that was never filled. */
  lemma TwoConsumersPopAnUnfilledSlot(n: nat, pushers: nat, poppers: nat, msg: CString) returns (run: seq<State>)
    requires 2 <= n && 1 <= pushers && 2 <= poppers
    ensures IsRunFrom(Init(n, pushers, poppers), run)
    ensures AcceptedBy(Last(run).history) == [Cut(msg)] && PoppedFrom(Last(run).history) == [Cut(msg), ""]
    ensures Replay(Last(run).history, n - 1).None?
  {
    var first := Init(n, pushers, poppers);
    var a, b, c := Accepted(0, Cut(msg)), Popped(pushers, Cut(msg)), Popped(pushers + 1, "");
    Successor(0, n);
    run := BothPassTheTest(n, pushers, poppers, msg);
    run := TakesWithoutLooking(first, run, 0);
    assert Last(run).history == [a, b];
    run := TakesWithoutLooking(first, run, 1);
    assert Last(run).history == [a, b, c];
    PoppingTooOftenIsIllegal(a, b, c, n - 1);
  }

  // ---------------------------------------------------------------- exactly when the ring is a FIFO

  /** With these numbers of threads every run ends, hence every run at every moment is, in a state in which
      the ring is a FIFO. */
  ghost predicate AlwaysFifo(n: nat, pushers: nat, poppers: nat)
    requires 2 <= n
  {
    forall run :: IsRunFrom(Init(n, pushers, poppers), run) ==>
      ImplementsFifo(Last(run).data, Last(run).head, Last(run).tail, Last(run).history, n - 1)
  }

  /** The driver's ring is a FIFO in every run exactly if there is at most one consumer, or no producer. */
  lemma FifoExactlyWithOneConsumer(n: nat, pushers: nat, poppers: nat)
    requires 2 <= n
    ensures AlwaysFifo(n, pushers, poppers) <==> poppers <= 1 || pushers == 0
  {
    if poppers <= 1 || pushers == 0 {
      forall run | IsRunFrom(Init(n, pushers, poppers), run)
        ensures ImplementsFifo(Last(run).data, Last(run).head, Last(run).tail, Last(run).history, n - 1)
      {
        if poppers == 1 {
          RefinesBoundedFifo(n, pushers, run, |run| - 1);
        } else if pushers == 0 {
          NothingHappens(n, poppers, run, |run| - 1);
        } else {
          FifoWithoutConsumers(n, pushers, run);
        }
      }
    } else {
      var run := TwoConsumersPopAnUnfilledSlot(n, pushers, poppers, "");
      assert IsRunFrom(Init(n, pushers, poppers), run);
    }
  }

  // Without a producer no consumer ever passes the test.

  predicate Waits(pc: PopPc) {
    pc.CIdle? || pc.CTestHead? || (pc.CTestTail? && pc.head == 0) || pc.CPrepare? || pc.CSleep?
  }

  ghost predicate Quiet(s: State, n: nat) {
    && InBounds(s) && |s.data| == n && s.pushers == []
    && s.head == 0 && s.tail == 0 && s.history == []
    && forall i :: 0 <= i < |s.poppers| ==> Waits(s.poppers[i].pc)
  }

  lemma StaysQuiet(s: State, t: State, n: nat)
    requires Quiet(s, n) && Next(s, t)
    ensures Quiet(t, n)
  {
  }

  lemma {:induction false} NothingHappens(n: nat, poppers: nat, run: seq<State>, k: nat)
    requires 2 <= n && IsRunFrom(Init(n, 0, poppers), run) && k < |run|
    ensures Quiet(run[k], n)
    ensures ImplementsFifo(run[k].data, run[k].head, run[k].tail, run[k].history, n - 1)
  {
    if k > 0 {
      NothingHappens(n, poppers, run, k - 1);
      assert StepAt(run, k);
      StaysQuiet(run[k - 1], run[k], n);
    }
  }

  // Without a consumer the producers do what they would do beside an idle one.

  function WithIdleConsumer(s: State): State {
    s.(poppers := [Consumer(CIdle, false, true, [])])
  }

  lemma PushBesideIdleConsumer(s: State, i: nat)
    requires s.poppers == [] && InBounds(s) && i < |s.pushers|
    ensures PushStep(s, i).poppers == []
    ensures PushStep(WithIdleConsumer(s), i) == WithIdleConsumer(PushStep(s, i))
  {
    if s.pushers[i].pc.PWake? {
      assert Woken([]) == [] && Woken(WithIdleConsumer(s).poppers) == WithIdleConsumer(s).poppers;
    }
  }

  lemma IdleConsumerChangesNothing(s: State, t: State)
    requires s.poppers == [] && Next(s, t)
    ensures t.poppers == [] && Next(WithIdleConsumer(s), WithIdleConsumer(t))
  {
    var choice :| t == Step(s, choice);
    var same := if choice.CallPop? || choice.RunPopper? then RunPusher(|s.pushers|) else choice;
    if same.RunPusher? && same.i < |s.pushers| {
      PushBesideIdleConsumer(s, same.i);
    }
    assert WithIdleConsumer(t) == Step(WithIdleConsumer(s), same);
  }

  lemma {:induction false} NoConsumers(n: nat, pushers: nat, run: seq<State>, k: nat)
    requires IsRunFrom(Init(n, pushers, 0), run) && k < |run|
    ensures run[k].poppers == []
  {
    if k > 0 {
      NoConsumers(n, pushers, run, k - 1);
      assert StepAt(run, k);
      IdleConsumerChangesNothing(run[k - 1], run[k]);
    }
  }

  lemma FifoWithoutConsumers(n: nat, pushers: nat, run: seq<State>)
    requires 2 <= n && IsRunFrom(Init(n, pushers, 0), run)
    ensures ImplementsFifo(Last(run).data, Last(run).head, Last(run).tail, Last(run).history, n - 1)
  {
    var beside := seq(|run|, k requires 0 <= k < |run| => WithIdleConsumer(run[k]));
    assert Init(n, pushers, 1).poppers == WithIdleConsumer(Init(n, pushers, 0)).poppers;
    assert beside[0] == Init(n, pushers, 1);
    forall k | 0 < k < |beside|
      ensures StepAt(beside, k)
    {
      assert StepAt(run, k);
      NoConsumers(n, pushers, run, k - 1);
      IdleConsumerChangesNothing(run[k - 1], run[k]);
    }
    RefinesBoundedFifo(n, pushers, beside, |beside| - 1);
  }
}
