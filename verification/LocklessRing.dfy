/** The lock-free ring: one producer and one consumer, interleaved at every single memory access.
    Memory is sequentially consistent. Every machine step performs at most one load or one store of
    shared memory; strscpy is one step per character. The ring has any number n >= 2 of slots. */
module LocklessRing {
  import opened BoundedFifo
  import opened DriverBasics
  import opened RingLayout

  const PRODUCER: nat := 0
  const CONSUMER: nat := 1

  /** Where ring_push stands: each constructor names the access it is about to perform. */
  datatype Pusher =
    | PIdle
    | PLoadHead(msg: CString)
    | PLoadTail(msg: CString, next: nat)
    | PLoadSlot(msg: CString, next: nat)
    | PCopy(msg: CString, next: nat, slot: nat, i: nat)
    | PStoreHead(msg: CString, next: nat)
    | PReturn(result: Event)

  /** Where ring_pop stands. */
  datatype Popper =
    | CIdle
    | CLoadHead
    | CLoadTail(head: nat)
    | CLoadSlot
    | CCopy(slot: nat, out: string)
    | CLoadOld(out: string)
    | CStoreTail(out: string, last: nat)
    | CReturn(result: Event)

  /** Shared memory, both threads, and four records kept for the proofs: every operation at the moment
      it takes effect, what the producer's calls were asked to push, and what each thread's calls
      have returned so far. */
  datatype State = State(data: seq<Row>, head: nat, tail: nat, p: Pusher, c: Popper, history: seq<Event>,
                         asked: seq<CString>, pushResults: seq<Event>, popResults: seq<Event>)

  /** One choice of the scheduler. A call on a busy thread, or a step of an idle one, changes nothing. */
  datatype Choice = CallPush(msg: CString) | RunPusher | CallPop | RunPopper

  function Init(n: nat): State {
    State(seq(n, _ => seq(MAX_PACKET, _ => '\0')), 0, 0, PIdle, CIdle, [], [], [], [])
  }

  function PushStep(s: State): State
    requires InBounds(s)
  {
    match s.p
    case PIdle => s
    case PLoadHead(msg) =>
      s.(p := PLoadTail(msg, (s.head + 1) % |s.data|))
    case PLoadTail(msg, next) =>
      if next == s.tail then
        s.(p := PReturn(Full(PRODUCER)), history := s.history + [Full(PRODUCER)])
      else
        s.(p := PLoadSlot(msg, next))
    case PLoadSlot(msg, next) =>
      s.(p := PCopy(msg, next, s.head, 0))
    case PCopy(msg, next, slot, i) =>
      if i < MAX_PACKET - 1 && i < |msg| then
        s.(data := s.data[slot := s.data[slot][i := msg[i]]], p := PCopy(msg, next, slot, i + 1))
      else
        s.(data := s.data[slot := s.data[slot][i := '\0']], p := PStoreHead(msg, next))
    case PStoreHead(msg, next) =>
      s.(head := next, p := PReturn(Accepted(PRODUCER, Cut(msg))),
         history := s.history + [Accepted(PRODUCER, Cut(msg))])
    case PReturn(result) =>
      s.(p := PIdle, pushResults := s.pushResults + [result])
  }

  function PopStep(s: State): State
    requires InBounds(s)
  {
    match s.c
    case CIdle => s
    case CLoadHead =>
      // Only this thread moves the tail, so the outcome of the test is settled by this load.
      s.(c := CLoadTail(s.head),
         history := if s.head == s.tail then s.history + [Empty(CONSUMER)] else s.history)
    case CLoadTail(head) =>
      s.(c := if head == s.tail then CReturn(Empty(CONSUMER)) else CLoadSlot)
    case CLoadSlot =>
      s.(c := CCopy(s.tail, ""))
    case CCopy(slot, out) =>
      if |out| < MAX_PACKET - 1 && s.data[slot][|out|] != '\0' then
        s.(c := CCopy(slot, out + [s.data[slot][|out|]]))
      else
        s.(c := CLoadOld(out))
    case CLoadOld(out) =>
      s.(c := CStoreTail(out, s.tail))
    case CStoreTail(out, last) =>
      s.(tail := (last + 1) % |s.data|, c := CReturn(Popped(CONSUMER, out)),
         history := s.history + [Popped(CONSUMER, out)])
    case CReturn(result) =>
      s.(c := CIdle, popResults := s.popResults + [result])
  }

  function Step(s: State, choice: Choice): State
    requires InBounds(s)
  {
    match choice
    case CallPush(msg) => if s.p.PIdle? then s.(p := PLoadHead(msg), asked := s.asked + [msg]) else s
    case RunPusher => PushStep(s)
    case CallPop => if s.c.CIdle? then s.(c := CLoadHead) else s
    case RunPopper => PopStep(s)
  }

  /** What the steps need in order not to index outside the ring. */
  predicate InBounds(s: State) {
    && 2 <= |s.data|
    && (s.p.PCopy? ==> s.p.slot < |s.data| && s.p.i < MAX_PACKET)
    && (s.c.CCopy? ==> s.c.slot < |s.data|)
  }

  /** The abstract queue: what the history leaves. */
  ghost function Queue(s: State): Option<seq<string>>
    requires InBounds(s)
  {
    Replay(s.history, |s.data| - 1)
  }

  ghost predicate PusherInv(s: State, q: seq<string>)
    requires Indices(s.data, s.head, s.tail)
  {
    match s.p
    case PLoadTail(_, next) => next == (s.head + 1) % |s.data|
    case PLoadSlot(_, next) => next == (s.head + 1) % |s.data| && |q| < |s.data| - 1
    case PCopy(msg, next, slot, i) =>
      && next == (s.head + 1) % |s.data| && |q| < |s.data| - 1
      && slot == s.head && i <= |Cut(msg)| && s.data[slot][..i] == msg[..i]
    case PStoreHead(msg, next) =>
      next == (s.head + 1) % |s.data| && |q| < |s.data| - 1 && Holds(s.data[s.head], Cut(msg))
    case _ => true
  }

  ghost predicate PopperInv(s: State, q: seq<string>) {
    match s.c
    case CLoadTail(head) => head != s.tail ==> q != []
    case CLoadSlot => q != []
    case CCopy(slot, out) => slot == s.tail && q != [] && out <= q[0]
    case CLoadOld(out) => q != [] && out == q[0]
    case CStoreTail(out, last) => q != [] && out == q[0] && last == s.tail
    case _ => true
  }

  /** Each thread's calls have returned exactly its events of the history, except that the call in
      progress may already have taken effect. */
  ghost predicate ResultsMatch(s: State) {
    && OfThread(s.history, PRODUCER)
       == s.pushResults + (if s.p.PReturn? then [s.p.result] else [])
    && OfThread(s.history, CONSUMER)
       == s.popResults
          + (match s.c
             case CReturn(result) => [result]
             case CLoadTail(head) => if head == s.tail then [Empty(CONSUMER)] else []
             case _ => [])
  }

  /** The result a push may return for a message. */
  predicate Answers(e: Event, msg: CString) {
    e == Full(PRODUCER) || e == Accepted(PRODUCER, Cut(msg))
  }

  ghost predicate AskedInv(s: State) {
    && |s.asked| == |s.pushResults| + (if s.p.PIdle? then 0 else 1)
    && (forall i :: 0 <= i < |s.pushResults| ==> Answers(s.pushResults[i], s.asked[i]))
    && match s.p
       case PIdle => true
       case PReturn(result) => Answers(result, s.asked[|s.asked| - 1])
       case _ => s.p.msg == s.asked[|s.asked| - 1]
  }

  ghost predicate RingInv(s: State) {
    && InBounds(s)
    && Indices(s.data, s.head, s.tail)
    && Queue(s).Some?
    && Contains(s.data, s.head, s.tail, Queue(s).value)
    && PusherInv(s, Queue(s).value)
    && PopperInv(s, Queue(s).value)
    && ResultsMatch(s)
  }

  ghost predicate Inv(s: State) {
    RingInv(s) && AskedInv(s)
  }

  ghost predicate Next(s: State, t: State) {
    InBounds(s) && exists choice :: t == Step(s, choice)
  }

  /** A run: from a freshly zeroed ring of n slots, one choice of the scheduler at a time. */
  ghost predicate IsRun(n: nat, run: seq<State>) {
    && 2 <= n && run != [] && run[0] == Init(n)
    && forall k :: 0 < k < |run| ==> StepAt(run, k)
  }

  ghost predicate StepAt(run: seq<State>, k: nat)
    requires 0 < k < |run|
  {
    Next(run[k - 1], run[k])
  }

  lemma {:induction false} EveryStateOfARun(n: nat, run: seq<State>, k: nat)
    requires IsRun(n, run) && k < |run|
    ensures Inv(run[k]) && |run[k].data| == n
  {
    if k > 0 {
      EveryStateOfARun(n, run, k - 1);
      assert StepAt(run, k);
      var choice :| run[k] == Step(run[k - 1], choice);
      StepKeepsInv(run[k - 1], choice);
    }
  }

  /** Whatever the interleaving, the operations that took effect form a legal history of a FIFO of
      capacity n - 1: a push is refused only at an instant when the ring is full, a pop only when it is
      empty, every popped message is the oldest accepted one, whole and cut to 63 characters, and what
      was accepted is what was popped followed by what the occupied slots hold. */
  lemma RefinesBoundedFifo(n: nat, run: seq<State>, k: nat)
    requires IsRun(n, run) && k < |run|
    ensures ImplementsFifo(run[k].data, run[k].head, run[k].tail, run[k].history, n - 1)
  {
    EveryStateOfARun(n, run, k);
    NothingLostRepeatedOrReordered(run[k].history, n - 1);
  }

  /** No slot is ever read and written at once: from the moment the producer picks its slot until it
      publishes it, the consumer is not in that slot. */
  lemma WriterAndReaderNeverMeet(n: nat, run: seq<State>, k: nat)
    requires IsRun(n, run) && k < |run|
    requires run[k].p.PCopy? && run[k].c.CCopy?
    ensures run[k].p.slot != run[k].c.slot
  {
    EveryStateOfARun(n, run, k);
    FullAndEmptyTests(run[k].data, run[k].head, run[k].tail, Queue(run[k]).value);
  }

  /** The k-th push returns for the k-th message the producer was asked to push. */
  lemma PushesAnswerTheirMessages(n: nat, run: seq<State>, k: nat, i: nat)
    requires IsRun(n, run) && k < |run| && i < |run[k].pushResults|
    ensures i < |run[k].asked| && Answers(run[k].pushResults[i], run[k].asked[i])
  {
    EveryStateOfARun(n, run, k);
  }

  /** The history only grows, and at a moment when a thread is between calls it holds exactly what
      that thread's finished calls returned. So every call takes effect once, between its invocation
      and its return, with the result it returns: the ring is linearizable. */
  lemma {:induction false} EachCallTakesEffectOnceInside(n: nat, run: seq<State>, j: nat, k: nat)
    requires IsRun(n, run) && j <= k < |run|
    ensures run[j].history <= run[k].history
    ensures run[j].p.PIdle? ==> OfThread(run[j].history, PRODUCER) == run[j].pushResults
    ensures run[j].c.CIdle? ==> OfThread(run[j].history, CONSUMER) == run[j].popResults
    decreases k
  {
    EveryStateOfARun(n, run, j);
    if j < k {
      EachCallTakesEffectOnceInside(n, run, j, k - 1);
      assert StepAt(run, k);
      var choice :| run[k] == Step(run[k - 1], choice);
      HistoryOnlyGrows(run[k - 1], choice);
    }
  }

  // ---------------------------------------------------------------- every call is short

  /** How many of its own steps a thread is away from the end of its call. */
  function PushLeft(p: Pusher): nat {
    match p
    case PIdle => 0
    case PReturn(_) => 1
    case PStoreHead(_, _) => 2
    case PCopy(_, _, _, i) => if i < MAX_PACKET then 2 + MAX_PACKET - i else 3
    case PLoadSlot(_, _) => 3 + MAX_PACKET
    case PLoadTail(_, _) => 4 + MAX_PACKET
    case PLoadHead(_) => 5 + MAX_PACKET
  }

  function PopLeft(c: Popper): nat {
    match c
    case CIdle => 0
    case CReturn(_) => 1
    case CStoreTail(_, _) => 2
    case CLoadOld(_) => 3
    case CCopy(_, out) => if |out| < MAX_PACKET then 3 + MAX_PACKET - |out| else 4
    case CLoadSlot => 4 + MAX_PACKET
    case CLoadTail(_) => 5 + MAX_PACKET
    case CLoadHead => 6 + MAX_PACKET
  }

  lemma EveryStepHelps(s: State, choice: Choice)
    requires InBounds(s)
    ensures !choice.CallPush? ==> PushLeft(Step(s, choice).p) <= PushLeft(s.p)
    ensures !choice.CallPop? ==> PopLeft(Step(s, choice).c) <= PopLeft(s.c)
    ensures choice.RunPusher? && !s.p.PIdle? ==> PushLeft(Step(s, choice).p) < PushLeft(s.p)
    ensures choice.RunPopper? && !s.c.CIdle? ==> PopLeft(Step(s, choice).c) < PopLeft(s.c)
  {
  }

  /** A stretch of states, and the choices of the scheduler that lead through it. */
  predicate Scheduled(stretch: seq<State>, schedule: seq<Choice>) {
    && |stretch| == |schedule| + 1
    && forall k :: 0 <= k < |schedule| ==> Leads(stretch, schedule, k)
  }

  predicate Leads(stretch: seq<State>, schedule: seq<Choice>, k: nat)
    requires k < |schedule| < |stretch|
  {
    InBounds(stretch[k]) && stretch[k + 1] == Step(stretch[k], schedule[k])
  }

  /** How often a choice is made among the first k. */
  function Turns(schedule: seq<Choice>, mine: Choice, k: nat): nat
    requires k <= |schedule|
  {
    if k == 0 then 0 else Turns(schedule, mine, k - 1) + One(schedule[k - 1] == mine)
  }

  lemma {:induction false} TurnsAreOccurrences(schedule: seq<Choice>, mine: Choice, k: nat)
    requires k <= |schedule|
    ensures Turns(schedule, mine, k) == multiset(schedule[..k])[mine]
  {
    if k > 0 {
      TurnsAreOccurrences(schedule, mine, k - 1);
      assert schedule[..k] == schedule[..k - 1] + [schedule[k - 1]];
    }
  }

  /** A push never waits: from wherever it stands, 69 steps of the producer finish it, whatever the
      consumer does, or fails to do, meanwhile. */
  lemma {:induction false} PushIsWaitFree(stretch: seq<State>, schedule: seq<Choice>, k: nat)
    requires Scheduled(stretch, schedule) && k <= |schedule|
    requires forall i :: 0 <= i < k ==> !schedule[i].CallPush?
    ensures stretch[k].p.PIdle? || PushLeft(stretch[k].p) + Turns(schedule, RunPusher, k) <= PushLeft(stretch[0].p)
    ensures 69 <= Turns(schedule, RunPusher, k) ==> stretch[k].p.PIdle?
  {
    if k > 0 {
      PushIsWaitFree(stretch, schedule, k - 1);
      assert Leads(stretch, schedule, k - 1);
      EveryStepHelps(stretch[k - 1], schedule[k - 1]);
    }
  }

  /** Nor does a pop: 70 steps of the consumer finish it. */
  lemma {:induction false} PopIsWaitFree(stretch: seq<State>, schedule: seq<Choice>, k: nat)
    requires Scheduled(stretch, schedule) && k <= |schedule|
    requires forall i :: 0 <= i < k ==> !schedule[i].CallPop?
    ensures stretch[k].c.CIdle? || PopLeft(stretch[k].c) + Turns(schedule, RunPopper, k) <= PopLeft(stretch[0].c)
    ensures 70 <= Turns(schedule, RunPopper, k) ==> stretch[k].c.CIdle?
  {
    if k > 0 {
      PopIsWaitFree(stretch, schedule, k - 1);
      assert Leads(stretch, schedule, k - 1);
      EveryStepHelps(stretch[k - 1], schedule[k - 1]);
    }
  }

  // ---------------------------------------------------------------- every call is answered

  /** What the producer was called with among the first k choices. A call of a busy producer is none. */
  function Requested(stretch: seq<State>, schedule: seq<Choice>, k: nat): seq<CString>
    requires k <= |schedule| < |stretch|
  {
    if k == 0 then []
    else
      Requested(stretch, schedule, k - 1)
      + (if schedule[k - 1].CallPush? && stretch[k - 1].p.PIdle? then [schedule[k - 1].msg] else [])
  }

  /** The pushes are those the caller made, with the messages the caller gave. */
  lemma {:induction false} PushesAreTheCalls(stretch: seq<State>, schedule: seq<Choice>, k: nat)
    requires Scheduled(stretch, schedule) && k <= |schedule|
    ensures stretch[k].asked == stretch[0].asked + Requested(stretch, schedule, k)
  {
    if k > 0 {
      PushesAreTheCalls(stretch, schedule, k - 1);
      assert Leads(stretch, schedule, k - 1);
    }
  }

  lemma {:induction false} FirstRequestStays(stretch: seq<State>, schedule: seq<Choice>, k: nat)
    requires k <= |schedule| < |stretch| && 1 <= k
    requires schedule[0].CallPush? && stretch[0].p.PIdle?
    ensures [schedule[0].msg] <= Requested(stretch, schedule, k)
  {
    if k > 1 {
      FirstRequestStays(stretch, schedule, k - 1);
    }
  }

  lemma {:induction false} InvAlong(stretch: seq<State>, schedule: seq<Choice>, k: nat)
    requires Scheduled(stretch, schedule) && k <= |schedule| && Inv(stretch[0])
    ensures Inv(stretch[k])
  {
    if k > 0 {
      InvAlong(stretch, schedule, k - 1);
      assert Leads(stretch, schedule, k - 1);
      StepKeepsInv(stretch[k - 1], schedule[k - 1]);
    }
  }

  ghost predicate HasRoom(s: State)
    requires InBounds(s)
  {
    Queue(s).Some? && |Queue(s).value| < |s.data| - 1
  }

  /** The first push since there were `done` results has returned, or is under way and finds the room there
      was. */
  ghost predicate PushGoesOn(s: State, done: nat, room: bool, turns: nat) {
    && Inv(s)
    && if |s.pushResults| > done then room ==> s.pushResults[done].Accepted?
       else
         && |s.pushResults| == done && !s.p.PIdle? && PushLeft(s.p) + turns <= 69
         && (room ==> if s.p.PReturn? then s.p.result.Accepted? else HasRoom(s))
  }

  lemma PushGoesOnByItself(s: State, done: nat, room: bool, turns: nat)
    requires PushGoesOn(s, done, room, turns)
    ensures PushGoesOn(PushStep(s), done, room, turns + 1)
  {
    StepKeepsInv(s, RunPusher);
    EveryStepHelps(s, RunPusher);
    if s.p.PLoadTail? {
      FullAndEmptyTests(s.data, s.head, s.tail, Queue(s).value);
    }
  }

  lemma EventOnlyDrops(h: seq<Event>, e: Event, capacity: nat)
    requires Replay(h, capacity).Some? && Replay(h + [e], capacity).Some? && (e.Empty? || e.Popped?)
    ensures |Replay(h + [e], capacity).value| <= |Replay(h, capacity).value|
  {
    Snoc(h, e, capacity, CONSUMER);
  }

  lemma PopRecords(s: State)
    requires InBounds(s)
    ensures |PopStep(s).data| == |s.data|
    ensures PopStep(s).history == s.history
         || (exists e: Event :: (e.Empty? || e.Popped?) && PopStep(s).history == s.history + [e])
  {
  }

  lemma PopOnlyDrops(s: State)
    requires InBounds(s) && Queue(s).Some? && InBounds(PopStep(s)) && Queue(PopStep(s)).Some?
    ensures |Queue(PopStep(s)).value| <= |Queue(s).value| && |PopStep(s).data| == |s.data|
  {
    PopRecords(s);
    if PopStep(s).history != s.history {
      var e: Event :| (e.Empty? || e.Popped?) && PopStep(s).history == s.history + [e];
      EventOnlyDrops(s.history, e, |s.data| - 1);
    }
  }

  lemma PushGoesOnStep(s: State, choice: Choice, done: nat, room: bool, turns: nat)
    requires PushGoesOn(s, done, room, turns)
    ensures PushGoesOn(Step(s, choice), done, room, turns + One(choice.RunPusher?))
  {
    StepKeepsInv(s, choice);
    match choice
    case RunPusher => PushGoesOnByItself(s, done, room, turns);
    case RunPopper =>
      PopOnlyDrops(s);
    case _ =>
  }

  lemma {:induction false} PushGoesOnAlong(stretch: seq<State>, schedule: seq<Choice>, k: nat, room: bool)
    requires Scheduled(stretch, schedule) && 1 <= k <= |schedule| && Inv(stretch[0])
    requires stretch[0].p.PIdle? && schedule[0].CallPush? && (room ==> HasRoom(stretch[0]))
    ensures PushGoesOn(stretch[k], |stretch[0].pushResults|, room, Turns(schedule, RunPusher, k))
  {
    assert Leads(stretch, schedule, k - 1);
    if k == 1 {
      StepKeepsInv(stretch[0], schedule[0]);
    } else {
      PushGoesOnAlong(stretch, schedule, k - 1, room);
      PushGoesOnStep(stretch[k - 1], schedule[k - 1], |stretch[0].pushResults|, room, Turns(schedule, RunPusher, k - 1));
    }
  }

  /** Asked to push a message, the producer has within 69 of its steps returned a result for that message,
      whatever the consumer does meanwhile; and if the ring had room when it was asked, it accepted it. */
  lemma PushIsAnswered(n: nat, run: seq<State>, j: nat, stretch: seq<State>, schedule: seq<Choice>, k: nat)
    requires IsRun(n, run) && j < |run| && Scheduled(stretch, schedule) && stretch[0] == run[j]
    requires 1 <= k <= |schedule| && schedule[0].CallPush? && run[j].p.PIdle?
    requires 69 <= Turns(schedule, RunPusher, k)
    ensures var done := |run[j].pushResults|;
      && done < |stretch[k].pushResults|
      && Answers(stretch[k].pushResults[done], schedule[0].msg)
      && InBounds(run[j])
      && (HasRoom(run[j]) ==> stretch[k].pushResults[done] == Accepted(PRODUCER, Cut(schedule[0].msg)))
  {
    EveryStateOfARun(n, run, j);
    PushGoesOnAlong(stretch, schedule, k, HasRoom(run[j]));
    PushesAreTheCalls(stretch, schedule, k);
    FirstRequestStays(stretch, schedule, k);
    assert stretch[k].asked[|run[j].asked|] == schedule[0].msg;
  }

  /** The first pop since there were `done` results has returned, or is under way; if `m` was the oldest
      message when it was called, it is what the pop returns. */
  ghost predicate PopGoesOn(s: State, done: nat, m: Option<string>, turns: nat) {
    && Inv(s)
    && if |s.popResults| > done then m.Some? ==> s.popResults[done] == Popped(CONSUMER, m.value)
       else
         && |s.popResults| == done && !s.c.CIdle? && PopLeft(s.c) + turns <= 70
         && (m.Some? ==>
               if s.c.CReturn? then s.c.result == Popped(CONSUMER, m.value)
               else [m.value] <= Queue(s).value && (s.c.CLoadTail? ==> s.c.head != s.tail))
  }

  lemma PopGoesOnByItself(s: State, done: nat, m: Option<string>, turns: nat)
    requires PopGoesOn(s, done, m, turns)
    ensures PopGoesOn(PopStep(s), done, m, turns + 1)
  {
    StepKeepsInv(s, RunPopper);
    EveryStepHelps(s, RunPopper);
    FullAndEmptyTests(s.data, s.head, s.tail, Queue(s).value);
  }

  lemma EventOnlyAppends(h: seq<Event>, e: Event, capacity: nat)
    requires Replay(h, capacity).Some? && Replay(h + [e], capacity).Some? && (e.Full? || e.Accepted?)
    ensures Replay(h, capacity).value <= Replay(h + [e], capacity).value
  {
    Snoc(h, e, capacity, PRODUCER);
  }

  lemma PushRecords(s: State)
    requires InBounds(s)
    ensures |PushStep(s).data| == |s.data|
    ensures PushStep(s).history == s.history
         || (exists e: Event :: (e.Full? || e.Accepted?) && PushStep(s).history == s.history + [e])
  {
  }

  lemma PushOnlyAppends(s: State)
    requires InBounds(s) && Queue(s).Some? && InBounds(PushStep(s)) && Queue(PushStep(s)).Some?
    ensures Queue(s).value <= Queue(PushStep(s)).value
  {
    PushRecords(s);
    if PushStep(s).history != s.history {
      var e: Event :| (e.Full? || e.Accepted?) && PushStep(s).history == s.history + [e];
      EventOnlyAppends(s.history, e, |s.data| - 1);
    }
  }

  lemma PopGoesOnStep(s: State, choice: Choice, done: nat, m: Option<string>, turns: nat)
    requires PopGoesOn(s, done, m, turns)
    ensures PopGoesOn(Step(s, choice), done, m, turns + One(choice.RunPopper?))
  {
    StepKeepsInv(s, choice);
    match choice
    case RunPopper => PopGoesOnByItself(s, done, m, turns);
    case RunPusher =>
      PushOnlyAppends(s);
    case _ =>
  }

  lemma {:induction false} PopGoesOnAlong(stretch: seq<State>, schedule: seq<Choice>, k: nat, m: Option<string>)
    requires Scheduled(stretch, schedule) && 1 <= k <= |schedule| && Inv(stretch[0])
    requires stretch[0].c.CIdle? && schedule[0].CallPop? && (m.Some? ==> [m.value] <= Queue(stretch[0]).value)
    ensures PopGoesOn(stretch[k], |stretch[0].popResults|, m, Turns(schedule, RunPopper, k))
  {
    assert Leads(stretch, schedule, k - 1);
    if k == 1 {
      StepKeepsInv(stretch[0], schedule[0]);
    } else {
      PopGoesOnAlong(stretch, schedule, k - 1, m);
      PopGoesOnStep(stretch[k - 1], schedule[k - 1], |stretch[0].popResults|, m, Turns(schedule, RunPopper, k - 1));
    }
  }

  /** Asked to pop, the consumer has within 70 of its steps returned a result, whatever the producer does
      meanwhile; and if the ring held a message when it was asked, the result is the oldest one. */
  lemma PopIsAnswered(n: nat, run: seq<State>, j: nat, stretch: seq<State>, schedule: seq<Choice>, k: nat)
    requires IsRun(n, run) && j < |run| && Scheduled(stretch, schedule) && stretch[0] == run[j]
    requires 1 <= k <= |schedule| && schedule[0].CallPop? && run[j].c.CIdle?
    requires 70 <= Turns(schedule, RunPopper, k)
    ensures |run[j].popResults| < |stretch[k].popResults|
    ensures InBounds(run[j]) && Queue(run[j]).Some?
    ensures Queue(run[j]).value != [] ==>
      stretch[k].popResults[|run[j].popResults|] == Popped(CONSUMER, Queue(run[j]).value[0])
  {
    EveryStateOfARun(n, run, j);
    var q := Queue(run[j]).value;
    PopGoesOnAlong(stretch, schedule, k, if q == [] then None else Some(q[0]));
  }

  lemma HistoryOnlyGrows(s: State, choice: Choice)
    requires InBounds(s)
    ensures s.history <= Step(s, choice).history
  {
  }

  lemma StepKeepsInv(s: State, choice: Choice)
    requires Inv(s)
    ensures Inv(Step(s, choice)) && |Step(s, choice).data| == |s.data|
  {
    StepKeepsAsked(s, choice);
    match choice
    case CallPush(_) =>
    case RunPusher => PushKeepsInv(s);
    case CallPop =>
    case RunPopper => PopKeepsInv(s);
  }

  lemma StepKeepsAsked(s: State, choice: Choice)
    requires InBounds(s) && AskedInv(s)
    ensures AskedInv(Step(s, choice))
  {
  }

  lemma PushKeepsInv(s: State)
    requires RingInv(s)
    ensures RingInv(PushStep(s)) && |PushStep(s).data| == |s.data|
  {
    match s.p
    case PLoadTail(_, _) => TestSpaceKeepsInv(s);
    case PCopy(_, _, _, _) => CopyInKeepsInv(s);
    case PStoreHead(_, _) => PublishKeepsInv(s);
    case _ =>
  }

  lemma TestSpaceKeepsInv(s: State)
    requires RingInv(s) && s.p.PLoadTail?
    ensures RingInv(PushStep(s)) && |PushStep(s).data| == |s.data|
  {
    FullAndEmptyTests(s.data, s.head, s.tail, Queue(s).value);
    Record(s.history, Full(PRODUCER), |s.data| - 1);
  }

  lemma CopyInKeepsInv(s: State)
    requires RingInv(s) && s.p.PCopy?
    ensures RingInv(PushStep(s)) && |PushStep(s).data| == |s.data|
  {
    var PCopy(msg, next, slot, i) := s.p;
    var q := Queue(s).value;
    var s' := PushStep(s);
    var row := s'.data[slot];
    SpareSlotIsFree(s.data, s.head, s.tail, q, row);
    assert Queue(s') == Some(q);
    if i < |Cut(msg)| {
      assert row[..i + 1] == s.data[slot][..i] + [msg[i]] == msg[..i + 1];
    } else {
      assert row[..i] == s.data[slot][..i] == Cut(msg);
    }
  }

  lemma PublishKeepsInv(s: State)
    requires RingInv(s) && s.p.PStoreHead?
    ensures RingInv(PushStep(s)) && |PushStep(s).data| == |s.data|
  {
    var m := Cut(s.p.msg);
    Publish(s.data, s.head, s.tail, Queue(s).value, m);
    Record(s.history, Accepted(PRODUCER, m), |s.data| - 1);
    assert Queue(PushStep(s)) == Some(Queue(s).value + [m]);
    FullAndEmptyTests(s.data, s.head, s.tail, Queue(s).value);
  }

  lemma PopKeepsInv(s: State)
    requires RingInv(s)
    ensures RingInv(PopStep(s)) && |PopStep(s).data| == |s.data|
  {
    match s.c
    case CLoadHead => TestItemKeepsInv(s);
    case CLoadTail(_) =>
    case CCopy(_, _) => CopyOutKeepsInv(s);
    case CStoreTail(_, _) => RetireKeepsInv(s);
    case _ =>
  }

  lemma TestItemKeepsInv(s: State)
    requires RingInv(s) && s.c.CLoadHead?
    ensures RingInv(PopStep(s)) && |PopStep(s).data| == |s.data|
  {
    FullAndEmptyTests(s.data, s.head, s.tail, Queue(s).value);
    Record(s.history, Empty(CONSUMER), |s.data| - 1);
  }

  lemma CopyOutKeepsInv(s: State)
    requires RingInv(s) && s.c.CCopy?
    ensures RingInv(PopStep(s)) && |PopStep(s).data| == |s.data|
  {
    var q := Queue(s).value;
    assert Holds(s.data[s.tail], q[0]) by {
      assert s.data[Slot(s.tail, 0, |s.data|)] == s.data[s.tail];
    }
    CopyStep(s.data[s.tail], q[0], s.c.out);
  }

  lemma RetireKeepsInv(s: State)
    requires RingInv(s) && s.c.CStoreTail?
    ensures RingInv(PopStep(s)) && |PopStep(s).data| == |s.data|
  {
    var q := Queue(s).value;
    FullAndEmptyTests(s.data, s.head, s.tail, q);
    Retire(s.data, s.head, s.tail, q);
    Record(s.history, Popped(CONSUMER, s.c.out), |s.data| - 1);
    assert Queue(PopStep(s)) == Some(q[1..]);
    FullAndEmptyTests(s.data, s.head, PopStep(s).tail, q[1..]);
  }

  lemma Record(h: seq<Event>, e: Event, capacity: nat)
    ensures Replay(h + [e], capacity)
         == match Replay(h, capacity) case None => None case Some(q) => Apply(q, capacity, e)
    ensures OfThread(h + [e], PRODUCER) == OfThread(h, PRODUCER) + (if e.thread == PRODUCER then [e] else [])
    ensures OfThread(h + [e], CONSUMER) == OfThread(h, CONSUMER) + (if e.thread == CONSUMER then [e] else [])
  {
    Snoc(h, e, capacity, PRODUCER);
    Snoc(h, e, capacity, CONSUMER);
  }
}
