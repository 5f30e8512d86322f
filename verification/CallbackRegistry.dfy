/** The callback list: modules register and unregister callbacks, and each event is handed to every
    registered one in turn. Every call holds the registry mutex, so calls do not overlap, and callbacks
    do not call back into the registry. */
module CallbackRegistry {
  import opened DriverBasics
  import opened KernelList

  /** A function pointer. */
  datatype Callback = Callback(address: nat)

  datatype Call = Call(cb: Callback, msg: string)

  function Is(cb: Callback): Callback -> bool {
    (c: Callback) => c == cb
  }

  function CallAll(cbs: seq<Callback>, msg: string): (r: seq<Call>)
    ensures |r| == |cbs|
  {
    seq(|cbs|, i requires 0 <= i < |cbs| => Call(cbs[i], msg))
  }

  // ---------------------------------------------------------------- undoing a registration

  /** Registering a callback and unregistering it again leaves the same callbacks registered. It leaves
      them in the same order exactly when no other callback was registered after an earlier
      registration of the same one, for it is the oldest registration that is removed. */
  lemma UnregisterUndoesRegister(s: seq<Callback>, cb: Callback)
    ensures multiset(RemoveFirst(s + [cb], Is(cb))) == multiset(s)
    ensures RemoveFirst(s + [cb], Is(cb)) == s <==> OthersComeFirst(s, cb)
  {
    UndoneAsMultiset(s, cb);
    UndoneInOrder(s, cb);
  }

  ghost predicate OthersComeFirst(s: seq<Callback>, cb: Callback) {
    forall i, j :: 0 <= i < j < |s| && s[i] == cb ==> s[j] == cb
  }

  lemma {:induction false} UndoneAsMultiset(s: seq<Callback>, cb: Callback)
    ensures multiset(RemoveFirst(s + [cb], Is(cb))) == multiset(s)
  {
    var t := s + [cb];
    if s == [] {
      assert t[1..] == [];
    } else {
      var rest := s[1..];
      assert t[1..] == rest + [cb] && s == [s[0]] + rest;
      if s[0] != cb {
        UndoneAsMultiset(rest, cb);
      }
    }
  }

  lemma {:induction false} UndoneInOrder(s: seq<Callback>, cb: Callback)
    ensures RemoveFirst(s + [cb], Is(cb)) == s <==> OthersComeFirst(s, cb)
  {
    var t := s + [cb];
    if s == [] {
      assert t[1..] == [];
    } else if s[0] == cb {
      assert t[1..] == s[1..] + [cb];
      if s[1..] + [cb] == s {
        RotationIsConstant(s, cb);
      }
      if OthersComeFirst(s, cb) {
        assert s[1..] + [cb] == s;
      }
    } else {
      UndoneInOrder(s[1..], cb);
      assert t[1..] == s[1..] + [cb] && s == [s[0]] + s[1..];
      var rest := RemoveFirst(s[1..] + [cb], Is(cb));
      assert [s[0]] + rest == s <==> rest == s[1..] by {
        assert ([s[0]] + rest)[1..] == rest;
      }
      OrderOfTail(s, cb);
    }
  }

  lemma OrderOfTail(s: seq<Callback>, cb: Callback)
    requires s != [] && s[0] != cb
    ensures OthersComeFirst(s, cb) <==> OthersComeFirst(s[1..], cb)
  {
    if OthersComeFirst(s[1..], cb) {
      forall i, j | 0 <= i < j < |s| && s[i] == cb
        ensures s[j] == cb
      {
        assert s[1..][i - 1] == s[i] && s[1..][j - 1] == s[j];
      }
    }
  }

  lemma {:induction false} RotationIsConstant(s: seq<Callback>, cb: Callback)
    requires s != [] && s[1..] + [cb] == s
    ensures forall i :: 0 <= i < |s| ==> s[i] == cb
  {
    var k := |s| - 1;
    assert s[k] == (s[1..] + [cb])[k] == cb;
    while k > 0
      invariant 0 <= k < |s| && forall i :: k <= i < |s| ==> s[i] == cb
    {
      assert s[k - 1] == (s[1..] + [cb])[k - 1] == s[k];
      k := k - 1;
    }
  }

  // ---------------------------------------------------------------- any run

  /** The calls that took effect: a registration that found no memory is none of them. */
  datatype Op = Registered(cb: Callback) | Unregistered(cb: Callback) | Notified(msg: string)

  /** A live registration: the callback and the operation that registered it. */
  datatype Entry = Entry(cb: Callback, at: nat)

  function Holds(cb: Callback): Entry -> bool {
    (e: Entry) => e.cb == cb
  }

  /** The live registrations after a sequence of operations, as the list keeps them. */
  function After(ops: seq<Op>): seq<Entry> {
    if ops == [] then []
    else
      var before := After(ops[..|ops| - 1]);
      match ops[|ops| - 1]
      case Registered(cb) => before + [Entry(cb, |ops| - 1)]
      case Unregistered(cb) => RemoveFirst(before, Holds(cb))
      case Notified(_) => before
  }

  /** The calls of callbacks that a sequence of operations makes: each notification calls every
      registration live at that moment, once, in the order of registration. */
  function Log(ops: seq<Op>): seq<Call> {
    if ops == [] then []
    else
      var before := ops[..|ops| - 1];
      Log(before) + (match ops[|ops| - 1] case Notified(msg) => CallAll(Callbacks(After(before)), msg) case _ => [])
  }

  function Callbacks(entries: seq<Entry>): (r: seq<Callback>)
    ensures |r| == |entries| && forall i :: 0 <= i < |r| ==> r[i] == entries[i].cb
  {
    seq(|entries|, i requires 0 <= i < |entries| => entries[i].cb)
  }

  /** What the list holds is what the registry's calls compute: one appends, the other removes the first
      match. */
  lemma {:induction false} RemovalForgetsOrigins(entries: seq<Entry>, cb: Callback)
    ensures Callbacks(RemoveFirst(entries, Holds(cb))) == RemoveFirst(Callbacks(entries), Is(cb))
  {
    if entries != [] {
      RemovalForgetsOrigins(entries[1..], cb);
      assert Callbacks(entries)[1..] == Callbacks(entries[1..]);
    }
  }

  /** How many registrations of a callback should be live: unregistering what is not there is harmless. */
  function Balance(ops: seq<Op>, cb: Callback): nat {
    if ops == [] then 0
    else
      var before := Balance(ops[..|ops| - 1], cb);
      match ops[|ops| - 1]
      case Registered(c) => if c == cb then before + 1 else before
      case Unregistered(c) => if c == cb && before > 0 then before - 1 else before
      case Notified(_) => before
  }

  ghost predicate InRegistrationOrder(ops: seq<Op>, entries: seq<Entry>) {
    && (forall i, j :: 0 <= i < j < |entries| ==> entries[i].at < entries[j].at)
    && (forall i :: 0 <= i < |entries| ==> entries[i].at < |ops| && ops[entries[i].at] == Registered(entries[i].cb))
  }

  /** After any run the list holds live registrations only, each once, in the order of registration, and
      for every callback as many as were registered and not unregistered since. */
  lemma ListIsExact(ops: seq<Op>, cb: Callback)
    ensures InRegistrationOrder(ops, After(ops))
    ensures multiset(Callbacks(After(ops)))[cb] == Balance(ops, cb)
  {
    ListKeepsOrder(ops);
    ListCounts(ops, cb);
  }

  lemma MoreOpsKeepOrder(ops: seq<Op>, op: Op, entries: seq<Entry>)
    requires InRegistrationOrder(ops, entries)
    ensures InRegistrationOrder(ops + [op], entries)
  {
  }

  lemma CutKeepsOrder(ops: seq<Op>, entries: seq<Entry>, k: nat)
    requires InRegistrationOrder(ops, entries) && k < |entries|
    ensures InRegistrationOrder(ops, entries[..k] + entries[k + 1..])
  {
    var cut := entries[..k] + entries[k + 1..];
    assert forall i :: 0 <= i < |cut| ==> cut[i] == entries[if i < k then i else i + 1];
  }

  lemma {:induction false} ListKeepsOrder(ops: seq<Op>)
    ensures InRegistrationOrder(ops, After(ops))
  {
    if ops != [] {
      var shorter, op := ops[..|ops| - 1], ops[|ops| - 1];
      var before := After(shorter);
      ListKeepsOrder(shorter);
      assert ops == shorter + [op];
      MoreOpsKeepOrder(shorter, op, before);
      match op
      case Registered(_) =>
      case Unregistered(cb) =>
        var k := FirstMatch(before, Holds(cb));
        if k < |before| {
          CutKeepsOrder(ops, before, k);
        }
      case Notified(_) =>
    }
  }

  lemma {:induction false} ListCounts(ops: seq<Op>, cb: Callback)
    ensures multiset(Callbacks(After(ops)))[cb] == Balance(ops, cb)
  {
    if ops != [] {
      var before := After(ops[..|ops| - 1]);
      ListCounts(ops[..|ops| - 1], cb);
      match ops[|ops| - 1]
      case Registered(c) =>
        assert Callbacks(After(ops)) == Callbacks(before) + [c];
      case Unregistered(c) =>
        RemovalForgetsOrigins(before, c);
        RemoveFirstCounts(Callbacks(before), c, cb);
      case Notified(_) =>
    }
  }

  lemma {:induction false} RemoveFirstCounts(s: seq<Callback>, c: Callback, cb: Callback)
    ensures multiset(RemoveFirst(s, Is(c)))[cb]
         == if c == cb && multiset(s)[cb] > 0 then multiset(s)[cb] - 1 else multiset(s)[cb]
  {
    if s != [] {
      assert s == [s[0]] + s[1..];
      RemoveFirstCounts(s[1..], c, cb);
    }
  }

  /** What the registry's calls do to its list and its log is what one more operation does to a run. */
  lemma RunGrows(ops: seq<Op>, op: Op)
    ensures Callbacks(After(ops + [op]))
         == if op.Registered? then Callbacks(After(ops)) + [op.cb]
            else if op.Unregistered? then RemoveFirst(Callbacks(After(ops)), Is(op.cb))
            else Callbacks(After(ops))
    ensures Log(ops + [op]) == Log(ops) + (if op.Notified? then CallAll(Callbacks(After(ops)), op.msg) else [])
  {
    assert (ops + [op])[..|ops|] == ops;
    if op.Unregistered? {
      RemovalForgetsOrigins(After(ops), op.cb);
    }
  }

  // ---------------------------------------------------------------- the registry

  class Registry {
    const list: List<Callback>
    var calls: seq<Call>
    ghost var ops: seq<Op>

    /** The list holds, and the callbacks have been called with, what the operations so far amount to. */
    ghost predicate Valid()
      reads this, list, list.head, list.nodes
    {
      list.Valid() && Live() == Callbacks(After(ops)) && calls == Log(ops)
    }

    ghost function Live(): seq<Callback>
      reads list
      requires Carries(list.nodes)
    {
      list.Contents()
    }

    constructor ()
      ensures Valid() && ops == [] && fresh(list) && fresh(list.head)
    {
      list := new List();
      calls, ops := [], [];
    }

    /** The call under way has taken effect. */
    ghost method Grow(op: Op)
      requires list.Valid() && Live() == Callbacks(After(ops + [op])) && calls == Log(ops + [op])
      modifies this`ops
      ensures Valid() && ops == old(ops) + [op]
    {
      ops := ops + [op];
    }

    /** register_event_callback */
    method Register(cb: Callback, allocates: bool) returns (ret: int)
      requires Valid()
      modifies this`ops, list, list.head, list.nodes
      ensures Valid()
      ensures ret == if allocates then 0 else -ENOMEM
      ensures ops == if allocates then old(ops) + [Registered(cb)] else old(ops)
      ensures Live() == if allocates then old(Live()) + [cb] else old(Live())
    {
      if !allocates {
        return -ENOMEM;
      }
      var node := new Link(Some(cb));
      list.AddTail(node);
      RunGrows(ops, Registered(cb));
      Grow(Registered(cb));
      return 0;
    }

    /** unregister_event_callback */
    method Unregister(cb: Callback)
      requires Valid()
      modifies this`ops, list, list.head, list.nodes
      ensures Valid() && ops == old(ops) + [Unregistered(cb)]
      ensures Live() == RemoveFirst(old(Live()), Is(cb))
      ensures forall n :: n in old(list.nodes) ==> (n.freed <==> n !in list.nodes)
    {
      var found := list.DeleteFirst(Is(cb));
      RunGrows(ops, Unregistered(cb));
      Grow(Unregistered(cb));
    }

    /** notify_event: every live registration is called once, in the order of registration. */
    method Notify(msg: string)
      requires Valid()
      modifies this
      ensures Valid() && ops == old(ops) + [Notified(msg)]
      ensures Live() == old(Live())
      ensures calls == old(calls) + CallAll(Live(), msg)
    {
      CallEach(msg);
      RunGrows(ops, Notified(msg));
      Grow(Notified(msg));
    }

    method CallEach(msg: string)
      requires list.Valid()
      modifies this`calls
      ensures calls == old(calls) + CallAll(Live(), msg)
    {
      ghost var before, live := calls, Live();
      ghost var i := 0;
      var node := list.Follow(list.head, 0);
      while node != list.head
        invariant i <= |live| == |list.nodes| && node == list.Ring()[i + 1]
        invariant calls == before + CallAll(live[..i], msg)
        decreases |list.nodes| - i
      {
        assert node == list.nodes[i] && node.entry.value == live[i];
        calls := calls + [Call(node.entry.value, msg)];
        OneMoreCall(live, i, msg);
        i := i + 1;
        node := list.Follow(node, i);
      }
      assert live[..i] == live;
    }
  }

  lemma OneMoreCall(cbs: seq<Callback>, i: nat, msg: string)
    requires i < |cbs|
    ensures CallAll(cbs[..i + 1], msg) == CallAll(cbs[..i], msg) + [Call(cbs[i], msg)]
  {
  }
}
