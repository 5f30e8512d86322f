/** The character devices: each keeps one stored message, every open file its own offset. A write
    replaces the message and leaves offsets alone; a read hands out the next piece. Calls on a device
    do not overlap. User memory may fault part-way through a copy. */
module CharDevice {
  import opened DriverBasics

  /** What one read hands out of the stored bytes. */
  function Piece(stored: seq<Byte>, off: nat, len: nat): seq<Byte> {
    if |stored| <= off then [] else stored[off..off + Min(len, |stored| - off)]
  }

  /** The pieces that successive reads of the given lengths hand out, from an offset on. */
  function Pieces(stored: seq<Byte>, off: nat, lens: seq<nat>): seq<seq<Byte>>
    decreases |lens|
  {
    if lens == [] then []
    else
      var p := Piece(stored, off, lens[0]);
      [p] + Pieces(stored, off + |p|, lens[1..])
  }

  function Join(pieces: seq<seq<Byte>>): seq<Byte> {
    if pieces == [] then [] else pieces[0] + Join(pieces[1..])
  }

  function Sum(lens: seq<nat>): nat {
    if lens == [] then 0 else lens[0] + Sum(lens[1..])
  }

  lemma Glue(s: seq<Byte>, i: nat, j: nat, k: nat)
    requires i <= j <= k <= |s|
    ensures s[i..j] + s[j..k] == s[i..k]
  {
  }

  lemma PieceAndRest(stored: seq<Byte>, off: nat, len: nat, more: nat)
    ensures Piece(stored, off, len) + Piece(stored, off + |Piece(stored, off, len)|, more) == Piece(stored, off, len + more)
  {
    var p := Piece(stored, off, len);
    if off < |stored| {
      Glue(stored, off, off + |p|, Min(|stored|, off + |p| + more));
    }
  }

  lemma NoPiece(stored: seq<Byte>, off: nat)
    ensures Piece(stored, off, 0) == []
  {
  }

  lemma JoinFirst(p: seq<Byte>, rest: seq<seq<Byte>>)
    ensures Join([p] + rest) == p + Join(rest)
  {
    assert ([p] + rest)[1..] == rest;
  }

  /** Whatever lengths a reader asks for, its reads together hand out what a single read of the total
      length would: consecutive bytes, each once, and all of them once it has asked for enough. */
  lemma {:induction false} PiecesAreConsecutive(stored: seq<Byte>, off: nat, lens: seq<nat>)
    ensures Join(Pieces(stored, off, lens)) == Piece(stored, off, Sum(lens))
    decreases |lens|
  {
    if lens == [] {
      NoPiece(stored, off);
    } else {
      var p := Piece(stored, off, lens[0]);
      PiecesAreConsecutive(stored, off + |p|, lens[1..]);
      FirstPieceThenRest(stored, off, lens, Sum(lens[1..]), Pieces(stored, off + |p|, lens[1..]));
    }
  }

  lemma FirstPieceThenRest(stored: seq<Byte>, off: nat, lens: seq<nat>, more: nat, rest: seq<seq<Byte>>)
    requires lens != [] && more == Sum(lens[1..])
    requires var next := off + |Piece(stored, off, lens[0])|;
      rest == Pieces(stored, next, lens[1..]) && Join(rest) == Piece(stored, next, more)
    ensures Join(Pieces(stored, off, lens)) == Piece(stored, off, Sum(lens))
  {
    JoinFirst(Piece(stored, off, lens[0]), rest);
    PieceAndRest(stored, off, lens[0], more);
  }

  // ---------------------------------------------------------------- the driver's calls

  /** A device: its buffer, of fixed capacity, and how much of it is valid. */
  datatype Store = Store(buffer: seq<Byte>, size: nat) {
    predicate Valid() { size <= |buffer| }

    function Stored(): seq<Byte>
      requires Valid()
    {
      buffer[..size]
    }

    /** A write that copies only `copied` bytes before user memory faults fails and leaves the size. */
    function Write(data: seq<Byte>, copied: nat): Store
      requires Valid()
    {
      var len := Min(|data|, |buffer|);
      if copied < len then
        this.(buffer := data[..copied] + buffer[copied..])
      else
        Store(data[..len] + buffer[len..], len)
    }
  }

  /** A read at an offset: the offset it leaves, and what the reader gets. A fault moves nothing. */
  function ReadAt(stored: seq<Byte>, off: nat, len: nat, fault: bool): (nat, Outcome) {
    var p := Piece(stored, off, len);
    if fault && p != [] then (off, Fault) else (off + |p|, Got(p))
  }

  /** What a call tells its caller. */
  datatype Outcome = Opened | Wrote(n: nat) | Got(bytes: seq<Byte>) | Fault

  class Device {
    const buffer: array<Byte>
    var size: nat

    ghost predicate Valid()
      reads this
    {
      size <= buffer.Length
    }

    ghost function Value(): Store
      reads this, buffer
    {
      Store(buffer[..], size)
    }

    constructor (capacity: nat)
      ensures Valid() && fresh(buffer) && buffer.Length == capacity && Value().Stored() == []
    {
      buffer := new Byte[capacity](_ => 0);
      size := 0;
    }

    /** my_write */
    method Write(data: seq<Byte>, copied: nat) returns (ret: int)
      requires Valid()
      modifies this, buffer
      ensures Valid()
      ensures Value() == old(Value()).Write(data, copied)
      ensures ret == if copied < Min(|data|, buffer.Length) then -EFAULT else Min(|data|, buffer.Length)
      ensures 0 <= ret ==> Value().Stored() == data[..Min(|data|, buffer.Length)]
      ensures ret < 0 ==> size == old(size) && buffer[..] == data[..copied] + old(buffer[..])[copied..]
    {
      var len := |data|;
      if len > buffer.Length {
        len := buffer.Length;
      }
      var i := 0;
      while i < len && i < copied
        invariant 0 <= i <= len && i <= copied && size == old(size)
        invariant forall j :: 0 <= j < i ==> buffer[j] == data[j]
        invariant forall j :: i <= j < buffer.Length ==> buffer[j] == old(buffer[j])
      {
        buffer[i] := data[i];
        i := i + 1;
      }
      assert buffer[..] == data[..i] + old(buffer[..])[i..];
      if i < len {
        return -EFAULT;
      }
      size := len;
      return len;
    }
  }

  class OpenFile {
    const device: Device
    var off: nat

    /** my_open */
    constructor (device: Device)
      ensures this.device == device && off == 0
    {
      this.device := device;
      off := 0;
    }

    /** my_read */
    method Read(len: nat, fault: bool) returns (ret: int, bytes: seq<Byte>)
      requires device.Valid()
      modifies this
      ensures fault && Piece(device.Value().Stored(), old(off), len) != []
        ==> ret == -EFAULT && bytes == [] && off == old(off)
      ensures (off, if ret < 0 then Fault else Got(bytes)) == ReadAt(device.Value().Stored(), old(off), len, fault)
      ensures !(fault && Piece(device.Value().Stored(), old(off), len) != [])
        ==> bytes == Piece(device.Value().Stored(), old(off), len) && ret == |bytes| && off == old(off) + |bytes|
    {
      var count := len;
      if off >= device.size {
        return 0, [];
      }
      if count > device.size - off {
        count := device.size - off;
      }
      if fault && count > 0 {
        return -EFAULT, [];
      }
      bytes := device.buffer[off..off + count];
      assert device.buffer[..][..device.size][off..off + count] == bytes;
      off := off + count;
      return count, bytes;
    }
  }

  // ---------------------------------------------------------------- many devices, many files

  /** All devices and the offsets of all open files. File f is open on device home[f]. */
  datatype System = System(stores: seq<Store>, offs: seq<nat>)

  datatype Op =
    | Open(f: nat)
    | Write(f: nat, data: seq<Byte>, copied: nat)
    | Read(f: nat, len: nat, fault: bool)

  ghost predicate WellFormed(sys: System, home: seq<nat>) {
    && |sys.offs| == |home|
    && (forall f :: 0 <= f < |home| ==> home[f] < |sys.stores|)
    && (forall d :: 0 <= d < |sys.stores| ==> sys.stores[d].Valid())
  }

  function Step(sys: System, home: seq<nat>, op: Op): (System, Outcome)
    requires WellFormed(sys, home) && op.f < |home|
  {
    var f, store := op.f, sys.stores[home[op.f]];
    match op
    case Open(_) => (sys.(offs := sys.offs[f := 0]), Opened)
    case Write(_, data, copied) =>
      (sys.(stores := sys.stores[home[f] := store.Write(data, copied)]),
       if copied < Min(|data|, |store.buffer|) then Fault else Wrote(Min(|data|, |store.buffer|)))
    case Read(_, len, fault) =>
      var (off, o) := ReadAt(store.Stored(), sys.offs[f], len, fault);
      (sys.(offs := sys.offs[f := off]), o)
  }

  predicate OpsOk(home: seq<nat>, ops: seq<Op>) {
    forall i :: 0 <= i < |ops| ==> ops[i].f < |home|
  }

  /** The system after a sequence of operations, and the outcome of each. */
  function Run(sys: System, home: seq<nat>, ops: seq<Op>): (r: (System, seq<Outcome>))
    requires WellFormed(sys, home) && OpsOk(home, ops)
    ensures WellFormed(r.0, home) && |r.1| == |ops|
  {
    if ops == [] then (sys, [])
    else
      var (before, outcomes) := Run(sys, home, ops[..|ops| - 1]);
      var (after, o) := Step(before, home, ops[|ops| - 1]);
      (after, outcomes + [o])
  }

  /** The operations on one device, and their outcomes. */
  function OpsOn(home: seq<nat>, d: nat, ops: seq<Op>): (r: seq<Op>)
    requires OpsOk(home, ops)
    ensures OpsOk(home, r)
  {
    if ops == [] then []
    else
      OpsOn(home, d, ops[..|ops| - 1]) + (if home[ops[|ops| - 1].f] == d then [ops[|ops| - 1]] else [])
  }

  function OutcomesOn(home: seq<nat>, d: nat, ops: seq<Op>, outcomes: seq<Outcome>): seq<Outcome>
    requires OpsOk(home, ops) && |outcomes| == |ops|
  {
    if ops == [] then []
    else
      OutcomesOn(home, d, ops[..|ops| - 1], outcomes[..|ops| - 1])
      + (if home[ops[|ops| - 1].f] == d then [outcomes[|ops| - 1]] else [])
  }

  /** Two systems look the same through the files of one device. */
  ghost predicate SameOn(a: System, b: System, home: seq<nat>, d: nat)
    requires WellFormed(a, home) && WellFormed(b, home)
  {
    && |a.stores| == |b.stores|
    && (d < |a.stores| ==> a.stores[d] == b.stores[d])
    && (forall f :: 0 <= f < |home| && home[f] == d ==> a.offs[f] == b.offs[f])
  }

  /** Devices do not interfere: what the files of one device observe in any interleaving is what they
      would observe had the operations on the other devices never happened. */
  lemma {:induction false} DevicesDoNotInterfere(sys: System, home: seq<nat>, d: nat, ops: seq<Op>)
    requires WellFormed(sys, home) && OpsOk(home, ops)
    ensures SameOn(Run(sys, home, ops).0, Run(sys, home, OpsOn(home, d, ops)).0, home, d)
    ensures OutcomesOn(home, d, ops, Run(sys, home, ops).1) == Run(sys, home, OpsOn(home, d, ops)).1
  {
    if ops != [] {
      var shorter, op := ops[..|ops| - 1], ops[|ops| - 1];
      DevicesDoNotInterfere(sys, home, d, shorter);
      var (whole, outcomes) := Run(sys, home, shorter);
      var alone := Run(sys, home, OpsOn(home, d, shorter)).0;
      assert Run(sys, home, ops).1[..|shorter|] == outcomes;
      if home[op.f] == d {
        OwnStepAgrees(whole, alone, home, d, op);
        RunSnoc(sys, home, OpsOn(home, d, shorter), op);
      } else {
        OtherStepUnseen(whole, alone, home, d, op);
        assert OpsOn(home, d, ops) == OpsOn(home, d, shorter);
      }
    }
  }

  lemma RunSnoc(sys: System, home: seq<nat>, ops: seq<Op>, op: Op)
    requires WellFormed(sys, home) && OpsOk(home, ops) && op.f < |home|
    ensures OpsOk(home, ops + [op])
    ensures var (before, outcomes) := Run(sys, home, ops);
      Run(sys, home, ops + [op]) == (Step(before, home, op).0, outcomes + [Step(before, home, op).1])
  {
    assert (ops + [op])[..|ops|] == ops;
  }

  lemma OwnStepAgrees(a: System, b: System, home: seq<nat>, d: nat, op: Op)
    requires WellFormed(a, home) && WellFormed(b, home) && SameOn(a, b, home, d)
    requires op.f < |home| && home[op.f] == d
    requires WellFormed(Step(a, home, op).0, home) && WellFormed(Step(b, home, op).0, home)
    ensures Step(a, home, op).1 == Step(b, home, op).1
    ensures SameOn(Step(a, home, op).0, Step(b, home, op).0, home, d)
  {
  }

  lemma OtherStepUnseen(a: System, b: System, home: seq<nat>, d: nat, op: Op)
    requires WellFormed(a, home) && WellFormed(b, home) && SameOn(a, b, home, d)
    requires op.f < |home| && home[op.f] != d
    requires WellFormed(Step(a, home, op).0, home)
    ensures SameOn(Step(a, home, op).0, b, home, d)
  {
  }

  // ---------------------------------------------------------------- every byte once

  /** The bytes one file's reads handed out. */
  function BytesRead(f: nat, ops: seq<Op>, outcomes: seq<Outcome>): seq<Byte>
    requires |outcomes| == |ops|
  {
    if ops == [] then []
    else
      BytesRead(f, ops[..|ops| - 1], outcomes[..|ops| - 1])
      + (if ops[|ops| - 1].f == f && outcomes[|ops| - 1].Got? then outcomes[|ops| - 1].bytes else [])
  }

  /** How many bytes one file's reads asked for, those left out that user memory makes fault. */
  function Asked(f: nat, ops: seq<Op>): nat {
    if ops == [] then 0 else Asked(f, ops[..|ops| - 1]) + Asks(f, ops[|ops| - 1])
  }

  function Asks(f: nat, op: Op): nat {
    if op.f == f && op.Read? && !op.fault then op.len else 0
  }

  /** No write to device d, and file f is not reopened. */
  predicate Undisturbed(home: seq<nat>, f: nat, d: nat, ops: seq<Op>)
    requires OpsOk(home, ops)
  {
    forall i :: 0 <= i < |ops| ==>
      !(ops[i].Write? && home[ops[i].f] == d) && !(ops[i].Open? && ops[i].f == f)
  }

  /** What file f has been handed, from offset `start` on, and where that leaves its offset. */
  ghost predicate HandedOut(store: Store, start: nat, sys: System, home: seq<nat>, f: nat, asked: nat, bytes: seq<Byte>)
    requires WellFormed(sys, home) && f < |home| && store.Valid()
  {
    && sys.stores[home[f]] == store
    && sys.offs[f] == (if store.size < start then start else Min(store.size, start + asked))
    && bytes == store.Stored()[Min(store.size, start)..Min(store.size, sys.offs[f])]
  }

  /** Between two writes to its device, and whatever other files and devices do meanwhile, a file reads
      consecutive pieces of the stored bytes from its offset on, each byte once, through to the end,
      and then nothing more; from beyond the end it reads nothing. A read that faults hands out
      nothing and loses nothing. */
  lemma {:induction false} EachByteOnce(sys: System, home: seq<nat>, f: nat, ops: seq<Op>)
    requires WellFormed(sys, home) && OpsOk(home, ops) && f < |home|
    requires Undisturbed(home, f, home[f], ops)
    ensures var (after, outcomes) := Run(sys, home, ops);
      HandedOut(sys.stores[home[f]], sys.offs[f], after, home, f, Asked(f, ops), BytesRead(f, ops, outcomes))
  {
    if ops != [] {
      var shorter, op := ops[..|ops| - 1], ops[|ops| - 1];
      EachByteOnce(sys, home, f, shorter);
      var (before, outcomes) := Run(sys, home, shorter);
      assert Run(sys, home, ops).1[..|shorter|] == outcomes;
      OneMoreStep(sys.stores[home[f]], sys.offs[f], before, home, f, op,
                  Asked(f, shorter), BytesRead(f, shorter, outcomes));
    }
  }

  lemma OneMoreStep(store: Store, start: nat, before: System, home: seq<nat>, f: nat, op: Op, asked: nat, bytes: seq<Byte>)
    requires WellFormed(before, home) && f < |home| && op.f < |home| && store.Valid()
    requires HandedOut(store, start, before, home, f, asked, bytes)
    requires !(op.Write? && home[op.f] == home[f]) && !(op.Open? && op.f == f)
    requires WellFormed(Step(before, home, op).0, home)
    ensures var (after, o) := Step(before, home, op);
      HandedOut(store, start, after, home, f, asked + Asks(f, op), bytes + (if op.f == f && o.Got? then o.bytes else []))
  {
    if op.f == f {
      var p := Piece(store.Stored(), before.offs[f], op.len);
      if start <= store.size {
        Glue(store.Stored(), start, before.offs[f], before.offs[f] + |p|);
      }
    }
  }

  // ---------------------------------------------------------------- what is written is read

  /** Running the operations b after the operations a. */
  ghost predicate RunsInTurn(sys: System, home: seq<nat>, a: seq<Op>, b: seq<Op>)
    requires WellFormed(sys, home) && OpsOk(home, a) && OpsOk(home, b) && OpsOk(home, a + b)
  {
    var (middle, first) := Run(sys, home, a);
    var (after, second) := Run(middle, home, b);
    Run(sys, home, a + b) == (after, first + second)
  }

  lemma NoneInTurn(sys: System, home: seq<nat>, a: seq<Op>)
    requires WellFormed(sys, home) && OpsOk(home, a)
    ensures OpsOk(home, a + []) && RunsInTurn(sys, home, a, [])
  {
    assert a + [] == a;
    var (middle, first) := Run(sys, home, a);
    assert first + [] == first;
  }

  lemma OneMoreInTurn(sys: System, home: seq<nat>, a: seq<Op>, b: seq<Op>, op: Op)
    requires WellFormed(sys, home) && OpsOk(home, a) && OpsOk(home, b) && op.f < |home|
    requires OpsOk(home, a + b) && RunsInTurn(sys, home, a, b)
    ensures OpsOk(home, b + [op]) && OpsOk(home, a + (b + [op])) && RunsInTurn(sys, home, a, b + [op])
  {
    var (middle, first) := Run(sys, home, a);
    var (before, second) := Run(middle, home, b);
    var o := Step(before, home, op).1;
    RunSnoc(middle, home, b, op);
    RunSnoc(sys, home, a + b, op);
    assert a + (b + [op]) == (a + b) + [op];
    assert first + (second + [o]) == (first + second) + [o];
  }

  lemma {:induction false} RunBoth(sys: System, home: seq<nat>, a: seq<Op>, b: seq<Op>)
    requires WellFormed(sys, home) && OpsOk(home, a) && OpsOk(home, b)
    ensures OpsOk(home, a + b) && RunsInTurn(sys, home, a, b)
  {
    if b == [] {
      NoneInTurn(sys, home, a);
    } else {
      RunBoth(sys, home, a, b[..|b| - 1]);
      OneMoreInTurn(sys, home, a, b[..|b| - 1], b[|b| - 1]);
      assert b == b[..|b| - 1] + [b[|b| - 1]];
    }
  }

  /** The bytes a device holds after a write: the data, as far as they fit; or, if user memory faulted
      part-way, as many as before, the first ones overwritten. */
  function HeldAfter(store: Store, data: seq<Byte>, copied: nat): seq<Byte>
    requires store.Valid()
  {
    var len := Min(|data|, |store.buffer|);
    if len <= copied then data[..len]
    else seq(store.size, i requires 0 <= i < store.size => if i < copied then data[i] else store.buffer[i])
  }

  lemma WriteThenOpen(sys: System, home: seq<nat>, g: nat, f: nat, data: seq<Byte>, copied: nat)
    requires WellFormed(sys, home) && g < |home| && f < |home| && home[g] == home[f]
    ensures OpsOk(home, [Write(g, data, copied), Open(f)])
    ensures var store := sys.stores[home[f]]; var (after, outcomes) := Run(sys, home, [Write(g, data, copied), Open(f)]);
      && after.offs[f] == 0 && after.stores[home[f]].Stored() == HeldAfter(store, data, copied)
      && outcomes == [if Min(|data|, |store.buffer|) <= copied then Wrote(Min(|data|, |store.buffer|)) else Fault, Opened]
  {
    var store := sys.stores[home[f]];
    assert [] + [Write(g, data, copied)] + [Open(f)] == [Write(g, data, copied), Open(f)];
    RunSnoc(sys, home, [], Write(g, data, copied));
    RunSnoc(sys, home, [] + [Write(g, data, copied)], Open(f));
    assert store.Write(data, copied).Stored() == HeldAfter(store, data, copied);
  }

  /** From caller to caller: what is written through one file is what a file then opened on the same device
      reads, whatever other files and devices do meanwhile: its reads hand out the first bytes held,
      each once, as many as they asked for or as there are. */
  lemma WhatIsWrittenIsRead(sys: System, home: seq<nat>, g: nat, f: nat, data: seq<Byte>, copied: nat, ops: seq<Op>)
    requires WellFormed(sys, home) && g < |home| && f < |home| && home[g] == home[f]
    requires OpsOk(home, ops) && Undisturbed(home, f, home[f], ops)
    ensures OpsOk(home, [Write(g, data, copied), Open(f)] + ops)
    ensures var outcomes := Run(sys, home, [Write(g, data, copied), Open(f)] + ops).1;
      var held := HeldAfter(sys.stores[home[f]], data, copied);
      BytesRead(f, ops, outcomes[2..]) == held[..Min(|held|, Asked(f, ops))]
  {
    var first := [Write(g, data, copied), Open(f)];
    WriteThenOpen(sys, home, g, f, data, copied);
    RunBoth(sys, home, first, ops);
    var (middle, outcomes) := Run(sys, home, first);
    EachByteOnce(middle, home, f, ops);
    assert Run(sys, home, first + ops).1[2..] == Run(middle, home, ops).1;
  }
}
