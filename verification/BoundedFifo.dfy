/** The abstract object both ring buffers implement: a FIFO of bounded capacity, and what it means
    for a history of completed operations to be a legal history of that FIFO. */
module BoundedFifo {
  import opened DriverBasics

  /** One operation taking effect, tagged with the thread that performs it. */
  datatype Event =
    | Accepted(thread: nat, msg: string)
    | Full(thread: nat)
    | Popped(thread: nat, msg: string)
    | Empty(thread: nat)

  function Apply(q: seq<string>, capacity: nat, e: Event): Option<seq<string>> {
    match e
    case Accepted(_, m) => if |q| < capacity then Some(q + [m]) else None
    case Full(_) => if |q| == capacity then Some(q) else None
    case Popped(_, m) => if q != [] && q[0] == m then Some(q[1..]) else None
    case Empty(_) => if q == [] then Some(q) else None
  }

  /** The queue left by a history that starts from the empty queue, or None if some event is illegal. */
  function Replay(h: seq<Event>, capacity: nat): Option<seq<string>> {
    if h == [] then Some([])
    else
      match Replay(h[..|h| - 1], capacity)
      case None => None
      case Some(q) => Apply(q, capacity, h[|h| - 1])
  }

  function AcceptedBy(h: seq<Event>): seq<string> {
    if h == [] then []
    else AcceptedBy(h[..|h| - 1]) + (var e := h[|h| - 1]; if e.Accepted? then [e.msg] else [])
  }

  function PoppedFrom(h: seq<Event>): seq<string> {
    if h == [] then []
    else PoppedFrom(h[..|h| - 1]) + (var e := h[|h| - 1]; if e.Popped? then [e.msg] else [])
  }

  /** The events of one thread, in order. */
  function OfThread(h: seq<Event>, t: nat): seq<Event> {
    if h == [] then []
    else OfThread(h[..|h| - 1], t) + (var e := h[|h| - 1]; if e.thread == t then [e] else [])
  }

  lemma Snoc(h: seq<Event>, e: Event, capacity: nat, t: nat)
    ensures Replay(h + [e], capacity)
         == match Replay(h, capacity) case None => None case Some(q) => Apply(q, capacity, e)
    ensures OfThread(h + [e], t) == OfThread(h, t) + (if e.thread == t then [e] else [])
  {
    assert (h + [e])[..|h|] == h;
  }

  /** Nothing is lost, repeated or reordered: what was popped, followed by what is still queued, is
      exactly what was accepted. */
  lemma {:induction false} NothingLostRepeatedOrReordered(h: seq<Event>, capacity: nat)
    requires Replay(h, capacity).Some?
    ensures AcceptedBy(h) == PoppedFrom(h) + Replay(h, capacity).value
    ensures |Replay(h, capacity).value| <= capacity
  {
    if h != [] {
      var shorter, e := h[..|h| - 1], h[|h| - 1];
      NothingLostRepeatedOrReordered(shorter, capacity);
      var q := Replay(shorter, capacity).value;
      match e
      case Accepted(_, m) => assert PoppedFrom(shorter) + (q + [m]) == PoppedFrom(shorter) + q + [m];
      case Popped(_, m) => assert PoppedFrom(shorter) + [m] + q[1..] == PoppedFrom(shorter) + q;
      case _ =>
    }
  }

  /** Event k is legal, said without a queue: an acceptance leaves at most `capacity` messages not yet
      popped, a refusal finds exactly that many, a pop returns the oldest of them, and an empty ring has
      none. */
  ghost predicate LegalAt(h: seq<Event>, k: nat, capacity: nat)
    requires k < |h|
  {
    var accepted, popped := AcceptedBy(h[..k]), PoppedFrom(h[..k]);
    match h[k]
    case Accepted(_, _) => |accepted| < |popped| + capacity
    case Full(_) => |accepted| == |popped| + capacity
    case Popped(_, m) => |popped| < |accepted| && m == accepted[|popped|]
    case Empty(_) => |accepted| == |popped|
  }

  /** Replaying a history succeeds exactly if every event of it is legal. */
  lemma {:induction false} LegalExactly(h: seq<Event>, capacity: nat)
    ensures Replay(h, capacity).Some? <==> forall k :: 0 <= k < |h| ==> LegalAt(h, k, capacity)
  {
    if h != [] {
      var shorter := h[..|h| - 1];
      LegalExactly(shorter, capacity);
      forall k | 0 <= k < |shorter|
        ensures LegalAt(h, k, capacity) <==> LegalAt(shorter, k, capacity)
      {
        assert h[..k] == shorter[..k];
      }
      if Replay(shorter, capacity).Some? {
        NothingLostRepeatedOrReordered(shorter, capacity);
        assert Replay(h, capacity).Some? <==> LegalAt(h, |shorter|, capacity);
      } else {
        var k :| 0 <= k < |shorter| && !LegalAt(shorter, k, capacity);
        assert !LegalAt(h, k, capacity);
      }
    }
  }

  lemma SnocTotals(h: seq<Event>, e: Event)
    ensures AcceptedBy(h + [e]) == AcceptedBy(h) + (if e.Accepted? then [e.msg] else [])
    ensures PoppedFrom(h + [e]) == PoppedFrom(h) + (if e.Popped? then [e.msg] else [])
  {
    assert (h + [e])[..|h|] == h;
  }

  lemma OnePopEmpties(a: Event, b: Event, capacity: nat)
    requires a.Accepted? && b.Popped?
    ensures Replay([a] + [b], capacity).Some? ==> Replay([a] + [b], capacity).value == []
  {
    assert [] + [a] == [a];
    Snoc([], a, capacity, 0);
    Snoc([a], b, capacity, 0);
    assert [] + [a.msg] == [a.msg] && [a.msg][1..] == [];
  }

  lemma TotalsOfThree(a: Event, b: Event, c: Event)
    requires a.Accepted? && b.Popped? && c.Popped?
    ensures AcceptedBy([a] + [b] + [c]) == [a.msg] && PoppedFrom([a] + [b] + [c]) == [b.msg, c.msg]
  {
    assert [] + [a] == [a];
    SnocTotals([], a);
    SnocTotals([a], b);
    SnocTotals([a] + [b], c);
  }

  /** A history that pops twice after accepting once is no history of a FIFO, whatever it pops. */
  lemma PoppingTooOftenIsIllegal(a: Event, b: Event, c: Event, capacity: nat)
    requires a.Accepted? && b.Popped? && c.Popped?
    ensures AcceptedBy([a, b, c]) == [a.msg] && PoppedFrom([a, b, c]) == [b.msg, c.msg]
    ensures Replay([a, b, c], capacity).None?
  {
    assert [a, b, c] == [a] + [b] + [c];
    TotalsOfThree(a, b, c);
    OnePopEmpties(a, b, capacity);
    Snoc([a] + [b], c, capacity, 0);
  }
}
