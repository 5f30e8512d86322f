/** The ring buffer as the code keeps it: a two-dimensional character array filled and emptied in
    place, character by character. Calls do not overlap here; LocklessRing and LockedRing interleave
    them. */
module RingBuffer {
  import opened DriverBasics
  import opened RingLayout

  class Ring {
    const data: array2<char>
    var head: nat
    var tail: nat
    ghost var queue: seq<string>

    ghost function RowAt(i: nat): (r: Row)
      requires i < data.Length0 && data.Length1 == MAX_PACKET
      reads data
    {
      seq(MAX_PACKET, j requires 0 <= j < MAX_PACKET reads data => data[i, j])
    }

    ghost function Rows(): (rows: seq<Row>)
      requires data.Length1 == MAX_PACKET
      reads data
      ensures |rows| == data.Length0
      ensures forall i :: 0 <= i < data.Length0 ==> rows[i] == RowAt(i)
    {
      seq(data.Length0, i requires 0 <= i < data.Length0 reads data => RowAt(i))
    }

    ghost predicate Valid()
      reads this, data
    {
      && data.Length1 == MAX_PACKET
      && Indices(Rows(), head, tail)
      && Contains(Rows(), head, tail, queue)
    }

    constructor (n: nat)
      requires 2 <= n
      ensures Valid() && fresh(data) && data.Length0 == n && queue == []
    {
      data := new char[n, MAX_PACKET]((i, j) => '\0');
      head, tail, queue := 0, 0, [];
    }

    /** strscpy into a slot: at most 63 characters, then the terminator. No other slot changes. */
    method CopyIn(slot: nat, msg: CString)
      requires data.Length1 == MAX_PACKET && slot < data.Length0
      modifies data
      ensures Holds(RowAt(slot), Cut(msg))
      ensures Rows() == old(Rows())[slot := RowAt(slot)]
    {
      var i := 0;
      while i < MAX_PACKET - 1 && i < |msg|
        invariant i <= |Cut(msg)|
        invariant forall j :: 0 <= j < i ==> data[slot, j] == msg[j]
        invariant forall k, j :: 0 <= k < data.Length0 && k != slot && 0 <= j < MAX_PACKET ==> data[k, j] == old(data[k, j])
      {
        data[slot, i] := msg[i];
        i := i + 1;
      }
      data[slot, i] := '\0';
      assert RowAt(slot)[..i] == Cut(msg);
      forall k | 0 <= k < data.Length0 && k != slot
        ensures RowAt(k) == old(RowAt(k))
      {
      }
    }

    /** strscpy out of a slot: reads up to the terminator. */
    method CopyOut(slot: nat, ghost m: string) returns (out: string)
      requires data.Length1 == MAX_PACKET && slot < data.Length0
      requires Holds(RowAt(slot), m)
      ensures out == m
    {
      out := "";
      CopyStep(RowAt(slot), m, out);
      while |out| < MAX_PACKET - 1 && data[slot, |out|] != '\0'
        invariant out <= m && |out| < MAX_PACKET
        decreases MAX_PACKET - |out|
      {
        CopyStep(RowAt(slot), m, out);
        out := out + [data[slot, |out|]];
      }
      CopyStep(RowAt(slot), m, out);
    }

    /** ring_push */
    method Push(msg: CString) returns (ret: int)
      requires Valid()
      modifies this, data
      ensures Valid()
      ensures ret == if |old(queue)| == data.Length0 - 1 then -ENOSPC else 0
      ensures queue == if ret == 0 then old(queue) + [Cut(msg)] else old(queue)
      ensures |queue| < data.Length0
    {
      FullAndEmptyTests(Rows(), head, tail, queue);
      var next := (head + 1) % data.Length0;
      if next == tail {
        return -ENOSPC;
      }
      CopyIn(head, msg);
      SpareSlotIsFree(old(Rows()), head, tail, queue, RowAt(head));
      Publish(Rows(), head, tail, queue, Cut(msg));
      head := next;
      queue := queue + [Cut(msg)];
      return 0;
    }

    /** The rest of a pop once the ring is known to hold a message: after the test of the lock-free
        ring, after the wait of the locked one. */
    method Take() returns (msg: string)
      requires Valid() && queue != []
      modifies this
      ensures Valid()
      ensures old(queue) == [msg] + queue
    {
      FullAndEmptyTests(Rows(), head, tail, queue);
      Retire(Rows(), head, tail, queue);
      msg := CopyOut(tail, queue[0]);
      tail := (tail + 1) % data.Length0;
      queue := queue[1..];
    }

    /** ring_pop */
    method Pop() returns (ret: int, msg: string)
      requires Valid()
      modifies this
      ensures Valid()
      ensures ret == if old(queue) == [] then -ENOENT else 0
      ensures ret == 0 ==> old(queue) == [msg] + queue
      ensures ret != 0 ==> queue == old(queue)
    {
      FullAndEmptyTests(Rows(), head, tail, queue);
      if head == tail {
        return -ENOENT, "";
      }
      msg := Take();
      return 0, msg;
    }
  }
}
