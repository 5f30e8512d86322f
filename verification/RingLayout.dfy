/** The memory layout both ring buffers share: `n` slots of MAX_PACKET characters, a head index (next
    slot to fill), a tail index (next slot to empty) and one slot that always stays spare. */
module RingLayout {
  import opened BoundedFifo

  const MAX_PACKET: nat := 64

  /** A C string: characters up to, and not including, the terminator. */
  type CString = s: string | '\0' !in s

  type Row = r: seq<char> | |r| == MAX_PACKET witness seq(MAX_PACKET, _ => '\0')

  /** What strscpy into a slot keeps of a message. */
  function Cut(m: CString): (r: CString)
    ensures |r| < MAX_PACKET && r <= m
    ensures r == m || |r| == MAX_PACKET - 1
  {
    if |m| < MAX_PACKET then m else m[..MAX_PACKET - 1]
  }

  predicate Holds(row: Row, m: string) {
    |m| < MAX_PACKET && row[..|m|] == m && row[|m|] == '\0' && '\0' !in m
  }

  /** What strscpy reads out of a row from position i on: up to the terminator, or to the last character
      that fits. */
  function TextFrom(row: Row, i: nat): string
    requires i < MAX_PACKET
    decreases MAX_PACKET - i
  {
    if i < MAX_PACKET - 1 && row[i] != '\0' then [row[i]] + TextFrom(row, i + 1) else []
  }

  function Text(row: Row): string {
    TextFrom(row, 0)
  }

  lemma {:induction false} TextOfHeld(row: Row, m: string, i: nat)
    requires Holds(row, m) && i <= |m|
    ensures TextFrom(row, i) == m[i..]
    decreases |m| - i
  {
    if i < |m| {
      assert row[i] == row[..|m|][i] == m[i];
      TextOfHeld(row, m, i + 1);
    }
  }

  function Slot(tail: nat, k: nat, n: nat): int {
    if tail + k < n then tail + k else tail + k - n
  }

  function Count(head: nat, tail: nat, n: nat): int {
    if tail <= head then head - tail else head - tail + n
  }

  predicate Indices(data: seq<Row>, head: nat, tail: nat) {
    2 <= |data| && head < |data| && tail < |data|
  }

  /** The occupied slots, from tail to head, hold exactly the messages `q`. */
  ghost predicate Contains(data: seq<Row>, head: nat, tail: nat, q: seq<string>)
    requires Indices(data, head, tail)
  {
    && |q| == Count(head, tail, |data|)
    && forall k :: 0 <= k < |q| ==> Holds(data[Slot(tail, k, |data|)], q[k])
  }

  /** The ring, with this history, is a FIFO: every operation was legal for a queue of that capacity
      (refused as full only when full, as empty only when empty, popped from the front), nothing was
      lost, repeated or reordered, and the occupied slots hold exactly what is still queued. */
  ghost predicate ImplementsFifo(data: seq<Row>, head: nat, tail: nat, history: seq<Event>, capacity: nat) {
    && Indices(data, head, tail)
    && Replay(history, capacity).Some?
    && var q := Replay(history, capacity).value;
       && AcceptedBy(history) == PoppedFrom(history) + q
       && Contains(data, head, tail, q)
  }

  lemma Successor(i: nat, n: nat)
    requires i < n
    ensures (i + 1) % n == if i + 1 == n then 0 else i + 1
  {
    if i + 1 < n {
      assert (i + 1) % n == i + 1;
    }
  }

  /** The source's two tests, read on the abstract queue. */
  lemma FullAndEmptyTests(data: seq<Row>, head: nat, tail: nat, q: seq<string>)
    requires Indices(data, head, tail) && Contains(data, head, tail, q)
    ensures (head + 1) % |data| == tail <==> |q| == |data| - 1
    ensures head == tail <==> q == []
    ensures |q| <= |data| - 1
  {
    Successor(head, |data|);
  }

  lemma Publish(data: seq<Row>, head: nat, tail: nat, q: seq<string>, m: string)
    requires Indices(data, head, tail) && Contains(data, head, tail, q)
    requires |q| < |data| - 1 && Holds(data[head], m)
    ensures Indices(data, (head + 1) % |data|, tail)
    ensures Contains(data, (head + 1) % |data|, tail, q + [m])
  {
    Successor(head, |data|);
    assert Slot(tail, |q|, |data|) == head;
  }

  lemma Retire(data: seq<Row>, head: nat, tail: nat, q: seq<string>)
    requires Indices(data, head, tail) && Contains(data, head, tail, q)
    requires head != tail
    ensures q != [] && Holds(data[tail], q[0])
    ensures Indices(data, head, (tail + 1) % |data|)
    ensures Contains(data, head, (tail + 1) % |data|, q[1..])
  {
    Successor(tail, |data|);
    assert Slot(tail, 0, |data|) == tail;
    var tail' := (tail + 1) % |data|;
    forall k | 0 <= k < |q[1..]|
      ensures Holds(data[Slot(tail', k, |data|)], q[1..][k])
    {
      assert Slot(tail', k, |data|) == Slot(tail, k + 1, |data|);
    }
  }

  /** Writing the spare slot disturbs no occupied one. */
  lemma SpareSlotIsFree(data: seq<Row>, head: nat, tail: nat, q: seq<string>, row: Row)
    requires Indices(data, head, tail) && Contains(data, head, tail, q)
    ensures Contains(data[head := row], head, tail, q)
  {
    forall k | 0 <= k < |q|
      ensures Holds(data[head := row][Slot(tail, k, |data|)], q[k])
    {
      assert Slot(tail, k, |data|) != head;
    }
  }

  /** A reader that has copied the prefix `out` of a slot's message meets the terminator exactly when
      it has the whole message; otherwise the next character extends the prefix. */
  lemma CopyStep(row: Row, m: string, out: string)
    requires Holds(row, m) && out <= m
    ensures |out| < MAX_PACKET
    ensures row[|out|] == '\0' <==> out == m
    ensures out != m ==> out + [row[|out|]] <= m && |out| < MAX_PACKET - 1
  {
    if |out| < |m| {
      assert row[|out|] == row[..|m|][|out|] == m[|out|];
    }
  }
}
