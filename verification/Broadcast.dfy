/** The netlink server: it remembers the first ten senders, and a "broadcast" message is answered to all of
    them. Messages are handled one at a time. Allocating and delivering a reply may fail for any
    client. */
module Broadcast {
  import opened DriverBasics

  const MAX_CLIENTS: nat := 10
  const BROADCAST_TEXT: string := "Broadcast Message"
  const REPLY_TEXT: string := "Hello Userspace"

  type Pid = p: int | 0 <= p < 0x1_0000_0000

  datatype Fate = NoMemory | Unreachable | Delivered

  /** One attempt to send a message to a client, and what became of it. */
  datatype Attempt = Attempt(pid: Pid, text: string, fate: Fate)

  function Registered(table: seq<Pid>, pid: Pid): seq<Pid> {
    if pid in table || |table| >= MAX_CLIENTS then table else table + [pid]
  }

  // ---------------------------------------------------------------- any history of messages

  /** The table after messages from these senders, as the calls compute it. */
  function TableAfter(senders: seq<Pid>): seq<Pid> {
    if senders == [] then []
    else Registered(TableAfter(senders[..|senders| - 1]), senders[|senders| - 1])
  }

  /** Where a sender first appears. */
  function FirstAt(senders: seq<Pid>, pid: Pid): (k: nat)
    requires pid in senders
    ensures k < |senders| && senders[k] == pid && forall j :: 0 <= j < k ==> senders[j] != pid
  {
    if senders[0] == pid then 0
    else
      assert senders == [senders[0]] + senders[1..];
      FirstAt(senders[1..], pid) + 1
  }

  ghost predicate InOrder(table: seq<Pid>, senders: seq<Pid>)
    requires forall i :: 0 <= i < |table| ==> table[i] in senders
  {
    forall i, j :: 0 <= i < j < |table| ==> FirstAt(senders, table[i]) < FirstAt(senders, table[j])
  }

  /** Ten others came before this sender. */
  ghost predicate CameTooLate(table: seq<Pid>, senders: seq<Pid>, pid: Pid)
    requires pid in senders && forall i :: 0 <= i < |table| ==> table[i] in senders
  {
    |table| == MAX_CLIENTS && forall i :: 0 <= i < |table| ==> FirstAt(senders, table[i]) < FirstAt(senders, pid)
  }

  /** The table lists distinct senders in the order in which they first appeared, and nobody is missing
      from it unless ten others came first. */
  ghost predicate FirstTen(table: seq<Pid>, senders: seq<Pid>) {
    && |table| <= MAX_CLIENTS
    && (forall i :: 0 <= i < |table| ==> table[i] in senders)
    && InOrder(table, senders)
    && (forall pid :: pid in senders && pid !in table ==> CameTooLate(table, senders, pid))
  }

  lemma FirstAtIsStable(senders: seq<Pid>, sender: Pid, pid: Pid)
    requires pid in senders
    ensures pid in senders + [sender] && FirstAt(senders + [sender], pid) == FirstAt(senders, pid)
  {
    var longer := senders + [sender];
    assert longer[FirstAt(senders, pid)] == pid;
    assert forall j :: 0 <= j < |senders| ==> longer[j] == senders[j];
  }

  lemma FirstAtIsLast(senders: seq<Pid>, sender: Pid)
    requires sender !in senders
    ensures FirstAt(senders + [sender], sender) == |senders|
  {
    assert forall j :: 0 <= j < |senders| ==> (senders + [sender])[j] == senders[j];
  }

  /** Another message changes nothing for the senders there were. */
  lemma AnotherMessage(table: seq<Pid>, senders: seq<Pid>, sender: Pid)
    requires FirstTen(table, senders)
    ensures forall i :: 0 <= i < |table| ==> table[i] in senders + [sender]
    ensures InOrder(table, senders + [sender])
    ensures forall pid :: pid in senders && pid !in table ==>
      pid in senders + [sender] && CameTooLate(table, senders + [sender], pid)
  {
    var longer := senders + [sender];
    forall pid | pid in senders
      ensures pid in longer && FirstAt(longer, pid) == FirstAt(senders, pid)
    {
      FirstAtIsStable(senders, sender, pid);
    }
  }

  lemma KnownSender(table: seq<Pid>, senders: seq<Pid>, sender: Pid)
    requires FirstTen(table, senders) && sender in senders
    ensures FirstTen(table, senders + [sender])
  {
    AnotherMessage(table, senders, sender);
  }

  lemma LateSender(table: seq<Pid>, senders: seq<Pid>, sender: Pid)
    requires FirstTen(table, senders) && sender !in senders && |table| == MAX_CLIENTS
    ensures FirstTen(table, senders + [sender])
  {
    var longer := senders + [sender];
    AnotherMessage(table, senders, sender);
    FirstAtIsLast(senders, sender);
    forall i | 0 <= i < |table|
      ensures FirstAt(longer, table[i]) < FirstAt(longer, sender)
    {
      FirstAtIsStable(senders, sender, table[i]);
    }
  }

  lemma NewSender(table: seq<Pid>, senders: seq<Pid>, sender: Pid)
    requires FirstTen(table, senders) && sender !in senders && |table| < MAX_CLIENTS
    ensures FirstTen(table + [sender], senders + [sender])
  {
    var longer, after := senders + [sender], table + [sender];
    assert longer[|senders|] == sender;
    FirstAtIsLast(senders, sender);
    assert forall pid :: pid in senders ==> pid in table;
    assert forall pid :: pid in table ==> pid in after;
    forall i | 0 <= i < |table|
      ensures table[i] in longer && FirstAt(longer, table[i]) == FirstAt(senders, table[i])
    {
      FirstAtIsStable(senders, sender, table[i]);
    }
    assert forall i :: 0 <= i < |table| ==> after[i] == table[i];
    assert after[|table|] == sender;
  }

  /** After any history of messages the table holds exactly the first ten distinct senders, in order of
      first appearance. */
  lemma {:induction false} TableIsFirstTenSenders(senders: seq<Pid>)
    ensures FirstTen(TableAfter(senders), senders)
  {
    if senders != [] {
      var before, sender := senders[..|senders| - 1], senders[|senders| - 1];
      TableIsFirstTenSenders(before);
      assert senders == before + [sender];
      var table := TableAfter(before);
      if sender in before {
        KnownSender(table, before, sender);
      } else if |table| == MAX_CLIENTS {
        LateSender(table, before, sender);
      } else {
        NewSender(table, before, sender);
      }
    }
  }

  // ---------------------------------------------------------------- the server

  /** How many of the first `k` clients cannot be reached. */
  function OutOfReach(fate: nat -> Fate, k: nat): nat {
    if k == 0 then 0 else OutOfReach(fate, k - 1) + One(fate(k - 1).Unreachable?)
  }

  /** Exactly the unreachable ones among the first `k` clients are reported, each once, in table order. */
  ghost predicate Reports(reported: seq<Pid>, table: seq<Pid>, fate: nat -> Fate, k: nat)
    requires k <= |table|
  {
    && |reported| == OutOfReach(fate, k)
    && forall i :: 0 <= i < k && fate(i).Unreachable? ==>
         OutOfReach(fate, i) < |reported| && reported[OutOfReach(fate, i)] == table[i]
  }

  lemma OneMoreReport(reported: seq<Pid>, table: seq<Pid>, fate: nat -> Fate, k: nat)
    requires k < |table| && Reports(reported, table, fate, k)
    ensures Reports(if fate(k).Unreachable? then reported + [table[k]] else reported, table, fate, k + 1)
  {
    var longer := if fate(k).Unreachable? then reported + [table[k]] else reported;
    assert OutOfReach(fate, k + 1) == OutOfReach(fate, k) + One(fate(k).Unreachable?);
    forall i | 0 <= i < k + 1 && fate(i).Unreachable?
      ensures OutOfReach(fate, i) < |longer| && longer[OutOfReach(fate, i)] == table[i]
    {
      if i < k {
        assert reported[OutOfReach(fate, i)] == table[i];
      }
    }
  }

  class Server {
    const clients: array<Pid>
    var total: nat
    ghost var senders: seq<Pid>

    /** The table is what the messages so far have made it. */
    ghost predicate Valid()
      reads this, clients
    {
      clients.Length == MAX_CLIENTS && total <= MAX_CLIENTS && Table() == TableAfter(senders)
    }

    ghost function Table(): seq<Pid>
      requires total <= clients.Length
      reads this, clients
    {
      clients[..total]
    }

    constructor ()
      ensures Valid() && senders == [] && fresh(clients)
    {
      clients := new Pid[MAX_CLIENTS](_ => 0);
      total, senders := 0, [];
    }

    /** register_client */
    method Register(pid: Pid)
      requires Valid()
      modifies this, clients
      ensures Valid() && senders == old(senders) + [pid]
      ensures Table() == Registered(old(Table()), pid)
    {
      var i := 0;
      while i < total
        invariant i <= total && pid !in clients[..i]
        invariant unchanged(this) && unchanged(clients)
      {
        if clients[i] == pid {
          assert clients[..total][i] == pid;
          Remember(pid);
          return;
        }
        i := i + 1;
      }
      if total >= MAX_CLIENTS {
        Remember(pid);
        return;
      }
      clients[total] := pid;
      total := total + 1;
      Remember(pid);
    }

    ghost method Remember(pid: Pid)
      requires clients.Length == MAX_CLIENTS && total <= MAX_CLIENTS
      requires Table() == Registered(TableAfter(senders), pid)
      modifies this`senders
      ensures Valid() && senders == old(senders) + [pid]
    {
      assert (senders + [pid])[..|senders|] == senders;
      senders := senders + [pid];
    }

    /** send_broadcast: one attempt for each client, in table order. A client for which there is no memory
        is skipped, one that cannot be reached is reported, and neither stops the others. */
    method SendBroadcast(text: string, fate: nat -> Fate) returns (attempts: seq<Attempt>, reported: seq<Pid>)
      requires Valid()
      ensures |attempts| == |Table()|
      ensures forall i :: 0 <= i < |attempts| ==> attempts[i] == Attempt(Table()[i], text, fate(i))
      ensures Reports(reported, Table(), fate, |Table()|)
    {
      ghost var table := Table();
      attempts, reported := [], [];
      var i := 0;
      while i < total
        invariant |attempts| == i <= total
        invariant forall j :: 0 <= j < i ==> attempts[j] == Attempt(table[j], text, fate(j))
        invariant Reports(reported, table, fate, i)
      {
        var pid := clients[i];
        assert pid == table[i];
        OneMoreReport(reported, table, fate, i);
        i := i + 1;
        if fate(i - 1).NoMemory? {
          attempts := attempts + [Attempt(pid, text, NoMemory)];
          continue;
        }
        if fate(i - 1).Unreachable? {
          attempts := attempts + [Attempt(pid, text, Unreachable)];
          reported := reported + [pid];
        } else {
          attempts := attempts + [Attempt(pid, text, Delivered)];
        }
      }
    }

    /** netlink_recv_msg */
    method Receive(pid: Pid, msg: string, fate: nat -> Fate) returns (attempts: seq<Attempt>)
      requires Valid()
      modifies this, clients
      ensures Valid() && senders == old(senders) + [pid]
      ensures FirstTen(Table(), senders)
      ensures msg != "broadcast" ==> attempts == [Attempt(pid, REPLY_TEXT, fate(0))]
      ensures msg == "broadcast" ==> |attempts| == |Table()|
      ensures msg == "broadcast" ==>
        forall i :: 0 <= i < |attempts| ==> attempts[i] == Attempt(Table()[i], BROADCAST_TEXT, fate(i))
    {
      Register(pid);
      TableIsFirstTenSenders(senders);
      if msg == "broadcast" {
        ghost var reported: seq<Pid>;
        attempts, reported := SendBroadcast(BROADCAST_TEXT, fate);
      } else {
        attempts := [Attempt(pid, REPLY_TEXT, fate(0))];
      }
    }
  }
}
