/** The kernel's intrusive circular doubly linked list, on the heap: links with next and prev pointers,
    a sentinel head, removal that poisons the removed link, and freed memory that nobody may touch. */
module KernelList {
  import opened DriverBasics

  /** A list_head together with the structure it is embedded in; the sentinel has none. */
  class Link<T> {
    var next: Link?<T>
    var prev: Link?<T>
    const entry: Option<T>
    ghost var freed: bool

    constructor (entry: Option<T>)
      ensures this.entry == entry && !freed
      ensures next == this && prev == this
    {
      this.entry := entry;
      next, prev, freed := this, this, false;
    }
  }

  /** Everything but the first element that satisfies `matches`. */
  function RemoveFirst<T>(s: seq<T>, matches: T -> bool): seq<T> {
    if s == [] then []
    else if matches(s[0]) then s[1..]
    else [s[0]] + RemoveFirst(s[1..], matches)
  }

  lemma {:induction false} RemoveFirstAt<T>(s: seq<T>, matches: T -> bool, k: nat)
    requires k < |s| && matches(s[k]) && forall j :: 0 <= j < k ==> !matches(s[j])
    ensures RemoveFirst(s, matches) == s[..k] + s[k + 1..]
  {
    if k > 0 {
      RemoveFirstAt(s[1..], matches, k - 1);
      assert [s[0]] + (s[1..][..k - 1] + s[1..][k..]) == s[..k] + s[k + 1..];
    }
  }

  lemma {:induction false} RemoveFirstNone<T>(s: seq<T>, matches: T -> bool)
    requires forall j :: 0 <= j < |s| ==> !matches(s[j])
    ensures RemoveFirst(s, matches) == s
  {
    if s != [] {
      RemoveFirstNone(s[1..], matches);
    }
  }

  /** RemoveFirst drops one element or none: the first that matches. */
  lemma {:induction false} FirstMatch<T>(s: seq<T>, matches: T -> bool) returns (k: nat)
    ensures k <= |s| && forall j :: 0 <= j < k ==> !matches(s[j])
    ensures k < |s| ==> matches(s[k])
    ensures RemoveFirst(s, matches) == if k < |s| then s[..k] + s[k + 1..] else s
  {
    k := 0;
    while k < |s| && !matches(s[k])
      invariant k <= |s| && forall j :: 0 <= j < k ==> !matches(s[j])
    {
      k := k + 1;
    }
    if k < |s| {
      RemoveFirstAt(s, matches, k);
    } else {
      RemoveFirstNone(s, matches);
    }
  }

  lemma CutFirst<T>(s: seq<T>, t: seq<T>)
    requires s != [] && t == s[..0] + s[1..]
    ensures |t| == |s| - 1 && forall j :: 0 <= j < |t| ==> t[j] == s[j + 1]
    ensures forall x :: x in s <==> x == s[0] || x in t
  {
    assert s == [s[0]] + t;
  }

  ghost predicate Carries<T>(nodes: seq<Link<T>>) {
    forall i :: 0 <= i < |nodes| ==> nodes[i].entry.Some?
  }

  ghost function Values<T>(nodes: seq<Link<T>>): (r: seq<T>)
    requires Carries(nodes)
    ensures |r| == |nodes| && forall i :: 0 <= i < |nodes| ==> r[i] == nodes[i].entry.value
  {
    seq(|nodes|, i requires 0 <= i < |nodes| => nodes[i].entry.value)
  }

  class List<T> {
    const head: Link<T>
    ghost var nodes: seq<Link<T>>

    /** The links met by following next from the head until it comes round again. */
    ghost function Ring(): seq<Link<T>>
      reads this
    {
      [head] + nodes + [head]
    }

    ghost predicate Linked()
      reads this, head, nodes
    {
      forall i :: 0 <= i <= |nodes| ==> Ring()[i].next == Ring()[i + 1] && Ring()[i + 1].prev == Ring()[i]
    }

    ghost predicate Valid()
      reads this, head, nodes
    {
      && !head.freed && head !in nodes
      && (forall i, j :: 0 <= i < j < |nodes| ==> nodes[i] != nodes[j])
      && (forall i :: 0 <= i < |nodes| ==> !nodes[i].freed)
      && Carries(nodes)
      && Linked()
    }

    ghost function Contents(): seq<T>
      reads this
      requires Carries(nodes)
    {
      Values(nodes)
    }

    constructor ()
      ensures Valid() && nodes == [] && fresh(head)
    {
      head := new Link(None);
      nodes := [];
    }

    /** One step round the ring: never through freed memory or a poisoned pointer. */
    method Follow(pos: Link<T>, ghost i: nat) returns (n: Link<T>)
      requires Valid() && i <= |nodes| + 1 && pos == Ring()[i]
      ensures n == Ring()[if i <= |nodes| then i + 1 else 1] && !n.freed
    {
      ghost var k := if i <= |nodes| then i else 0;
      assert Ring()[k] == pos && Ring()[k].next == Ring()[k + 1];
      assert !pos.freed;
      n := pos.next;
    }

    /** list_add_tail */
    method AddTail(node: Link<T>)
      requires Valid() && node.entry.Some? && !node.freed
      requires node != head && node !in nodes
      modifies this, head, nodes, node
      ensures Valid() && nodes == old(nodes) + [node]
      ensures Contents() == old(Contents()) + [node.entry.value]
      ensures !node.freed
    {
      assert head == Ring()[|nodes| + 1] && Ring()[|nodes| + 1].prev == Ring()[|nodes|];
      ghost var ring := Ring();
      var last := head.prev;
      head.prev := node;
      node.next := head;
      node.prev := last;
      last.next := node;
      nodes := nodes + [node];
      forall i | 0 <= i <= |nodes|
        ensures Ring()[i].next == Ring()[i + 1] && Ring()[i + 1].prev == Ring()[i]
      {
        if i < |nodes| - 1 {
          assert Ring()[i] == ring[i] && Ring()[i + 1] == ring[i + 1];
        }
      }
    }

    /** list_del: unlinks the node and poisons its pointers. */
    method Del(node: Link<T>, ghost k: nat)
      requires Valid() && k < |nodes| && nodes[k] == node
      modifies this, head, nodes
      ensures Valid() && nodes == old(nodes)[..k] + old(nodes)[k + 1..]
      ensures node.next == null && node.prev == null
      ensures forall n :: n in old(nodes) ==> n.freed == old(n.freed)
    {
      ghost var ring := Ring();
      assert ring[k + 1] == node && ring[k].next == node && ring[k + 2].prev == node;
      var next, prev := node.next, node.prev;
      next.prev := prev;
      prev.next := next;
      node.next, node.prev := null, null;
      nodes := nodes[..k] + nodes[k + 1..];
      forall i | 0 <= i <= |nodes|
        ensures Ring()[i].next == Ring()[i + 1] && Ring()[i + 1].prev == Ring()[i]
      {
        if i < k {
          assert Ring()[i] == ring[i] && Ring()[i + 1] == ring[i + 1];
        } else if i == k {
          assert Ring()[i] == ring[k] && Ring()[i + 1] == ring[k + 2];
        } else {
          assert Ring()[i] == ring[i + 1] && Ring()[i + 1] == ring[i + 2];
        }
      }
    }

    /** kfree, of a node no list holds any more; freeing twice is forbidden. */
    static method Free(node: Link<T>)
      requires !node.freed
      modifies node`freed
      ensures node.freed
    {
      node.freed := true;
    }

    /** list_del and kfree of one node. */
    method Remove(node: Link<T>, ghost k: nat)
      requires Valid() && k < |nodes| && nodes[k] == node
      modifies this, head, nodes
      ensures Valid() && nodes == old(nodes)[..k] + old(nodes)[k + 1..]
      ensures node.next == null && node.prev == null
      ensures Contents() == old(Contents())[..k] + old(Contents())[k + 1..]
      ensures forall n :: n in old(nodes) ==> (n.freed <==> n !in nodes)
      ensures node !in nodes && forall n :: n in nodes ==> n in old(nodes)
    {
      Del(node, k);
      Free(node);
    }

    method RemoveMatch(node: Link<T>, ghost k: nat, ghost matches: T -> bool)
      requires Valid() && k < |nodes| && nodes[k] == node && matches(Contents()[k])
      requires forall j :: 0 <= j < k ==> !matches(Contents()[j])
      modifies this, head, nodes
      ensures Valid() && Contents() == RemoveFirst(old(Contents()), matches)
      ensures forall n :: n in old(nodes) ==> (n.freed <==> n !in nodes)
    {
      RemoveFirstAt(Contents(), matches, k);
      Remove(node, k);
    }

    /** The traversal is at link i + 1 of the ring, with its successor saved, and nothing before it matches. */
    ghost predicate Searching(pos: Link<T>, n: Link<T>, i: nat, matches: T -> bool)
      reads this, head, nodes
    {
      && Valid() && i <= |nodes|
      && pos == Ring()[i + 1] && n == Ring()[if i < |nodes| then i + 2 else 1]
      && forall j :: 0 <= j < i ==> !matches(Contents()[j])
    }

    method SaveNext(pos: Link<T>, n: Link<T>, ghost i: nat, ghost matches: T -> bool) returns (after: Link<T>)
      requires Searching(pos, n, i, matches) && i < |nodes| && !matches(Contents()[i])
      ensures Searching(n, after, i + 1, matches)
    {
      after := Follow(n, i + 2);
    }

    /** Deletes the first node that matches. The traversal saves the successor before it looks at a
        node. */
    method DeleteFirst(matches: T -> bool) returns (found: bool)
      requires Valid()
      modifies this, head, nodes
      ensures Valid()
      ensures found <==> exists j :: 0 <= j < |old(Contents())| && matches(old(Contents())[j])
      ensures Contents() == RemoveFirst(old(Contents()), matches)
      ensures forall n :: n in old(nodes) ==> (n.freed <==> n !in nodes)
    {
      ghost var values := Contents();
      ghost var i := 0;
      var pos := Follow(head, 0);
      var n := Follow(pos, 1);
      while pos != head
        invariant Searching(pos, n, i, matches)
        invariant unchanged(this) && unchanged(head) && unchanged(nodes)
        decreases |nodes| - i
      {
        assert i < |nodes| && pos == nodes[i] && pos.entry.value == values[i];
        if matches(pos.entry.value) {
          RemoveMatch(pos, i, matches);
          return true;
        }
        var after := SaveNext(pos, n, i, matches);
        pos, n := n, after;
        i := i + 1;
      }
      assert i == |nodes|;
      RemoveFirstNone(values, matches);
      return false;
    }

    /** One turn of the draining traversal: the saved successor becomes the current link. It is still the
        next link of the ring, although the link it was read from is unlinked and freed. */
    method DrainOne(pos: Link<T>, n: Link<T>) returns (after: Link<T>)
      requires Valid() && nodes != [] && pos == nodes[0] && n == Ring()[2]
      modifies this, head, nodes
      ensures Valid() && |nodes| == |old(nodes)| - 1
      ensures forall m :: m in old(nodes) <==> m == pos || m in nodes
      ensures n == Ring()[1] && !n.freed && after == Ring()[if nodes == [] then 1 else 2]
      ensures pos.freed && pos !in nodes
    {
      ghost var before := nodes;
      Remove(pos, 0);
      CutFirst(before, nodes);
      assert Ring()[1] == if nodes == [] then head else before[1];
      assert Ring()[0].next == Ring()[1];
      after := Follow(n, 1);
    }

    /** Deletes every node, front to back, with the same saved successor. */
    method Drain()
      requires Valid()
      modifies this, head, nodes
      ensures Valid() && nodes == []
      ensures forall n :: n in old(nodes) ==> n.freed
    {
      ghost var all := nodes;
      var pos := Follow(head, 0);
      var n := Follow(pos, 1);
      while pos != head
        invariant Valid() && pos == Ring()[1] && n == Ring()[if nodes == [] then 1 else 2]
        invariant forall m :: m in nodes ==> m in all
        invariant forall m :: m in all ==> m in nodes || m.freed
        decreases |nodes|
      {
        assert nodes != [] && pos == nodes[0];
        var after := DrainOne(pos, n);
        pos, n := n, after;
      }
    }
  }
}
