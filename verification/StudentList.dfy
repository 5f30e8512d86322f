/** The list_demo character device: students added by text, listed as text, deleted by id, all freed on
    unload. Every call holds the list mutex, so calls do not overlap. */
module StudentList {
  import opened DriverBasics
  import opened KernelList
  import opened StudentText

  const BUF_SIZE: nat := 128
  const LIST_SIZE: nat := 512
  const DELETE_NODE := 1

  /** An int compared with an unsigned long is sign-extended first. */
  function AsUnsignedLong(id: int): int {
    if id < 0 then id + 0x1_0000_0000_0000_0000 else id
  }

  /** The argument of an ioctl: an unsigned long. */
  type ULong = n: nat | n < 0x1_0000_0000_0000_0000

  /** The argument and the id are the same number modulo 2^64. */
  predicate Denotes(arg: ULong, id: int) {
    (id - arg) % 0x1_0000_0000_0000_0000 == 0
  }

  function WithArg(arg: ULong): Student -> bool {
    (s: Student) => AsUnsignedLong(s.id) == arg
  }

  /** The C string a buffer holds. */
  function CText(buf: string): (r: string)
    ensures '\0' !in r && r <= buf && (|r| < |buf| ==> buf[|r|] == '\0')
  {
    if buf == [] || buf[0] == '\0' then [] else [buf[0]] + CText(buf[1..])
  }

  class Device {
    const list: KernelList.List<Student>

    ghost predicate Valid()
      reads this, list, list.head, list.nodes
    {
      list.Valid() && forall i :: 0 <= i < |list.nodes| ==> IsStudent(list.nodes[i].entry.value)
    }

    constructor ()
      ensures Valid() && list.Contents() == [] && fresh(list) && fresh(list.head)
    {
      list := new KernelList.List();
    }

    /** my_write: a full buffer, a faulting copy, a failed allocation and unreadable text are all
        answered with 0 and change nothing. */
    method Write(buf: string, copies: bool, allocates: bool) returns (ret: nat)
      requires Valid()
      modifies list, list.head, list.nodes
      ensures Valid()
      ensures var parsed := Scan(CText(buf));
        if |buf| < BUF_SIZE && copies && allocates && parsed.Some?
        then ret == |buf| && list.Contents() == old(list.Contents()) + [parsed.value]
        else ret == 0 && list.Contents() == old(list.Contents())
    {
      if |buf| >= BUF_SIZE {
        return 0;
      }
      if !copies {
        return 0;
      }
      if !allocates {
        return 0;
      }
      var parsed := Scan(CText(buf));
      if parsed.None? {
        return 0;
      }
      var node := new Link(Some(parsed.value));
      list.AddTail(node);
      return |buf|;
    }

    /** my_read: one page of the listing, at the start of the file only. A fault of the copy to the user
        hands out nothing and leaves the offset. */
    method Read(off: nat, copies: bool) returns (ret: int, text: string, after: nat)
      requires Valid()
      ensures if off != 0 then ret == 0 && text == "" && after == off
        else if !copies then ret == -EFAULT && text == "" && after == off
        else
          && text == Render(list.Contents())[..Min(LIST_SIZE - 1, |Render(list.Contents())|)]
          && ret == after == |text|
    {
      if off != 0 {
        return 0, "", off;
      }
      var kbuf := new char[LIST_SIZE];
      var pos := FillListing(kbuf);
      if !copies {
        return -EFAULT, "", off;
      }
      return pos, kbuf[..pos], off + pos;
    }

    /** The listing loop. Clamping keeps `pos` below the buffer's size, so the early break is dead. */
    method FillListing(kbuf: array<char>) returns (pos: nat)
      requires Valid() && kbuf.Length == LIST_SIZE
      modifies kbuf
      ensures pos == Min(LIST_SIZE - 1, |Render(list.Contents())|)
      ensures kbuf[..pos] == Render(list.Contents())[..pos]
    {
      pos := 0;
      ghost var i := 0;
      ghost var values := list.Contents();
      var node := list.Follow(list.head, 0);
      while node != list.head
        invariant i <= |list.nodes| && node == list.Ring()[i + 1]
        invariant Shows(kbuf[..], pos, values, i)
        decreases |list.nodes| - i
      {
        assert node == list.nodes[i] && node.entry.value == values[i];
        pos := AppendLine(kbuf, pos, values, i, node.entry.value);
        if pos >= LIST_SIZE {
          assert false;
          break;
        }
        i := i + 1;
        node := list.Follow(node, i);
      }
      AllShown(kbuf[..], pos, values);
      assert kbuf[..][..pos] == kbuf[..pos];
    }

    /** my_ioctl: `k` is the position of the first student the argument denotes. */
    method Ioctl(cmd: nat, arg: ULong) returns (ret: int, ghost k: nat)
      requires Valid()
      modifies list, list.head, list.nodes
      ensures Valid()
      ensures k <= |old(list.Contents())| && forall j :: 0 <= j < k ==> !Denotes(arg, old(list.Contents())[j].id)
      ensures k < |old(list.Contents())| ==> Denotes(arg, old(list.Contents())[k].id)
      ensures ret == if cmd != DELETE_NODE then 2 else if k < |old(list.Contents())| then 0 else 1
      ensures list.Contents()
           == if ret == 0 then old(list.Contents())[..k] + old(list.Contents())[k + 1..] else old(list.Contents())
      ensures forall n :: n in old(list.nodes) ==> (n.freed <==> n !in list.nodes)
    {
      ghost var values := list.Contents();
      k := FirstMatch(values, WithArg(arg));
      ArgDenotes(values, arg);
      if cmd != DELETE_NODE {
        return 2, k;
      }
      var found := list.DeleteFirst(WithArg(arg));
      KeepsStudents(values, WithArg(arg));
      assert forall i :: 0 <= i < |list.nodes| ==> list.nodes[i].entry.value == list.Contents()[i];
      return (if found then 0 else 1), k;
    }

    /** list_exit */
    method Exit()
      requires Valid()
      modifies list, list.head, list.nodes
      ensures Valid() && list.Contents() == []
      ensures forall n :: n in old(list.nodes) ==> n.freed
    {
      list.Drain();
    }
  }

  /** The first `pos` characters of the buffer are as much of the first `k` students, rendered, as can
      fit. */
  ghost predicate Shows(buf: seq<char>, pos: nat, students: seq<Student>, k: nat)
    requires k <= |students|
  {
    && |buf| == LIST_SIZE
    && pos == Min(LIST_SIZE - 1, |Render(students[..k])|)
    && buf[..pos] == Render(students[..k])[..pos]
  }

  lemma AllShown(buf: seq<char>, pos: nat, students: seq<Student>)
    requires Shows(buf, pos, students, |students|)
    ensures pos == Min(LIST_SIZE - 1, |Render(students)|)
    ensures buf[..pos] == Render(students)[..pos]
  {
    assert students[..|students|] == students;
  }

  method AppendLine(kbuf: array<char>, pos: nat, ghost students: seq<Student>, ghost k: nat, s: Student) returns (after: nat)
    requires k < |students| && students[k] == s && Shows(kbuf[..], pos, students, k)
    modifies kbuf
    ensures Shows(kbuf[..], after, students, k + 1)
  {
    var line := Line(s);
    assert kbuf[..][..pos] == kbuf[..pos];
    var n := Scnprintf(kbuf, pos, LIST_SIZE - pos, line);
    after := pos + n;
    assert kbuf[..][..after] == kbuf[..after];
    assert Render(students[..k + 1]) == Render(students[..k]) + line by {
      assert students[..k + 1] == students[..k] + [s];
      RenderAppend(students[..k], s);
    }
    ClampedAppend(Render(students[..k]), line, LIST_SIZE - 1);
  }

  lemma ClampedAppend(a: string, b: string, limit: nat)
    ensures var pos := Min(limit, |a|); var n := Min(|b|, limit - pos);
      && Min(limit, |a + b|) == pos + n
      && (a + b)[..pos + n] == a[..pos] + b[..n]
  {
  }

  /** scnprintf: at most size - 1 characters and a terminator; it returns the characters written. */
  method Scnprintf(buf: array<char>, pos: nat, size: nat, text: string) returns (n: nat)
    requires pos + size <= buf.Length
    modifies buf
    ensures n == if size == 0 then 0 else Min(|text|, size - 1)
    ensures buf[..pos + n] == old(buf[..pos]) + text[..n]
    ensures forall j :: pos + size <= j < buf.Length ==> buf[j] == old(buf[j])
  {
    n := 0;
    if size == 0 {
      return;
    }
    while n < size - 1 && n < |text|
      invariant n <= Min(|text|, size - 1)
      invariant forall j :: 0 <= j < buf.Length && !(pos <= j < pos + n) ==> buf[j] == old(buf[j])
      invariant forall j :: 0 <= j < n ==> buf[pos + j] == text[j]
    {
      buf[pos + n] := text[n];
      n := n + 1;
    }
    buf[pos + n] := '\0';
  }

  lemma {:induction false} KeepsStudents(s: seq<Student>, matches: Student -> bool)
    requires forall i :: 0 <= i < |s| ==> IsStudent(s[i])
    ensures forall i :: 0 <= i < |RemoveFirst(s, matches)| ==> IsStudent(RemoveFirst(s, matches)[i])
  {
    if s != [] && !matches(s[0]) {
      KeepsStudents(s[1..], matches);
    }
  }

  /** The comparison the driver makes is equality modulo 2^64. */
  lemma ArgDenotes(s: seq<Student>, arg: ULong)
    requires forall i :: 0 <= i < |s| ==> IsStudent(s[i])
    ensures forall i :: 0 <= i < |s| ==> (WithArg(arg)(s[i]) <==> Denotes(arg, s[i].id))
  {
    forall i | 0 <= i < |s|
      ensures WithArg(arg)(s[i]) <==> Denotes(arg, s[i].id)
    {
      SignExtends(s[i].id, arg);
    }
  }

  lemma SignExtends(id: int, arg: ULong)
    requires IsInt32(id)
    ensures AsUnsignedLong(id) == arg <==> Denotes(arg, id)
  {
    var d := id - arg;
    if d % 0x1_0000_0000_0000_0000 == 0 {
      assert d == 0 || d == -0x1_0000_0000_0000_0000;
    }
  }

  /** Asked to delete an id, sign-extended to the argument of the ioctl, the driver deletes the first student
      with that id, and nobody if there is none: no other id denotes the same argument. */
  lemma DeletesThatStudent(s: seq<Student>, id: int, arg: ULong, k: nat)
    requires forall i :: 0 <= i < |s| ==> IsStudent(s[i])
    requires IsInt32(id) && Denotes(arg, id)
    requires k <= |s| && (forall j :: 0 <= j < k ==> s[j].id != id) && (k < |s| ==> s[k].id == id)
    ensures RemoveFirst(s, WithArg(arg)) == if k < |s| then s[..k] + s[k + 1..] else s
    ensures forall i :: 0 <= i < |s| ==> (Denotes(arg, s[i].id) <==> s[i].id == id)
  {
    ArgDenotes(s, arg);
    SignExtends(id, arg);
    forall i | 0 <= i < |s|
      ensures Denotes(arg, s[i].id) <==> s[i].id == id
    {
      SignExtends(s[i].id, arg);
    }
    if k < |s| {
      RemoveFirstAt(s, WithArg(arg), k);
    } else {
      RemoveFirstNone(s, WithArg(arg));
    }
  }

  lemma {:induction false} CTextIsAll(text: string)
    requires '\0' !in text
    ensures CText(text) == text
  {
    if text != [] {
      CTextIsAll(text[1..]);
    }
  }

  lemma CommandIsText(s: Student)
    requires IsTypedName(s.name)
    ensures '\0' !in Command(s)
  {
    assert '\0' !in s.name by {
      assert forall i :: 0 <= i < |s.name| ==> s.name[i] != '\0';
    }
    assert '\0' !in Signed(s.id);
  }

  /** What the tool writes to the device is taken by it, and as that very student exactly if the name holds
      no no-break space. */
  lemma ToolAndDriverAgree(s: Student)
    requires IsInt32(s.id) && IsTypedName(s.name)
    ensures |Command(s)| < BUF_SIZE
    ensures Scan(CText(Command(s))) == Some(s) <==> '\U{A0}' !in s.name
  {
    CommandParsesBack(s);
    CommandIsText(s);
    CTextIsAll(Command(s));
  }
}
