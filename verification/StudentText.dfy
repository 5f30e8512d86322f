/** The text a student record travels as: the userspace tool prints it, the driver parses it back, and
    the driver prints the listing. sscanf, snprintf and scnprintf are taken at their contracts. */
module StudentText {
  import opened DriverBasics

  const MAX_NAME: nat := 31

  datatype Student = Student(id: int, name: string)

  predicate IsDigit(c: char) { '0' <= c <= '9' }

  /** The kernel's isspace: the six ASCII blanks and the no-break space of Latin-1. */
  predicate IsSpace(c: char) {
    c == ' ' || '\t' <= c <= '\r' || c == '\U{A0}'
  }

  predicate IsInt32(i: int) { -0x8000_0000 <= i < 0x8000_0000 }

  /** Non-empty, at most 31 characters, no blank and no terminator. */
  predicate IsName(name: string) {
    1 <= |name| <= MAX_NAME && forall i :: 0 <= i < |name| ==> !IsSpace(name[i]) && name[i] != '\0'
  }

  predicate IsStudent(s: Student) { IsInt32(s.id) && IsName(s.name) }

  /** What the tool's own scanf("%31s") lets through: userspace knows only the six ASCII blanks. */
  predicate IsTypedName(name: string) {
    && 1 <= |name| <= MAX_NAME
    && forall i :: 0 <= i < |name| ==> name[i] != '\0' && name[i] != ' ' && !('\t' <= name[i] <= '\r')
  }

  /** What kernel and userspace disagree on is the no-break space, and nothing else. */
  lemma NamesAgree(name: string)
    ensures IsName(name) <==> IsTypedName(name) && '\U{A0}' !in name
  {
    if IsName(name) {
      assert forall i :: 0 <= i < |name| ==> name[i] != '\U{A0}';
    } else if 1 <= |name| <= MAX_NAME {
      var k :| 0 <= k < |name| && (IsSpace(name[k]) || name[k] == '\0');
    }
  }

  // ---------------------------------------------------------------- printing

  function Digit(d: nat): (c: char)
    requires d < 10
    ensures IsDigit(c)
  {
    '0' + d as char
  }

  function Decimal(n: nat): (s: string)
    ensures s != [] && forall i :: 0 <= i < |s| ==> IsDigit(s[i])
  {
    if n < 10 then [Digit(n)] else Decimal(n / 10) + [Digit(n % 10)]
  }

  /** %d */
  function Signed(i: int): string {
    if i < 0 then "-" + Decimal(-i) else Decimal(i)
  }

  /** The line the userspace tool writes to the device. */
  function Command(s: Student): string {
    Signed(s.id) + " " + s.name
  }

  /** One line of the listing. */
  function Line(s: Student): string {
    Body(s) + "\n"
  }

  function Body(s: Student): string {
    "ID=" + (Signed(s.id) + " " + ("Name=" + s.name))
  }

  function Render(students: seq<Student>): string {
    if students == [] then "" else Line(students[0]) + Render(students[1..])
  }

  // ---------------------------------------------------------------- parsing

  function SkipSpaces(s: string): (r: string)
    ensures r != [] ==> !IsSpace(r[0])
    ensures |r| <= |s|
    ensures '\0' !in s ==> '\0' !in r
  {
    if s != [] && IsSpace(s[0]) then SkipSpaces(s[1..]) else s
  }

  /** The longest prefix of digits. */
  function Digits(s: string): (r: string)
    ensures r <= s && forall i :: 0 <= i < |r| ==> IsDigit(r[i])
  {
    if s != [] && IsDigit(s[0]) then [s[0]] + Digits(s[1..]) else []
  }

  function DigitValue(c: char): nat
    requires IsDigit(c)
  {
    (c - '0') as nat
  }

  function Value(digits: string): nat
    requires forall i :: 0 <= i < |digits| ==> IsDigit(digits[i])
  {
    if digits == [] then 0
    else 10 * Value(digits[..|digits| - 1]) + DigitValue(digits[|digits| - 1])
  }

  /** Storing a parsed number in an int keeps its low 32 bits. */
  function ToInt32(v: int): (i: int)
    ensures IsInt32(i) && (i - v) % 0x1_0000_0000 == 0
    ensures IsInt32(v) ==> i == v
  {
    (v + 0x8000_0000) % 0x1_0000_0000 - 0x8000_0000
  }

  /** An optional minus, at least one digit. */
  function ScanNumber(t: string): (r: Option<(int, string)>)
    ensures r.Some? ==> IsInt32(r.value.0) && |r.value.1| < |t|
    ensures r.Some? && '\0' !in t ==> '\0' !in r.value.1
  {
    var negative := t != [] && t[0] == '-';
    var u := if negative then t[1..] else t;
    var digits := Digits(u);
    if digits == [] then None
    else
      var v: int := Value(digits);
      Some((ToInt32(if negative then -v else v), u[|digits|..]))
  }

  /** %d: a number behind any blanks. */
  function ScanInt(s: string): (r: Option<(int, string)>)
    ensures r.Some? ==> IsInt32(r.value.0) && |r.value.1| < |s|
    ensures r.Some? && '\0' !in s ==> '\0' !in r.value.1
  {
    ScanNumber(SkipSpaces(s))
  }

  /** The longest prefix of at most `width` characters without blanks. */
  function Word(s: string, width: nat): (r: string)
    ensures r <= s && |r| <= width && forall i :: 0 <= i < |r| ==> !IsSpace(r[i])
  {
    if s == [] || width == 0 || IsSpace(s[0]) then [] else [s[0]] + Word(s[1..], width - 1)
  }

  /** sscanf(s, "%d %31s"), given both fields or neither. */
  function Scan(s: string): (r: Option<Student>)
    ensures r.Some? && '\0' !in s ==> IsStudent(r.value)
  {
    match ScanInt(s)
    case None => None
    case Some((id, rest)) =>
      var t := SkipSpaces(rest);
      if t == [] then None else Some(Student(id, Word(t, MAX_NAME)))
  }

  // ---------------------------------------------------------------- the round trip

  lemma {:induction false} ValueOfDecimal(n: nat)
    ensures Value(Decimal(n)) == n
  {
    if n >= 10 {
      ValueOfDecimal(n / 10);
      assert Decimal(n)[..|Decimal(n)| - 1] == Decimal(n / 10);
    } else {
      assert Decimal(n)[..0] == [];
    }
  }

  lemma {:induction false} DigitsStopAtNonDigit(digits: string, rest: string)
    requires forall i :: 0 <= i < |digits| ==> IsDigit(digits[i])
    requires rest == [] || !IsDigit(rest[0])
    ensures Digits(digits + rest) == digits
  {
    if digits == [] {
      assert digits + rest == rest;
    } else {
      DigitsStopAtNonDigit(digits[1..], rest);
      assert (digits + rest)[1..] == digits[1..] + rest;
    }
  }

  /** The sign test of the parser undoes the sign of the printer. */
  lemma SignSplits(id: int, rest: string)
    ensures var text := Signed(id) + rest;
      && text != [] && !IsSpace(text[0]) && (text[0] == '-' <==> id < 0)
      && (id < 0 ==> text[1..] == Decimal(-id) + rest)
      && (id >= 0 ==> text == Decimal(id) + rest)
  {
  }

  lemma ScanSigned(id: int, rest: string)
    requires IsInt32(id) && (rest == [] || !IsDigit(rest[0]))
    ensures ScanInt(Signed(id) + rest) == Some((id, rest))
  {
    var n: nat := if id < 0 then -id else id;
    var digits := Decimal(n);
    var text := Signed(id) + rest;
    SignSplits(id, rest);
    assert SkipSpaces(text) == text;
    var u := if id < 0 then text[1..] else text;
    assert u == digits + rest;
    DigitsStopAtNonDigit(digits, rest);
    assert Value(digits) == n by {
      ValueOfDecimal(n);
    }
    assert u[|digits|..] == rest;
  }

  /** Whatever id and name were typed into the tool, the command it prints fits the driver's buffer; it
      parses back to that very student exactly when the name holds no no-break space, the one
      character that is a blank to the kernel only. */
  lemma CommandParsesBack(s: Student)
    requires IsInt32(s.id) && IsTypedName(s.name)
    ensures |Command(s)| < 128
    ensures Scan(Command(s)) == Some(s) <==> '\U{A0}' !in s.name
  {
    SignedIsShort(s.id);
    NamesAgree(s.name);
    if '\U{A0}' !in s.name {
      StudentParsesBack(s);
    } else {
      assert '\0' !in Signed(s.id);
    }
  }

  lemma {:induction false} OnlyBlanksAreSkipped(s: string)
    ensures SkipSpaces(s) == s[|s| - |SkipSpaces(s)|..]
    ensures forall i :: 0 <= i < |s| - |SkipSpaces(s)| ==> IsSpace(s[i])
  {
    if s != [] && IsSpace(s[0]) {
      OnlyBlanksAreSkipped(s[1..]);
      assert forall i :: 0 < i < |s| ==> s[i] == s[1..][i - 1];
    }
  }

  predicate Blank(s: string) {
    forall i :: 0 <= i < |s| ==> IsSpace(s[i])
  }

  lemma {:induction false} BlanksAreSkipped(blanks: string, rest: string)
    requires Blank(blanks)
    ensures SkipSpaces(blanks + rest) == SkipSpaces(rest)
  {
    if blanks == [] {
      assert blanks + rest == rest;
    } else {
      assert (blanks + rest)[1..] == blanks[1..] + rest;
      BlanksAreSkipped(blanks[1..], rest);
    }
  }

  lemma {:induction false} WordEnds(name: string, tail: string, width: nat)
    requires |name| <= width && forall i :: 0 <= i < |name| ==> !IsSpace(name[i])
    requires tail == [] || IsSpace(tail[0]) || |name| == width
    ensures Word(name + tail, width) == name
  {
    if name == [] {
      assert name + tail == tail;
    } else {
      assert (name + tail)[1..] == name[1..] + tail;
      WordEnds(name[1..], tail, width - 1);
    }
  }

  lemma ScanCombines(text: string, id: int, rest: string, word: string)
    requires ScanInt(text) == Some((id, rest)) && SkipSpaces(rest) == word && word != []
    ensures Scan(text) == Some(Student(id, Word(word, MAX_NAME)))
  {
  }

  lemma NothingSkipped(name: string, tail: string)
    requires name != [] && !IsSpace(name[0])
    ensures SkipSpaces(name + tail) == name + tail
  {
  }

  lemma SameScan(s: string, t: string)
    requires SkipSpaces(s) == SkipSpaces(t)
    ensures ScanInt(s) == ScanInt(t)
  {
  }

  lemma IntFound(before: string, id: int, rest: string)
    requires Blank(before) && IsInt32(id) && rest != [] && !IsDigit(rest[0])
    ensures ScanInt(before + (Signed(id) + rest)) == Some((id, rest))
  {
    var text := Signed(id) + rest;
    ScanSigned(id, rest);
    BlanksAreSkipped(before, text);
    SameScan(before + text, text);
  }

  lemma WordFound(between: string, name: string, tail: string)
    requires IsName(name) && Blank(between) && (tail == [] || IsSpace(tail[0]) || |name| == MAX_NAME)
    ensures SkipSpaces(between + (name + tail)) == name + tail
    ensures Word(name + tail, MAX_NAME) == name
  {
    BlanksAreSkipped(between, name + tail);
    NothingSkipped(name, tail);
    WordEnds(name, tail, MAX_NAME);
  }

  /** The parser takes the two fields wherever they stand: blanks before and between them do not matter, nor
      does what follows the name after a blank or beyond its 31st character. */
  lemma FieldsAreTaken(before: string, s: Student, between: string, tail: string)
    requires IsStudent(s) && Blank(before) && Blank(between) && between != []
    requires tail == [] || IsSpace(tail[0]) || |s.name| == MAX_NAME
    ensures Scan(before + (Signed(s.id) + (between + (s.name + tail)))) == Some(s)
  {
    var rest := between + (s.name + tail);
    assert rest != [] && rest[0] == between[0];
    IntFound(before, s.id, rest);
    WordFound(between, s.name, tail);
    ScanCombines(before + (Signed(s.id) + rest), s.id, rest, s.name + tail);
  }

  lemma StudentParsesBack(s: Student)
    requires IsStudent(s)
    ensures Scan(Command(s)) == Some(s)
  {
    FieldsAreTaken("", s, " ", "");
    assert "" + (Signed(s.id) + (" " + (s.name + ""))) == Command(s);
  }

  lemma SignedIsShort(i: int)
    requires IsInt32(i)
    ensures |Signed(i)| <= 11
  {
    DecimalIsShort(if i < 0 then -i else i, 10);
  }

  function Power10(k: nat): nat {
    if k == 0 then 1 else 10 * Power10(k - 1)
  }

  lemma {:induction false} DecimalIsShort(n: nat, k: nat)
    requires 1 <= k && n < Power10(k)
    ensures |Decimal(n)| <= k
  {
    if n >= 10 {
      DecimalIsShort(n / 10, k - 1);
    }
  }

  // ---------------------------------------------------------------- the listing tells students apart

  predicate FirstAt(s: string, c: char, k: nat) {
    k < |s| && s[k] == c && forall i :: 0 <= i < k ==> s[i] != c
  }

  lemma SplitAtFirst(a: string, b: string, x: string, y: string, c: char)
    requires c !in a && c !in b && a + [c] + x == b + [c] + y
    ensures a == b && x == y
  {
    var s := a + [c] + x;
    assert FirstAt(s, c, |a|) && FirstAt(b + [c] + y, c, |b|);
    assert |a| == |b|;
    assert a == s[..|a|] && b == (b + [c] + y)[..|b|];
    assert x == s[|a| + 1..] && y == (b + [c] + y)[|b| + 1..];
  }

  lemma SignedIsInjective(i: int, j: int)
    requires Signed(i) == Signed(j)
    ensures i == j
  {
    SignSplits(i, "");
    SignSplits(j, "");
    ValueOfDecimal(if i < 0 then -i else i);
    ValueOfDecimal(if j < 0 then -j else j);
    assert Signed(i) + "" == Signed(i);
    if i < 0 {
      assert Decimal(-i) + "" == Decimal(-i) && Decimal(-j) + "" == Decimal(-j);
    } else {
      assert Decimal(i) + "" == Decimal(i) && Decimal(j) + "" == Decimal(j);
    }
  }

  lemma BodyIsInjective(s: Student, t: Student)
    requires Body(s) == Body(t)
    ensures s == t
  {
    assert Body(s)[3..] == Signed(s.id) + " " + ("Name=" + s.name);
    assert Body(t)[3..] == Signed(t.id) + " " + ("Name=" + t.name);
    SplitAtFirst(Signed(s.id), Signed(t.id), "Name=" + s.name, "Name=" + t.name, ' ');
    SignedIsInjective(s.id, t.id);
    assert ("Name=" + s.name)[5..] == s.name && ("Name=" + t.name)[5..] == t.name;
  }

  // ---------------------------------------------------------------- the listing can be read back

  function UpToNewline(s: string): (r: string)
    ensures r <= s && '\n' !in r && (|r| < |s| ==> s[|r|] == '\n')
  {
    if s == [] || s[0] == '\n' then [] else [s[0]] + UpToNewline(s[1..])
  }

  /** What a reader makes of one line: an id, read as the driver itself reads ids, and a name up to the end
      of the line. */
  function ReadLine(text: string): (r: Option<(Student, string)>)
    ensures r.Some? ==> |r.value.1| < |text|
  {
    if !("ID=" <= text) then None
    else
      match ScanInt(text[3..])
      case None => None
      case Some((id, tail)) => ReadName(id, tail)
  }

  function ReadName(id: int, tail: string): (r: Option<(Student, string)>)
    ensures r.Some? ==> |r.value.1| < |tail|
  {
    if !(" Name=" <= tail) then None
    else
      var name := UpToNewline(tail[6..]);
      if 6 + |name| == |tail| then None else Some((Student(id, name), tail[7 + |name|..]))
  }

  function ReadListing(text: string): Option<seq<Student>>
    decreases |text|
  {
    if text == [] then Some([])
    else
      match ReadLine(text)
      case None => None
      case Some((s, rest)) =>
        match ReadListing(rest)
        case None => None
        case Some(more) => Some([s] + more)
  }

  lemma {:induction false} NewlineEnds(name: string, rest: string)
    requires '\n' !in name
    ensures UpToNewline(name + "\n" + rest) == name
  {
    if name != [] {
      assert (name + "\n" + rest)[1..] == name[1..] + "\n" + rest;
      NewlineEnds(name[1..], rest);
    }
  }

  lemma LineScans(s: Student, rest: string)
    requires IsStudent(s)
    ensures var text := Line(s) + rest;
      "ID=" <= text && ScanInt(text[3..]) == Some((s.id, " Name=" + (s.name + "\n" + rest)))
  {
    var text := Line(s) + rest;
    var tail := " Name=" + (s.name + "\n" + rest);
    assert text == "ID=" + (Signed(s.id) + tail);
    assert text[3..] == Signed(s.id) + tail;
    assert tail[0] == ' ';
    ScanSigned(s.id, tail);
  }

  lemma NameFollows(s: Student, rest: string)
    requires IsStudent(s)
    ensures ReadName(s.id, " Name=" + (s.name + "\n" + rest)) == Some((s, rest))
  {
    var tail := " Name=" + (s.name + "\n" + rest);
    assert " Name=" <= tail && tail[6..] == s.name + "\n" + rest;
    NameIsOneLine(s);
    NewlineEnds(s.name, rest);
    assert tail[7 + |s.name|..] == rest;
  }

  lemma NameIsOneLine(s: Student)
    requires IsStudent(s)
    ensures '\n' !in s.name
  {
    assert forall i :: 0 <= i < |s.name| ==> !IsSpace(s.name[i]);
  }

  lemma OneMoreLine(s: Student, rest: string)
    requires IsStudent(s)
    ensures ReadLine(Line(s) + rest) == Some((s, rest))
  {
    LineScans(s, rest);
    NameFollows(s, rest);
  }

  lemma ReadingGoesOn(text: string, s: Student, rest: string, more: seq<Student>)
    requires ReadLine(text) == Some((s, rest)) && ReadListing(rest) == Some(more)
    ensures ReadListing(text) == Some([s] + more)
  {
  }

  /** Reading an untruncated listing gives exactly the students listed, in their order. */
  lemma {:induction false} ListingReadsBack(students: seq<Student>)
    requires forall i :: 0 <= i < |students| ==> IsStudent(students[i])
    ensures ReadListing(Render(students)) == Some(students)
  {
    if students != [] {
      ListingReadsBack(students[1..]);
      OneMoreLine(students[0], Render(students[1..]));
      ReadingGoesOn(Render(students), students[0], Render(students[1..]), students[1..]);
      assert students == [students[0]] + students[1..];
    }
  }

  /** So two different lists of students never render the same. */
  lemma RenderIsInjective(a: seq<Student>, b: seq<Student>)
    requires forall i :: 0 <= i < |a| ==> IsStudent(a[i])
    requires forall i :: 0 <= i < |b| ==> IsStudent(b[i])
    requires Render(a) == Render(b)
    ensures a == b
  {
    ListingReadsBack(a);
    ListingReadsBack(b);
  }

  lemma {:induction false} RenderAppend(a: seq<Student>, s: Student)
    ensures Render(a + [s]) == Render(a) + Line(s)
  {
    if a != [] {
      assert (a + [s])[1..] == a[1..] + [s];
      RenderAppend(a[1..], s);
    }
  }
}
