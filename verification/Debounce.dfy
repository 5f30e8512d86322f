/** Button debouncing by the tick counter, a 64-bit unsigned long that wraps around. Ticks are counted
    truly here, without bound; the handler sees them modulo 2^64. It reads the counter twice, once for
    the test and once for the record, and a tick may pass in between. */
module Debounce {
  const WORD: nat := 0x1_0000_0000_0000_0000
  const HALF_WORD: nat := 0x8000_0000_0000_0000

  /** time_after(a, b): the difference, as a signed word, is negative. */
  function TimeAfter(a: nat, b: nat): bool {
    (b - a) % WORD >= HALF_WORD
  }

  /** A press: the true tick at which the handler tests, and the one it would record. */
  datatype Press = Press(test: nat, store: nat)

  /** The handler's decision, as it computes it from wrapped counters; `gap` is HZ / 2. */
  predicate Accepts(last: nat, gap: nat, test: nat) {
    TimeAfter(test % WORD, (last % WORD + gap) % WORD)
  }

  class Button {
    const gap: nat
    var lastJiffies: nat
    ghost var last: nat
    ghost var presses: seq<Press>

    /** The recorded tick is that of the last press the handler has accepted, of all there have been. */
    ghost predicate Valid()
      reads this
    {
      lastJiffies == last % WORD && gap < HALF_WORD && last == Recorded(gap, presses)
    }

    constructor (hz: nat)
      requires hz < WORD
      ensures Valid() && last == 0 && gap == hz / 2 && presses == []
    {
      gap := hz / 2;
      lastJiffies, last, presses := 0, 0, [];
    }

    /** button_irq */
    method Irq(press: Press) returns (accepted: bool)
      requires Valid() && last <= press.test <= press.store
      modifies this
      ensures Valid()
      ensures accepted <==> InWindow(old(last), gap, press.test)
      ensures last == if accepted then press.store else old(last)
      ensures presses == old(presses) + [press]
      ensures Accepted(0, gap, presses) == Accepted(0, gap, old(presses)) + (if accepted then [press] else [])
    {
      DecisionIsExact(last, gap, press.test);
      OneMorePress(0, gap, presses, press);
      accepted := TimeAfter(press.test % WORD, (lastJiffies + gap) % WORD);
      if accepted {
        lastJiffies, last := press.store % WORD, press.store;
      }
      presses := presses + [press];
    }
  }

  /** More than `gap` true ticks after the last record, and not in the second half of the wrap-around
      period that starts there. */
  predicate InWindow(last: nat, gap: nat, test: nat) {
    last + gap < test && (test - last - gap - 1) % WORD < HALF_WORD
  }

  lemma ModDifference(a: int, b: int)
    ensures (a % WORD - b % WORD) % WORD == (a - b) % WORD
  {
    var q, r := a / WORD, b / WORD;
    assert a - b == (a % WORD - b % WORD) + (q - r) * WORD;
  }

  lemma ModNegate(d: int)
    ensures (-d) % WORD == WORD - 1 - (d - 1) % WORD
  {
    var q := (d - 1) / WORD;
    assert -d == (WORD - 1 - (d - 1) % WORD) + (-q - 1) * WORD;
  }

  /** What the wrapped comparison decides, for true ticks of any size. */
  lemma DecisionIsExact(last: nat, gap: nat, test: nat)
    requires last <= test && gap < HALF_WORD
    ensures Accepts(last, gap, test) <==> InWindow(last, gap, test)
  {
    var d := test - last - gap;
    Rebase(last, gap, test);
    if d <= 0 {
      assert (-d) % WORD == -d;
    } else {
      ModNegate(d);
    }
  }

  lemma Rebase(last: nat, gap: nat, test: nat)
    ensures ((last % WORD + gap) % WORD - test % WORD) % WORD == (last + gap - test) % WORD
  {
    ModDifference(last % WORD + gap, test);
    var q := last / WORD;
    assert last + gap - test == (last % WORD + gap - test) + q * WORD;
  }

  // ---------------------------------------------------------------- any sequence of presses

  /** True time does not run backwards: neither within a press nor from one to the next. */
  predicate InOrder(from: nat, presses: seq<Press>) {
    && (forall i :: 0 <= i < |presses| ==> from <= presses[i].test <= presses[i].store)
    && (forall i, j :: 0 <= i < j < |presses| ==> presses[i].store <= presses[j].test)
  }

  /** The presses the handler accepts, from a last recorded tick on. */
  function Accepted(last: nat, gap: nat, presses: seq<Press>): seq<Press>
    decreases |presses|
  {
    if presses == [] then []
    else if Accepts(last, gap, presses[0].test) then [presses[0]] + Accepted(presses[0].store, gap, presses[1..])
    else Accepted(last, gap, presses[1..])
  }

  /** The tick the handler has on record, to begin with 0. */
  function Recorded(gap: nat, presses: seq<Press>): nat {
    LastStore(0, Accepted(0, gap, presses))
  }

  function LastStore(last: nat, accepted: seq<Press>): nat {
    if accepted == [] then last else accepted[|accepted| - 1].store
  }

  /** The next press is judged by the last one accepted. */
  lemma {:induction false} OneMorePress(last: nat, gap: nat, presses: seq<Press>, press: Press)
    ensures var before := Accepted(last, gap, presses);
      Accepted(last, gap, presses + [press])
      == before + (if Accepts(LastStore(last, before), gap, press.test) then [press] else [])
    decreases |presses|
  {
    var longer := presses + [press];
    if presses == [] {
      assert longer == [press] && longer[1..] == [];
    } else {
      var p, rest := presses[0], presses[1..];
      assert longer[0] == p && longer[1..] == rest + [press];
      OneMorePress(if Accepts(last, gap, p.test) then p.store else last, gap, rest, press);
    }
  }

  ghost predicate Apart(a: seq<Press>, last: nat, gap: nat) {
    && (forall i :: 0 <= i < |a| ==> last + gap < a[i].test && a[i].test <= a[i].store)
    && (forall i, j :: 0 <= i < j < |a| ==> a[i].store + gap < a[j].test)
  }

  /** Any two accepted presses are more than HZ / 2 true ticks apart, across any number of wrap-arounds. */
  lemma {:induction false} AcceptedAreApart(last: nat, gap: nat, presses: seq<Press>)
    requires gap < HALF_WORD && InOrder(last, presses)
    ensures Apart(Accepted(last, gap, presses), last, gap)
    decreases |presses|
  {
    if presses != [] {
      var p, rest := presses[0], presses[1..];
      assert InOrder(p.store, rest) && InOrder(last, rest);
      DecisionIsExact(last, gap, p.test);
      if Accepts(last, gap, p.test) {
        AcceptedAreApart(p.store, gap, rest);
        var a := Accepted(p.store, gap, rest);
        assert Apart(a, p.store, gap);
        assert Accepted(last, gap, presses) == [p] + a;
      } else {
        AcceptedAreApart(last, gap, rest);
      }
    }
  }

  /** No burst gets through: within any `ticks` ticks at most ticks / (HZ / 2 + 1) + 1 presses are
      accepted. */
  lemma AcceptedAreFew(last: nat, gap: nat, presses: seq<Press>, i: nat, j: nat, ticks: nat)
    requires gap < HALF_WORD && InOrder(last, presses)
    requires i < j <= |Accepted(last, gap, presses)|
    requires Accepted(last, gap, presses)[j - 1].test < Accepted(last, gap, presses)[i].test + ticks
    ensures j - i <= ticks / (gap + 1) + 1
  {
    var a := Accepted(last, gap, presses);
    AcceptedAreApart(last, gap, presses);
    Spread(a, last, gap, i, j - 1);
    DivisionBound(j - 1 - i, gap + 1, ticks);
  }

  lemma {:induction false} Spread(a: seq<Press>, last: nat, gap: nat, i: nat, k: nat)
    requires i <= k < |a|
    requires Apart(a, last, gap)
    ensures (k - i) * (gap + 1) <= a[k].test - a[i].test
    decreases k
  {
    if i < k {
      Spread(a, last, gap, i, k - 1);
      assert (k - i) * (gap + 1) == (k - 1 - i) * (gap + 1) + (gap + 1);
    }
  }

  lemma DivisionBound(n: nat, d: nat, total: nat)
    requires 0 < d && n * d <= total
    ensures n <= total / d
  {
    var q := total / d;
    assert total < (q + 1) * d;
    assert n > q ==> n * d >= (q + 1) * d by {
      MulMonotone(n, q + 1, d);
    }
  }

  lemma MulMonotone(a: nat, b: nat, d: nat)
    ensures a >= b ==> a * d >= b * d
  {
  }
}
