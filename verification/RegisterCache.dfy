/** A register map with a cache, over a chip that loses its registers when it loses power, and the
    driver's suspend and resume calls. What the cache calls do is taken from the repository's notes on
    them: a write goes to the cache and, unless the map is cache-only, to the chip; a read is answered
    from the cache, or else read from the chip and cached; a sync of a dirty map rewrites every cached
    register, in ascending order, and stops at the first bus error. */
module RegisterCache {
  import opened DriverBasics

  const MAX_REGISTER: nat := 0x7F
  const NUM_REGS: nat := MAX_REGISTER + 1
  const MPU_WHO_AM_I: nat := 0x75
  const MPU_PWR_MGMT1: nat := 0x6B

  /** The map as a value: cache, its two modes, and the chip's registers. */
  datatype Regs = Regs(cache: map<nat, Byte>, cacheOnly: bool, dirty: bool, chip: seq<Byte>) {
    predicate Valid() {
      |chip| == NUM_REGS && forall reg :: reg in cache ==> reg < NUM_REGS
    }
  }

  datatype Outcome = Done(value: Byte) | Error(code: int)

  /** regmap_read; `bus` tells whether a bus transfer, if one is needed, goes through. */
  function ReadReg(r: Regs, reg: nat, bus: bool): (Regs, Outcome)
    requires r.Valid()
  {
    if reg > MAX_REGISTER then (r, Error(-EIO))
    else if reg in r.cache then (r, Done(r.cache[reg]))
    else if r.cacheOnly then (r, Error(-EBUSY))
    else if !bus then (r, Error(-EIO))
    else (r.(cache := r.cache[reg := r.chip[reg]]), Done(r.chip[reg]))
  }

  /** regmap_write: the cache first, so a bus error leaves the new value cached. */
  function WriteReg(r: Regs, reg: nat, value: Byte, bus: bool): (Regs, int)
    requires r.Valid()
  {
    if reg > MAX_REGISTER then (r, -EIO)
    else
      var c := r.(cache := r.cache[reg := value]);
      if r.cacheOnly then (c.(dirty := true), 0)
      else if bus then (c.(chip := r.chip[reg := value]), 0)
      else (c, -EIO)
  }

  /** The chip once the cached registers below `upTo` have been rewritten. */
  function Restored(cache: map<nat, Byte>, chip: seq<Byte>, upTo: nat): (r: seq<Byte>)
    ensures |r| == |chip|
  {
    seq(|chip|, reg requires 0 <= reg < |chip| => if reg < upTo && reg in cache then cache[reg] else chip[reg])
  }

  /** How many bus writes it takes to rewrite the cached registers below `upTo`. */
  function Writes(cache: map<nat, Byte>, upTo: nat): nat {
    if upTo == 0 then 0 else Writes(cache, upTo - 1) + (if upTo - 1 in cache then 1 else 0)
  }

  lemma {:induction false} WritesGrow(cache: map<nat, Byte>, i: nat, j: nat)
    requires i <= j
    ensures Writes(cache, i) <= Writes(cache, j)
  {
    if i < j {
      WritesGrow(cache, i, j - 1);
    }
  }

  class Regmap {
    var cache: map<nat, Byte>
    var cacheOnly: bool
    var dirty: bool
    const chip: array<Byte>

    ghost function Value(): Regs
      reads this, chip
    {
      Regs(cache, cacheOnly, dirty, chip[..])
    }

    constructor (chip: array<Byte>)
      requires chip.Length == NUM_REGS
      ensures Value() == Regs(map[], false, false, chip[..]) && this.chip == chip
    {
      this.chip := chip;
      cache, cacheOnly, dirty := map[], false, false;
    }

    /** regmap_read */
    method Read(reg: nat, bus: bool) returns (o: Outcome)
      requires Value().Valid()
      modifies this
      ensures (Value(), o) == ReadReg(old(Value()), reg, bus)
      ensures reg in old(cache) && reg <= MAX_REGISTER ==> o == Done(old(cache)[reg])
      ensures reg !in old(cache) && reg <= MAX_REGISTER ==>
        o == if cacheOnly then Error(-EBUSY) else if bus then Done(chip[reg]) else Error(-EIO)
      ensures reg > MAX_REGISTER ==> o == Error(-EIO)
      ensures cache == if o.Done? then old(cache)[reg := o.value] else old(cache)
    {
      if reg > MAX_REGISTER {
        return Error(-EIO);
      }
      if reg in cache {
        return Done(cache[reg]);
      }
      if cacheOnly {
        return Error(-EBUSY);
      }
      if !bus {
        return Error(-EIO);
      }
      cache := cache[reg := chip[reg]];
      return Done(chip[reg]);
    }

    /** regmap_write */
    method Write(reg: nat, value: Byte, bus: bool) returns (ret: int)
      requires Value().Valid()
      modifies this, chip
      ensures (Value(), ret) == WriteReg(old(Value()), reg, value, bus)
      ensures ret == if reg <= MAX_REGISTER && (cacheOnly || bus) then 0 else -EIO
      ensures cache == if reg <= MAX_REGISTER then old(cache)[reg := value] else old(cache)
      ensures chip[..] == if ret == 0 && !cacheOnly then old(chip[..])[reg := value] else old(chip[..])
      ensures ret == 0 && cacheOnly ==> dirty
    {
      if reg > MAX_REGISTER {
        return -EIO;
      }
      cache := cache[reg := value];
      if cacheOnly {
        dirty := true;
        return 0;
      }
      if !bus {
        return -EIO;
      }
      chip[reg] := value;
      return 0;
    }

    /** regcache_sync: `transfers` bus writes go through before the bus fails. */
    method Sync(transfers: nat) returns (ret: int, ghost upTo: nat)
      requires Value().Valid()
      modifies this, chip
      ensures Value() == SyncTo(old(Value()), upTo)
      ensures ret == if old(dirty) && Writes(cache, chip.Length) > transfers then -EIO else 0
      ensures if ret == 0 then upTo == NUM_REGS else upTo < NUM_REGS && upTo in cache && Writes(cache, upTo) == transfers
    {
      if !dirty {
        upTo := NUM_REGS;
        return 0, upTo;
      }
      var left: nat := transfers;
      var reg := 0;
      ghost var before := chip[..];
      while reg < NUM_REGS
        invariant 0 <= reg <= NUM_REGS
        invariant chip[..] == Restored(cache, before, reg)
        invariant cache == old(cache) && cacheOnly == old(cacheOnly) && dirty
        invariant left + Writes(cache, reg) == transfers
      {
        if reg in cache {
          if left == 0 {
            WritesGrow(cache, reg + 1, chip.Length);
            return -EIO, reg;
          }
          chip[reg] := cache[reg];
          left := left - 1;
        }
        assert chip[..] == Restored(cache, before, reg + 1);
        reg := reg + 1;
      }
      dirty := false;
      return 0, reg;
    }

    /** mpu_suspend */
    method Suspend() returns (ret: int)
      modifies this
      ensures ret == 0 && Value() == old(Value()).(cacheOnly := true)
    {
      cacheOnly := true;
      return 0;
    }

    /** mpu_resume: back on the bus, distrust the chip, rewrite it. */
    method Resume(transfers: nat) returns (ret: int, ghost upTo: nat)
      requires Value().Valid()
      modifies this, chip
      ensures Value() == SyncTo(old(Value()).(cacheOnly := false, dirty := true), upTo)
      ensures ret == if Writes(cache, chip.Length) > transfers then -EIO else 0
      ensures if ret == 0 then upTo == NUM_REGS else upTo < NUM_REGS && Writes(cache, upTo) == transfers
      ensures ret == 0 ==> !dirty && !cacheOnly && forall reg :: reg in cache ==> chip[reg] == cache[reg]
    {
      cacheOnly := false;
      dirty := true;
      ret, upTo := Sync(transfers);
      forall reg | reg in cache && ret == 0
        ensures chip[reg] == cache[reg]
      {
        assert Value().chip[reg] == chip[reg];
      }
    }

    /** The register accesses of the probe, in order, on the map it has just set up; each may fail on the
        bus. The last read, meant to verify the write, is answered from the cache: its bus outcome does
        not matter. */
    method Probe(bus: seq<bool>) returns (ret: int)
      requires Value().Valid() && cache == map[] && !cacheOnly && !dirty && |bus| == 4
      modifies this, chip
      ensures ret == if !bus[0] then -EIO
        else if old(chip[MPU_WHO_AM_I]) !in {0x70, 0x71} then -ENODEV
        else if !bus[1] || !bus[2] then -EIO
        else 0
      ensures chip[..] == if ret == 0 then old(chip[..])[MPU_PWR_MGMT1 := 1] else old(chip[..])
      ensures ret == 0 ==> cache == map[MPU_WHO_AM_I := chip[MPU_WHO_AM_I], MPU_PWR_MGMT1 := 1]
      ensures !cacheOnly && !dirty
    {
      var id := Read(MPU_WHO_AM_I, bus[0]);
      if id.Error? {
        return id.code;
      }
      if id.value != 0x70 && id.value != 0x71 {
        return -ENODEV;
      }
      var power := Read(MPU_PWR_MGMT1, bus[1]);
      if power.Error? {
        return power.code;
      }
      ret := Write(MPU_PWR_MGMT1, 1, bus[2]);
      if ret != 0 {
        return;
      }
      var check := Read(MPU_PWR_MGMT1, bus[3]);
      if check.Error? {
        assert false;
        return -EIO;
      }
      return 0;
    }
  }

  /** A sync that got as far as `upTo`: a clean map is left alone, a complete sync cleans the map. */
  function SyncTo(r: Regs, upTo: nat): Regs
    requires r.Valid()
  {
    if !r.dirty then r
    else r.(chip := Restored(r.cache, r.chip, upTo), dirty := upTo < NUM_REGS)
  }

  // ---------------------------------------------------------------- runs across power losses

  /** Where the power cycle stands: the two middle phases lie between the calls of the resume. */
  datatype Phase = Awake | Suspended | BusBack | Distrusted

  /** Besides the map: `ref`, a register file that sees the same writes and never loses power; `lost`,
      whether the chip ever lost power; `stale`, the registers whose cached value was first read from
      the chip after a power loss and has not been written since; what the last step read; and
      whether it was a sync that returned 0. */
  datatype State = State(regs: Regs, phase: Phase, ref: seq<Byte>, lost: bool, stale: set<nat>,
                         lastRead: Option<(nat, Byte)>, synced: bool)

  datatype Choice =
    | Read(reg: nat, bus: bool)
    | Write(reg: nat, value: Byte, bus: bool)
    | Suspend
    | LosePower
    | EnableBus
    | MarkDirty
    | Sync(upTo: nat)

  function Init(chip: seq<Byte>): State {
    State(Regs(map[], false, false, chip), Awake, chip, false, {}, None, false)
  }

  /** The chip comes up with the registers `reset` when power returns. */
  function Step(s: State, reset: seq<Byte>, choice: Choice): State
    requires s.regs.Valid() && |s.ref| == NUM_REGS
  {
    var q := s.(lastRead := None, synced := false);
    match choice
    case Read(reg, bus) =>
      var (regs, o) := ReadReg(s.regs, reg, bus);
      if o.Done? then
        q.(regs := regs, lastRead := Some((reg, o.value)),
           stale := if s.lost && reg !in s.regs.cache then s.stale + {reg} else s.stale)
      else q
    case Write(reg, value, bus) =>
      if reg > MAX_REGISTER then q
      else q.(regs := WriteReg(s.regs, reg, value, bus).0, ref := s.ref[reg := value], stale := s.stale - {reg})
    case Suspend =>
      if s.phase.Awake? then q.(regs := s.regs.(cacheOnly := true), phase := Suspended) else q
    case LosePower =>
      if s.phase.Suspended? then q.(regs := s.regs.(chip := reset), lost := true) else q
    case EnableBus =>
      if s.phase.Suspended? then q.(regs := s.regs.(cacheOnly := false), phase := BusBack) else q
    case MarkDirty =>
      if s.phase.BusBack? then q.(regs := s.regs.(dirty := true), phase := Distrusted) else q
    case Sync(upTo) =>
      if s.phase.Distrusted? then
        q.(regs := SyncTo(s.regs, upTo), phase := Awake, synced := upTo >= NUM_REGS)
      else q
  }

  ghost predicate Next(reset: seq<Byte>, s: State, t: State) {
    s.regs.Valid() && |s.ref| == NUM_REGS && exists choice :: t == Step(s, reset, choice)
  }

  /** A run, from a chip holding `chip`, with `reset` as its power-on values. */
  ghost predicate IsRun(chip: seq<Byte>, reset: seq<Byte>, run: seq<State>) {
    && |chip| == |reset| == NUM_REGS
    && run != [] && run[0] == Init(chip)
    && forall k :: 0 < k < |run| ==> Next(reset, run[k - 1], run[k])
  }

  /** What a cached register is worth. */
  ghost predicate CachedOk(s: State, chip: seq<Byte>, reset: seq<Byte>, reg: nat)
    requires s.regs.Valid() && |s.ref| == |chip| == |reset| == NUM_REGS && reg < NUM_REGS
  {
    if reg !in s.regs.cache then
      && reg !in s.stale && s.ref[reg] == chip[reg]
      && s.regs.chip[reg] == if s.lost then reset[reg] else chip[reg]
    else if reg in s.stale then
      s.ref[reg] == chip[reg] && s.regs.cache[reg] == reset[reg]
    else
      s.regs.cache[reg] == s.ref[reg]
  }

  ghost predicate Inv(s: State, chip: seq<Byte>, reset: seq<Byte>) {
    && s.regs.Valid() && |s.ref| == |chip| == |reset| == NUM_REGS
    && (forall reg :: 0 <= reg < NUM_REGS ==> CachedOk(s, chip, reset, reg))
    && (s.phase.Suspended? <==> s.regs.cacheOnly)
    && (s.phase.Distrusted? ==> s.regs.dirty)
    && (s.lastRead.Some? ==> var (reg, v) := s.lastRead.value; reg in s.regs.cache && s.regs.cache[reg] == v)
    && (s.synced ==> !s.regs.dirty && forall reg :: reg in s.regs.cache ==> s.regs.chip[reg] == s.regs.cache[reg])
  }

  lemma StepKeepsInv(s: State, chip: seq<Byte>, reset: seq<Byte>, choice: Choice)
    requires Inv(s, chip, reset)
    ensures Inv(Step(s, reset, choice), chip, reset)
  {
    StepKeepsShape(s, reset, choice);
    forall reg | 0 <= reg < NUM_REGS
      ensures CachedOk(Step(s, reset, choice), chip, reset, reg)
    {
      StepKeepsCached(s, chip, reset, choice, reg);
    }
  }

  lemma StepKeepsShape(s: State, reset: seq<Byte>, choice: Choice)
    requires s.regs.Valid() && |s.ref| == |reset| == NUM_REGS
    requires (s.phase.Suspended? <==> s.regs.cacheOnly) && (s.phase.Distrusted? ==> s.regs.dirty)
    ensures var t := Step(s, reset, choice);
      && t.regs.Valid() && |t.ref| == NUM_REGS
      && (t.phase.Suspended? <==> t.regs.cacheOnly) && (t.phase.Distrusted? ==> t.regs.dirty)
      && (t.lastRead.Some? ==> var (reg, v) := t.lastRead.value; reg in t.regs.cache && t.regs.cache[reg] == v)
      && (t.synced ==> !t.regs.dirty && forall reg :: reg in t.regs.cache ==> t.regs.chip[reg] == t.regs.cache[reg])
  {
  }

  lemma StepKeepsCached(s: State, chip: seq<Byte>, reset: seq<Byte>, choice: Choice, reg: nat)
    requires s.regs.Valid() && |s.ref| == |chip| == |reset| == NUM_REGS && reg < NUM_REGS
    requires CachedOk(s, chip, reset, reg)
    requires Step(s, reset, choice).regs.Valid() && |Step(s, reset, choice).ref| == NUM_REGS
    ensures CachedOk(Step(s, reset, choice), chip, reset, reg)
  {
  }

  lemma {:induction false} EveryStateOfARun(chip: seq<Byte>, reset: seq<Byte>, run: seq<State>, k: nat)
    requires IsRun(chip, reset, run) && k < |run|
    ensures Inv(run[k], chip, reset)
  {
    if k > 0 {
      EveryStateOfARun(chip, reset, run, k - 1);
      assert Next(reset, run[k - 1], run[k]);
      var choice :| run[k] == Step(run[k - 1], reset, choice);
      StepKeepsInv(run[k - 1], chip, reset, choice);
    }
  }

  /** Step j of the run is contact that counts: an access to the register before the chip ever lost power
      has left it cached, or it has just been written. */
  ghost predicate Contacted(reset: seq<Byte>, run: seq<State>, j: nat, reg: nat)
    requires j < |run|
  {
    (!run[j].lost && reg in run[j].regs.cache) || (0 < j && Wrote(reset, run[j - 1], run[j], reg))
  }

  ghost predicate Wrote(reset: seq<Byte>, s: State, t: State, reg: nat) {
    && s.regs.Valid() && |s.ref| == NUM_REGS && reg <= MAX_REGISTER
    && exists value: Byte, bus: bool :: t == Step(s, reset, Write(reg, value, bus))
  }

  ghost predicate EverContacted(reset: seq<Byte>, run: seq<State>, k: nat, reg: nat)
    requires k < |run|
  {
    exists j :: 0 <= j <= k && Contacted(reset, run, j, reg)
  }

  lemma NoStaleBeforeLoss(reset: seq<Byte>, s: State, t: State)
    requires Next(reset, s, t) && (!s.lost ==> s.stale == {})
    ensures !t.lost ==> t.stale == {}
  {
  }

  lemma StaysFresh(reset: seq<Byte>, s: State, t: State, reg: nat)
    requires Next(reset, s, t) && reg in s.regs.cache && reg !in s.stale
    ensures reg in t.regs.cache && reg !in t.stale
  {
  }

  lemma WriteMakesFresh(reset: seq<Byte>, s: State, t: State, reg: nat)
    requires Wrote(reset, s, t, reg)
    ensures reg in t.regs.cache && reg !in t.stale
  {
  }

  /** A register comes into the cache, and a cached one becomes fresh, by contact that counts or, stale,
      by a read after a power loss. */
  lemma FreshByContact(reset: seq<Byte>, s: State, t: State, reg: nat)
    requires Next(reset, s, t) && (reg in s.regs.cache ==> reg in s.stale)
    requires reg in t.regs.cache && reg !in t.stale
    ensures !t.lost || Wrote(reset, s, t, reg)
  {
    var choice :| t == Step(s, reset, choice);
    if choice.Write? && t.lost {
      assert t == Step(s, reset, Write(reg, choice.value, choice.bus));
    }
  }

  lemma {:induction false} NothingStaleBeforeLoss(chip: seq<Byte>, reset: seq<Byte>, run: seq<State>, k: nat)
    requires IsRun(chip, reset, run) && k < |run|
    ensures !run[k].lost ==> run[k].stale == {}
  {
    if k > 0 {
      NothingStaleBeforeLoss(chip, reset, run, k - 1);
      assert Next(reset, run[k - 1], run[k]);
      NoStaleBeforeLoss(reset, run[k - 1], run[k]);
    }
  }

  /** What makes a cached register stale, in terms of what was done to it: that it was neither accessed
      before the first power loss nor written since. */
  lemma {:induction false} StaleMeansNoContact(chip: seq<Byte>, reset: seq<Byte>, run: seq<State>, k: nat, reg: nat)
    requires IsRun(chip, reset, run) && k < |run|
    ensures reg in run[k].regs.cache && reg !in run[k].stale <==> EverContacted(reset, run, k, reg)
  {
    NothingStaleBeforeLoss(chip, reset, run, k);
    if Contacted(reset, run, k, reg) {
      if 0 < k && Wrote(reset, run[k - 1], run[k], reg) {
        WriteMakesFresh(reset, run[k - 1], run[k], reg);
      }
    } else if k > 0 {
      StaleMeansNoContact(chip, reset, run, k - 1, reg);
      assert Next(reset, run[k - 1], run[k]);
      if EverContacted(reset, run, k - 1, reg) {
        StaysFresh(reset, run[k - 1], run[k], reg);
      } else if reg in run[k].regs.cache && reg !in run[k].stale {
        FreshByContact(reset, run[k - 1], run[k], reg);
      }
    }
  }

  /** Power losses are invisible, between the resume calls as much as before and after, and whatever
      transfers fail: a successful read of a register that was accessed before the first power loss, or
      ever written, returns what a register file that never lost power would return. Any other register
      does so exactly if the chip powers up with the value it had. */
  lemma ReadsSeeNoPowerLoss(chip: seq<Byte>, reset: seq<Byte>, run: seq<State>, k: nat)
    requires IsRun(chip, reset, run) && k < |run| && run[k].lastRead.Some?
    ensures var (reg, v) := run[k].lastRead.value;
      && reg < NUM_REGS && |run[k].ref| == NUM_REGS
      && (v == run[k].ref[reg] <==> EverContacted(reset, run, k, reg) || reset[reg] == chip[reg])
  {
    EveryStateOfARun(chip, reset, run, k);
    var reg := run[k].lastRead.value.0;
    assert CachedOk(run[k], chip, reset, reg);
    StaleMeansNoContact(chip, reset, run, k, reg);
  }

  /** In particular: once accessed before the first power loss, or written, a register shows no loss ever
      after. */
  lemma EarlyContactIsEnough(chip: seq<Byte>, reset: seq<Byte>, run: seq<State>, j: nat, k: nat, reg: nat, v: Byte)
    requires IsRun(chip, reset, run) && j <= k < |run|
    requires Contacted(reset, run, j, reg)
    requires run[k].lastRead == Some((reg, v))
    ensures reg < |run[k].ref| && v == run[k].ref[reg]
  {
    ReadsSeeNoPowerLoss(chip, reset, run, k);
    assert EverContacted(reset, run, k, reg);
  }

  /** After a resume that returns 0 the chip agrees with the cache on every cached register, and with the
      register file that never lost power on every one accessed before the first loss or written. */
  lemma ResumeRestoresChip(chip: seq<Byte>, reset: seq<Byte>, run: seq<State>, k: nat, reg: nat)
    requires IsRun(chip, reset, run) && k < |run| && run[k].synced
    requires reg in run[k].regs.cache
    ensures reg < |run[k].regs.chip| && run[k].regs.chip[reg] == run[k].regs.cache[reg]
    ensures reg < |run[k].ref| && (EverContacted(reset, run, k, reg) ==> run[k].regs.chip[reg] == run[k].ref[reg])
  {
    EveryStateOfARun(chip, reset, run, k);
    assert CachedOk(run[k], chip, reset, reg);
    StaleMeansNoContact(chip, reset, run, k, reg);
  }

  // ---------------------------------------------------------------- from the choices of the caller

  /** A run and the choices that lead through it. */
  ghost predicate Chosen(chip: seq<Byte>, reset: seq<Byte>, run: seq<State>, choices: seq<Choice>) {
    && |chip| == |reset| == NUM_REGS
    && |run| == |choices| + 1 && run[0] == Init(chip)
    && forall k :: 0 <= k < |choices| ==> Leads(reset, run, choices, k)
  }

  ghost predicate Leads(reset: seq<Byte>, run: seq<State>, choices: seq<Choice>, k: nat)
    requires k < |choices| < |run|
  {
    run[k].regs.Valid() && |run[k].ref| == NUM_REGS && run[k + 1] == Step(run[k], reset, choices[k])
  }

  lemma ChosenIsRun(chip: seq<Byte>, reset: seq<Byte>, run: seq<State>, choices: seq<Choice>)
    requires Chosen(chip, reset, run, choices)
    ensures IsRun(chip, reset, run)
  {
    forall k | 0 < k < |run|
      ensures Next(reset, run[k - 1], run[k])
    {
      assert Leads(reset, run, choices, k - 1);
    }
  }

  /** A register file that never loses power, after the writes among some choices: whatever the bus did,
      each register holds what it was last asked to hold. */
  function Written(chip: seq<Byte>, choices: seq<Choice>): (r: seq<Byte>)
    requires |chip| == NUM_REGS
    ensures |r| == NUM_REGS
  {
    if choices == [] then chip
    else
      var before, last := Written(chip, choices[..|choices| - 1]), choices[|choices| - 1];
      if last.Write? && last.reg <= MAX_REGISTER then before[last.reg := last.value] else before
  }

  lemma {:induction false} RefIsWhatWasWritten(chip: seq<Byte>, reset: seq<Byte>, run: seq<State>, choices: seq<Choice>, k: nat)
    requires Chosen(chip, reset, run, choices) && k <= |choices|
    ensures run[k].ref == Written(chip, choices[..k])
  {
    if k > 0 {
      RefIsWhatWasWritten(chip, reset, run, choices, k - 1);
      assert Leads(reset, run, choices, k - 1);
      assert choices[..k][..k - 1] == choices[..k - 1];
    }
  }

  /** The register has been read with success, or written, among the first k choices. */
  predicate Accessed(run: seq<State>, choices: seq<Choice>, k: nat, reg: nat)
    requires k <= |choices| < |run|
  {
    k > 0
    && (|| Accessed(run, choices, k - 1, reg)
        || (run[k].lastRead.Some? && run[k].lastRead.value.0 == reg)
        || (choices[k - 1].Write? && choices[k - 1].reg == reg))
  }

  lemma CacheGrows(s: State, reset: seq<Byte>, choice: Choice, reg: nat)
    requires s.regs.Valid() && |s.ref| == NUM_REGS && reg <= MAX_REGISTER
    ensures var t := Step(s, reset, choice);
      reg in t.regs.cache <==>
        || reg in s.regs.cache
        || (t.lastRead.Some? && t.lastRead.value.0 == reg)
        || (choice.Write? && choice.reg == reg)
  {
  }

  lemma {:induction false} CachedMeansAccessed(chip: seq<Byte>, reset: seq<Byte>, run: seq<State>, choices: seq<Choice>,
                                               k: nat, reg: nat)
    requires Chosen(chip, reset, run, choices) && k <= |choices| && reg <= MAX_REGISTER
    ensures reg in run[k].regs.cache <==> Accessed(run, choices, k, reg)
  {
    if k > 0 {
      CachedMeansAccessed(chip, reset, run, choices, k - 1, reg);
      assert Leads(reset, run, choices, k - 1);
      CacheGrows(run[k - 1], reset, choices[k - 1], reg);
    }
  }

  /** In every phase, suspended or not and whatever the bus does, a read of a register that was accessed
      before the first power loss, or ever written, succeeds, and returns what was last written to it,
      or else what the chip held at first. */
  lemma ContactedReadsSucceed(chip: seq<Byte>, reset: seq<Byte>, run: seq<State>, choices: seq<Choice>, k: nat, reg: nat, bus: bool)
    requires Chosen(chip, reset, run, choices) && k <= |choices|
    requires EverContacted(reset, run, k, reg)
    ensures reg <= MAX_REGISTER && run[k].regs.Valid() && |run[k].ref| == NUM_REGS
    ensures Step(run[k], reset, Read(reg, bus)).lastRead == Some((reg, Written(chip, choices[..k])[reg]))
  {
    ChosenIsRun(chip, reset, run, choices);
    EveryStateOfARun(chip, reset, run, k);
    StaleMeansNoContact(chip, reset, run, k, reg);
    assert CachedOk(run[k], chip, reset, reg);
    RefIsWhatWasWritten(chip, reset, run, choices, k);
  }

  /** Which reads succeed, exactly: those of a register accessed before, always; those of any other, if the
      map is not suspended and the bus works. Refused reads are answered -EBUSY while suspended, -EIO
      otherwise and for registers there are none of. */
  lemma ReadsAnswer(chip: seq<Byte>, reset: seq<Byte>, run: seq<State>, choices: seq<Choice>, k: nat, reg: nat, bus: bool)
    requires Chosen(chip, reset, run, choices) && k <= |choices|
    ensures run[k].regs.Valid() && |run[k].ref| == NUM_REGS
    ensures var o := ReadReg(run[k].regs, reg, bus).1;
      if reg > MAX_REGISTER then o == Error(-EIO)
      else if Accessed(run, choices, k, reg) then o.Done?
      else if run[k].phase.Suspended? then o == Error(-EBUSY)
      else if !bus then o == Error(-EIO)
      else o == Done(run[k].regs.chip[reg])
    ensures ReadReg(run[k].regs, reg, bus).1.Done? <==> Step(run[k], reset, Read(reg, bus)).lastRead.Some?
  {
    ChosenIsRun(chip, reset, run, choices);
    EveryStateOfARun(chip, reset, run, k);
    if reg <= MAX_REGISTER {
      CachedMeansAccessed(chip, reset, run, choices, k, reg);
    }
  }

  /** While suspended nothing the driver's callers do reaches the chip. */
  lemma SuspendedLeavesTheChip(chip: seq<Byte>, reset: seq<Byte>, run: seq<State>, k: nat, choice: Choice)
    requires IsRun(chip, reset, run) && k < |run| && run[k].phase.Suspended?
    ensures run[k].regs.Valid() && |run[k].ref| == NUM_REGS
    ensures Step(run[k], reset, choice).regs.chip == if choice.LosePower? then reset else run[k].regs.chip
  {
    EveryStateOfARun(chip, reset, run, k);
  }

  ghost predicate Agree(r: Regs) {
    forall reg :: reg in r.cache && reg < |r.chip| ==> r.chip[reg] == r.cache[reg]
  }

  lemma StepKeepsAgree(s: State, chip: seq<Byte>, reset: seq<Byte>, choice: Choice)
    requires Inv(s, chip, reset) && (s.phase.Awake? && !s.regs.dirty ==> Agree(s.regs))
    requires choice.Write? ==> choice.bus
    ensures var t := Step(s, reset, choice); t.phase.Awake? && !t.regs.dirty ==> Agree(t.regs)
  {
  }

  /** If no write fails on the bus, then whenever the driver is not suspended and its map is clean, the chip
      agrees with the cache on every cached register, however often power has been lost in between. */
  lemma {:induction false} AwakeAndCleanMeansRestored(chip: seq<Byte>, reset: seq<Byte>, run: seq<State>, choices: seq<Choice>, k: nat)
    requires Chosen(chip, reset, run, choices) && k <= |choices|
    requires forall j :: 0 <= j < |choices| && choices[j].Write? ==> choices[j].bus
    ensures run[k].phase.Awake? && !run[k].regs.dirty ==> Agree(run[k].regs)
  {
    if k > 0 {
      AwakeAndCleanMeansRestored(chip, reset, run, choices, k - 1);
      assert Leads(reset, run, choices, k - 1);
      ChosenIsRun(chip, reset, run, choices);
      EveryStateOfARun(chip, reset, run, k - 1);
      StepKeepsAgree(run[k - 1], chip, reset, choices[k - 1]);
    }
  }

  /** A suspended driver can always be resumed: whatever happened to the chip, with a bus that works the
      three calls of the resume make it agree with the cache again. */
  lemma ResumeSucceeds(chip: seq<Byte>, reset: seq<Byte>, run: seq<State>, k: nat, upTo: nat)
    requires IsRun(chip, reset, run) && k < |run| && run[k].phase.Suspended? && NUM_REGS <= upTo
    ensures run[k].regs.Valid() && |run[k].ref| == NUM_REGS
    ensures var t := Step(Step(Step(run[k], reset, EnableBus), reset, MarkDirty), reset, Sync(upTo));
      && t.phase.Awake? && t.synced && !t.regs.dirty && !t.regs.cacheOnly
      && t.regs.cache == run[k].regs.cache && Agree(t.regs)
  {
    EveryStateOfARun(chip, reset, run, k);
  }

  /** The exception is real: a register first read after a power loss. */
  lemma LateContactShowsTheLoss(chip: seq<Byte>, reset: seq<Byte>, reg: nat) returns (run: seq<State>)
    requires |chip| == |reset| == NUM_REGS && reg < NUM_REGS && chip[reg] != reset[reg]
    ensures IsRun(chip, reset, run)
    ensures var s := run[|run| - 1];
      && |s.ref| == NUM_REGS && s.ref[reg] == chip[reg] && s.lastRead == Some((reg, reset[reg]))
  {
    var s0 := Init(chip);
    var s1 := Step(s0, reset, Suspend);
    var s2 := Step(s1, reset, LosePower);
    var s3 := Step(s2, reset, EnableBus);
    var s4 := Step(s3, reset, Read(reg, true));
    run := [s0, s1, s2, s3, s4];
  }
}
