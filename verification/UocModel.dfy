/** The uop-cache repack model as a state machine on values: what one delivered slot, one
    seal and one flush do, and the invariant that every trace keeps. */
module UocModel {
  import opened Options
  import opened Plru

  // ---- decoding ----

  datatype Kind = Indirect | Serializing | DirectCtl | Plain

  function ClassifyInsn(insn: nat): Kind {
    var opcode := insn % 0x80;
    if opcode == 0x6f then DirectCtl
    else if opcode == 0x67 then Indirect
    else if opcode == 0x63 then DirectCtl
    else if opcode == 0x73 then Serializing
    else if opcode == 0x0f then Serializing
    else if opcode == 0x2f then Serializing
    else Plain
  }

  const SETS: nat := 32
  const PER_ENTRY: nat := 4

  function HeadIndex(pc: nat): (i: nat)
    ensures i < SETS
  {
    (pc / 2) % SETS
  }

  function HeadTag(pc: nat): nat { pc / 64 }

  /** On even addresses, set index and tag together determine the head. */
  lemma HeadInjective(a: nat, b: nat)
    requires a % 2 == 0 && b % 2 == 0
    ensures HeadIndex(a) == HeadIndex(b) && HeadTag(a) == HeadTag(b) <==> a == b
  {
    assert a == 64 * (a / 64) + 2 * ((a / 2) % 32);
    assert b == 64 * (b / 64) + 2 * ((b / 2) % 32);
  }

  /** The index is five bits of the address above the lowest, the tag all bits above them. */
  lemma HeadParts(pc: nat)
    ensures pc == 64 * HeadTag(pc) + 2 * HeadIndex(pc) + pc % 2 && HeadIndex(pc) < 32
  {
  }

  // ---- events ----

  /** A delivered group carries four slots, of which the first `n` hold uops. */
  datatype Event = Flush | Group(n: nat, cause: nat, pcs: seq<nat>, insns: seq<nat>)

  /** What the trace format guarantees. */
  predicate ValidEvent(e: Event) {
    e.Group? ==>
      && e.n <= 4 && |e.pcs| == 4 && |e.insns| == 4
      && forall i :: 0 <= i < e.n ==> e.pcs[i] % 2 == 0
  }

  predicate Truncating(e: Event)
    requires e.Group?
  {
    e.cause in {0, 1, 4, 5} && e.n < PER_ENTRY
  }

  // ---- state ----

  /** The entry being built: head, uops so far, resident at lookup, groups packed through. */
  datatype Build = Build(head: nat, uops: nat, resident: bool, gids: set<nat>)

  datatype Model = Model(
    sets: seq<Ways>,
    known: set<nat>,
    build: Option<Build>,
    uops: nat, groups: nat, flushes: nat,
    widths: map<nat, nat>, causes: map<nat, nat>,
    installs: nat, evicts: nat, entries: nat,
    lookups: nat, hits: nat, misses: nat,
    truncated: nat,
    streaks: seq<nat>, streak: nat,
    gid: nat,
    truncSlots: map<nat, nat>,
    recovered: set<nat>)

  /** Nothing resident, nothing built, all counters zero. */
  function Start(): Model {
    Model(seq(SETS, _ => Empty()), {}, None, 0, 0, 0, map[], map[], 0, 0, 0, 0, 0, 0, 0, [], 0, 0, map[], {})
  }

  /** A counter of a histogram; and the histogram with it incremented. */
  function Count(hist: map<nat, nat>, key: nat): nat { if key in hist then hist[key] else 0 }

  function Increment(hist: map<nat, nat>, key: nat): map<nat, nat> { hist[key := Count(hist, key) + 1] }

  predicate Shaped(m: Model) {
    |m.sets| == SETS && forall i :: 0 <= i < SETS ==> |m.sets[i].tags| == 8 && |m.sets[i].valid| == 8
  }

  predicate Resident(m: Model, pc: nat)
    requires Shaped(m)
  {
    FindFrom(m.sets[HeadIndex(pc)], HeadTag(pc), 0) >= 0
  }

  // ---- steps ----

  /** The set after an entry with this tag is sealed: touched if found, else installed. */
  function SealedSet(s: Ways, tag: nat): (r: Ways)
    requires |s.tags| == 8 && |s.valid| == 8
    ensures |r.tags| == 8 && |r.valid| == 8
  {
    var w := FindFrom(s, tag, 0);
    if w >= 0 then s.(tree := Touch(s.tree, w)) else Installed(s, tag)
  }

  /** The groups among `gids` that left slots empty. */
  function Recoverable(gids: set<nat>, slots: map<nat, nat>): set<nat> {
    set g | g in gids && g in slots
  }

  /** A seal, part by part: the head goes to its set; */
  function Cached(m: Model, head: nat): (r: Model)
    requires Shaped(m)
    ensures Shaped(r)
  {
    var idx, tag := HeadIndex(head), HeadTag(head);
    var s := m.sets[idx];
    var install := FindFrom(s, tag, 0) < 0;
    m.(sets := m.sets[idx := SealedSet(s, tag)],
       installs := m.installs + Bit(install),
       evicts := m.evicts + Bit(install && FirstFree(s, 0) == -1))
  }

  /** it becomes known; */
  function Recorded(m: Model, head: nat): Model {
    m.(known := m.known + {head}, entries := m.entries + 1)
  }

  /** and the groups that a resident entry packs through are recovered. */
  function Credited(m: Model): Model
    requires m.build.Some?
  {
    var b := m.build.value;
    m.(recovered := if b.resident then m.recovered + Recoverable(b.gids, m.truncSlots) else m.recovered,
       build := None)
  }

  function Seal(m: Model): (r: Model)
    requires Shaped(m)
    ensures Shaped(r)
  {
    if m.build.None? then m
    else
      var head := m.build.value.head;
      Credited(Recorded(Cached(m, head), head))
  }

  function EndStreak(m: Model): Model {
    if m.streak > 0 then m.(streaks := m.streaks + [m.streak], streak := 0) else m
  }

  function FlushStep(m: Model): Model {
    EndStreak(m.(flushes := m.flushes + 1, build := None))
  }

  /** The lookup of a head that was sealed before. */
  function Looked(m: Model, resident: bool): Model {
    if resident then m.(lookups := m.lookups + 1, hits := m.hits + 1, streak := m.streak + 1)
    else EndStreak(m.(lookups := m.lookups + 1, misses := m.misses + 1))
  }

  function Opened(m: Model, pc: nat, resident: bool): Model {
    m.(build := Some(Build(pc, 1, resident, {m.gid})))
  }

  /** Open a new entry at `pc`. */
  function Open(m: Model, pc: nat): (r: Model)
    requires Shaped(m)
    ensures Shaped(r)
  {
    var resident := Resident(m, pc);
    Opened(if pc in m.known then Looked(m, resident) else m, pc, resident && pc in m.known)
  }

  /** The entry being built with one more uop, or a new one. */
  function Extended(m: Model, pc: nat): (r: Model)
    requires Shaped(m)
    ensures Shaped(r) && r.build.Some? && r.sets == m.sets
  {
    var m1 := m.(uops := m.uops + 1);
    if m.build.None? then Open(m1, pc)
    else
      var b := m.build.value;
      m1.(build := Some(b.(uops := b.uops + 1, gids := b.gids + {m.gid})))
  }

  /** A control transfer or the fourth uop ends the entry. */
  predicate Ends(m: Model, insn: nat)
    requires m.build.Some?
  {
    ClassifyInsn(insn).Indirect? || ClassifyInsn(insn).Serializing? || m.build.value.uops >= PER_ENTRY
  }

  function Slot(m: Model, pc: nat, insn: nat): (r: Model)
    requires Shaped(m)
    ensures Shaped(r)
  {
    var m2 := Extended(m, pc);
    if Ends(m2, insn) then Seal(m2) else m2
  }

  function Slots(m: Model, e: Event, n: nat): (r: Model)
    requires Shaped(m) && ValidEvent(e) && e.Group? && n <= e.n
    ensures Shaped(r)
  {
    if n == 0 then m else Slot(Slots(m, e, n - 1), e.pcs[n - 1], e.insns[n - 1])
  }

  /** The bookkeeping at the start of a group. */
  function BeginGroup(m: Model, e: Event): (r: Model)
    requires Shaped(m) && ValidEvent(e) && e.Group?
    ensures Shaped(r)
  {
    var m1 := m.(groups := m.groups + 1, gid := m.gid + 1,
                 widths := Increment(m.widths, e.n), causes := Increment(m.causes, e.cause));
    if Truncating(e) then
      m1.(truncated := m.truncated + (PER_ENTRY - e.n), truncSlots := m.truncSlots[m.gid + 1 := PER_ENTRY - e.n])
    else m1
  }

  function Step(m: Model, e: Event): (r: Model)
    requires Shaped(m) && ValidEvent(e)
    ensures Shaped(r)
  {
    if e.Flush? then FlushStep(m) else Slots(BeginGroup(m, e), e, e.n)
  }

  predicate ValidTrace(events: seq<Event>) {
    forall i :: 0 <= i < |events| ==> ValidEvent(events[i])
  }

  function Steps(events: seq<Event>): (r: Model)
    requires ValidTrace(events)
    ensures Shaped(r)
  {
    if events == [] then Start() else Step(Steps(events[..|events| - 1]), events[|events| - 1])
  }

  /** The end of the trace: seal what is being built and close the streak. */
  function Finish(m: Model): (r: Model)
    requires Shaped(m)
    ensures Shaped(r)
  {
    EndStreak(Seal(m))
  }

  // ---- results ----

  function SumSeq(s: seq<nat>): nat {
    if s == [] then 0 else SumSeq(s[..|s| - 1]) + s[|s| - 1]
  }

  function Occupancy(s: Ways, w: nat): nat
    requires |s.valid| == 8 && w <= 8
  {
    if w == 0 then 0 else Occupancy(s, w - 1) + Bit(s.valid[w - 1])
  }

  function TotalOccupancy(sets: seq<Ways>): nat
    requires forall i :: 0 <= i < |sets| ==> |sets[i].valid| == 8
  {
    if sets == [] then 0 else TotalOccupancy(sets[..|sets| - 1]) + Occupancy(sets[|sets| - 1], 8)
  }

  /** Slots of the groups 1 to `n` that are in `which`. */
  function SlotSum(slots: map<nat, nat>, which: set<nat>, n: nat): nat {
    if n == 0 then 0 else SlotSum(slots, which, n - 1) + (if n in which && n in slots then slots[n] else 0)
  }

  function RecoveredSlots(m: Model): nat { SlotSum(m.truncSlots, m.recovered, m.gid) }

  /** Tags of the distinct heads sealed so far that map to set `i`. */
  function TagsSeen(known: set<nat>, i: nat): set<nat> {
    set h <- known | HeadIndex(h) == i :: HeadTag(h)
  }
}
