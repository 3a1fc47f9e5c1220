/** What a trace is to the uop cache, said of the events alone: how its uops are cut into
    entries, which entries are looked up and found, and which empty slots are recovered. */
module UocSegments {
  import opened Options
  import opened Plru
  import opened UocModel
  import opened UocInvariant

  // ---- uops and entries ----

  /** A trace as the cache sees it: uops, with the number of the group that brought them,
      and flushes between them. */
  datatype Mark = Break | Uop(pc: nat, insn: nat, group: nat)

  function GroupCount(events: seq<Event>): nat {
    if events == [] then 0
    else GroupCount(events[..|events| - 1]) + (if events[|events| - 1].Group? then 1 else 0)
  }

  function SlotMarks(e: Event, group: nat, n: nat): seq<Mark>
    requires ValidEvent(e) && e.Group? && n <= e.n
  {
    if n == 0 then [] else SlotMarks(e, group, n - 1) + [Uop(e.pcs[n - 1], e.insns[n - 1], group)]
  }

  function Marks(events: seq<Event>): seq<Mark>
    requires ValidTrace(events)
  {
    if events == [] then []
    else
      var before, e := events[..|events| - 1], events[|events| - 1];
      Marks(before) + (if e.Flush? then [Break] else SlotMarks(e, GroupCount(before) + 1, e.n))
  }

  type Entry = seq<Mark>

  /** An entry is whole with its fourth uop, and with an indirect jump, a system or fence
      instruction, or an atomic. */
  predicate Whole(u: Entry) {
    u != [] && (|u| >= 4 || (u[|u| - 1].Uop? && u[|u| - 1].insn % 0x80 in {0x67, 0x73, 0x0f, 0x2f}))
  }

  /** The last entry of a trace, whole or not; none after a flush. */
  function Latest(ms: seq<Mark>): (u: Entry)
    ensures forall x <- u :: x.Uop?
  {
    if ms == [] || ms[|ms| - 1].Break? then []
    else
      var u := Latest(ms[..|ms| - 1]);
      (if Whole(u) then [] else u) + [ms[|ms| - 1]]
  }

  /** All whole entries. */
  function Entries(ms: seq<Mark>): seq<Entry> {
    if ms == [] then []
    else Entries(ms[..|ms| - 1]) + (if ms[|ms| - 1].Uop? && Whole(Latest(ms)) then [Latest(ms)] else [])
  }

  /** The address of an entry's first uop. */
  function HeadOf(u: Entry): nat { if u != [] && u[0].Uop? then u[0].pc else 0 }

  function Heads(us: seq<Entry>): (h: seq<nat>)
    ensures |h| == |us|
  {
    if us == [] then [] else Heads(us[..|us| - 1]) + [HeadOf(us[|us| - 1])]
  }

  function SetOf(h: seq<nat>): set<nat> { set x | x in h }

  // ---- the cache ----

  /** The sets after entries with these heads have been sealed one after the other. */
  function Replay(h: seq<nat>): (sets: seq<Ways>)
    ensures |sets| == SETS && forall i :: 0 <= i < SETS ==> |sets[i].tags| == 8 && |sets[i].valid| == 8
  {
    if h == [] then seq(SETS, _ => Plru.Empty())
    else
      var sets, head := Replay(h[..|h| - 1]), h[|h| - 1];
      sets[HeadIndex(head) := SealedSet(sets[HeadIndex(head)], HeadTag(head))]
  }

  predicate Found(h: seq<nat>, pc: nat) {
    FindFrom(Replay(h)[HeadIndex(pc)], HeadTag(pc), 0) >= 0
  }

  predicate Full(h: seq<nat>, pc: nat) {
    FirstFree(Replay(h)[HeadIndex(pc)], 0) == -1
  }

  /** Heads that were not found when they were sealed, and those of them that met a full set. */
  function Installs(h: seq<nat>): nat {
    if h == [] then 0
    else
      var before := h[..|h| - 1];
      Installs(before) + Bit(!Found(before, h[|h| - 1]))
  }

  function Evictions(h: seq<nat>): nat {
    if h == [] then 0
    else
      var before := h[..|h| - 1];
      Evictions(before) + Bit(!Found(before, h[|h| - 1]) && Full(before, h[|h| - 1]))
  }

  // ---- lookups ----

  /** The last uop begins an entry whose head was sealed before; and it is found. */
  predicate LooksUp(ms: seq<Mark>) {
    |Latest(ms)| == 1 && HeadOf(Latest(ms)) in Heads(Entries(ms[..|ms| - 1]))
  }

  predicate Hits(ms: seq<Mark>) {
    LooksUp(ms) && Found(Heads(Entries(ms[..|ms| - 1])), HeadOf(Latest(ms)))
  }

  function LookupCount(ms: seq<Mark>): nat {
    if ms == [] then 0 else LookupCount(ms[..|ms| - 1]) + Bit(LooksUp(ms))
  }

  function HitCount(ms: seq<Mark>): nat {
    if ms == [] then 0 else HitCount(ms[..|ms| - 1]) + Bit(Hits(ms))
  }

  function UopCount(ms: seq<Mark>): nat {
    if ms == [] then 0 else UopCount(ms[..|ms| - 1]) + Bit(ms[|ms| - 1].Uop?)
  }

  /** The lookup of the latest entry was a hit. */
  predicate LatestHit(ms: seq<Mark>) {
    ms != [] && if |Latest(ms)| > 1 then LatestHit(ms[..|ms| - 1]) else Hits(ms)
  }

  /** The groups of an entry, and of all whole entries whose lookup was a hit. */
  function GroupsOf(u: Entry): set<nat> {
    set x | x in u && x.Uop? :: x.group
  }

  function Credited(ms: seq<Mark>): set<nat> {
    if ms == [] then {}
    else Credited(ms[..|ms| - 1])
         + (if ms[|ms| - 1].Uop? && Whole(Latest(ms)) && LatestHit(ms) then GroupsOf(Latest(ms)) else {})
  }

  // ---- streaks ----

  /** Hits, and what cuts a streak of them: misses and flushes. */
  function Outcomes(ms: seq<Mark>): seq<bool> {
    if ms == [] then []
    else Outcomes(ms[..|ms| - 1])
         + (if ms[|ms| - 1].Break? then [false] else if LooksUp(ms) then [Hits(ms)] else [])
  }

  /** The hits after the last cut. */
  function LastRun(o: seq<bool>): nat {
    if o == [] || !o[|o| - 1] then 0 else LastRun(o[..|o| - 1]) + 1
  }

  /** The lengths of the streaks that have been cut. */
  function Runs(o: seq<bool>): seq<nat> {
    if o == [] then []
    else
      var before := o[..|o| - 1];
      Runs(before) + (if !o[|o| - 1] && LastRun(before) > 0 then [LastRun(before)] else [])
  }

  // ---- the state machine follows ----

  /** What is being built after these marks. */
  function BuildOf(ms: seq<Mark>): Option<Build> {
    var u := Latest(ms);
    if u == [] || Whole(u) then None else Some(Build(HeadOf(u), |u|, LatestHit(ms), GroupsOf(u)))
  }

  ghost predicate Follows(m: Model, ms: seq<Mark>) {
    && Counting(m, ms) && Caching(m, Entries(ms)) && m.build == BuildOf(ms)
    && m.recovered == Credited(ms) * m.truncSlots.Keys
    && GroupsUpTo(ms, m.gid)
  }

  ghost predicate Counting(m: Model, ms: seq<Mark>) {
    && m.uops == UopCount(ms)
    && m.lookups == LookupCount(ms) && m.hits == HitCount(ms) && m.hits + m.misses == m.lookups
    && m.streaks == Runs(Outcomes(ms)) && m.streak == LastRun(Outcomes(ms))
  }

  ghost predicate Caching(m: Model, us: seq<Entry>) {
    var h := Heads(us);
    && m.sets == Replay(h) && m.known == SetOf(h)
    && m.entries == |h| && m.installs == Installs(h) && m.evicts == Evictions(h)
  }

  /** All uops come from the first `g` groups. */
  ghost predicate GroupsUpTo(ms: seq<Mark>, g: nat) {
    forall x <- ms :: x.Uop? ==> 1 <= x.group <= g
  }

  lemma {:induction false} LatestWithin(ms: seq<Mark>)
    ensures forall x <- Latest(ms) :: x in ms
    ensures forall g <- Credited(ms) :: exists x :: x in ms && x.Uop? && x.group == g
  {
    hide LatestHit;
    if ms != [] {
      LatestWithin(ms[..|ms| - 1]);
    }
  }

  /** Every function, after one more uop. */
  lemma OneMoreUop(ms: seq<Mark>, x: Mark)
    requires x.Uop?
    ensures var ns := ms + [x]; var u := (if Whole(Latest(ms)) then [] else Latest(ms)) + [x];
      && Latest(ns) == u
      && Entries(ns) == Entries(ms) + (if Whole(u) then [u] else [])
      && UopCount(ns) == UopCount(ms) + 1
      && LookupCount(ns) == LookupCount(ms) + Bit(LooksUp(ns)) && HitCount(ns) == HitCount(ms) + Bit(Hits(ns))
      && Outcomes(ns) == Outcomes(ms) + (if LooksUp(ns) then [Hits(ns)] else [])
      && LatestHit(ns) == (if |u| > 1 then LatestHit(ms) else Hits(ns))
      && Credited(ns) == Credited(ms) + (if Whole(u) && LatestHit(ns) then GroupsOf(u) else {})
      && LooksUp(ns) == (|u| == 1 && x.pc in Heads(Entries(ms)))
      && Hits(ns) == (LooksUp(ns) && Found(Heads(Entries(ms)), x.pc))
  {
    hide Whole, Found, Heads;
    var ns := ms + [x];
    assert ns[..|ns| - 1] == ms && ns[|ns| - 1] == x;
  }

  lemma OneMoreBreak(ms: seq<Mark>)
    ensures var ns := ms + [Break];
      && Latest(ns) == [] && Entries(ns) == Entries(ms) && UopCount(ns) == UopCount(ms)
      && LookupCount(ns) == LookupCount(ms) && HitCount(ns) == HitCount(ms)
      && Outcomes(ns) == Outcomes(ms) + [false] && Credited(ns) == Credited(ms)
  {
    hide Whole, Found, Heads;
    var ns := ms + [Break];
    assert ns[..|ns| - 1] == ms && ns[|ns| - 1] == Break;
  }

  lemma OneMoreHead(h: seq<nat>, head: nat)
    ensures var k := h + [head];
      && Replay(k) == Replay(h)[HeadIndex(head) := SealedSet(Replay(h)[HeadIndex(head)], HeadTag(head))]
      && Installs(k) == Installs(h) + Bit(!Found(h, head))
      && Evictions(k) == Evictions(h) + Bit(!Found(h, head) && Full(h, head))
      && SetOf(k) == SetOf(h) + {head}
  {
    hide SealedSet, HeadIndex, HeadTag, Found, Full;
    var k := h + [head];
    assert k[..|k| - 1] == h && k[|k| - 1] == head;
  }

  lemma OneMoreEntry(us: seq<Entry>, u: Entry)
    ensures Heads(us + [u]) == Heads(us) + [HeadOf(u)]
  {
    assert (us + [u])[..|us|] == us;
  }

  lemma OneMoreOutcome(o: seq<bool>, b: bool)
    ensures var p := o + [b];
      && LastRun(p) == (if b then LastRun(o) + 1 else 0)
      && Runs(p) == Runs(o) + (if !b && LastRun(o) > 0 then [LastRun(o)] else [])
  {
    assert (o + [b])[..|o|] == o;
  }

  /** Sealing the entry `u`. */
  lemma SealCaches(m: Model, us: seq<Entry>, u: Entry)
    requires Shaped(m) && Caching(m, us) && m.build.Some? && m.build.value.head == HeadOf(u)
    ensures var r := Seal(m);
      && Caching(r, us + [u]) && r.build == None
      && r == m.(sets := r.sets, known := r.known, entries := r.entries, installs := r.installs, evicts := r.evicts,
                 recovered := r.recovered, build := None)
      && r.recovered == (if m.build.value.resident
                         then m.recovered + Recoverable(m.build.value.gids, m.truncSlots) else m.recovered)
  {
    hide SealedSet, HeadIndex, HeadTag, FindFrom, FirstFree, Replay, Installs, Evictions, Recoverable;
    OneMoreEntry(us, u);
    OneMoreHead(Heads(us), HeadOf(u));
  }

  lemma ResidentIsFound(m: Model, us: seq<Entry>, pc: nat)
    requires Shaped(m) && Caching(m, us)
    ensures Resident(m, pc) == Found(Heads(us), pc)
    ensures pc in m.known <==> pc in Heads(us)
  {
    hide FindFrom, HeadIndex, HeadTag, Replay, Heads;
  }

  lemma OneMoreGroup(u: Entry, x: Mark)
    requires x.Uop?
    ensures GroupsOf(u + [x]) == GroupsOf(u) + {x.group} && GroupsOf([x]) == {x.group}
    ensures HeadOf(if u == [] then [x] else u + [x]) == if u == [] then x.pc else HeadOf(u)
  {
    var g := GroupsOf(u + [x]);
    assert x in u + [x];
    forall y | y in GroupsOf(u) + {x.group} ensures y in g {
      if y in GroupsOf(u) {
        var z :| z in u && z.Uop? && z.group == y;
        assert z in u + [x];
      }
    }
  }

  /** What opening an entry counts. */
  lemma OpensCounting(m: Model, o: seq<bool>, known: bool, resident: bool)
    requires m.streaks == Runs(o) && m.streak == LastRun(o) && m.hits + m.misses == m.lookups
    ensures var r := if known then Looked(m, resident) else m;
      && r.lookups == m.lookups + Bit(known) && r.hits == m.hits + Bit(known && resident)
      && r.hits + r.misses == r.lookups
      && r == m.(lookups := r.lookups, hits := r.hits, misses := r.misses, streaks := r.streaks, streak := r.streak)
      && var p := o + (if known then [resident] else []);
        r.streaks == Runs(p) && r.streak == LastRun(p)
  {
    OneMoreOutcome(o, resident);
    hide Runs, LastRun;
    assert o + [] == o;
  }

  lemma OpenParts(m: Model, pc: nat)
    requires Shaped(m)
    ensures var known := pc in m.known; var resident := Resident(m, pc);
      Open(m, pc) == (if known then Looked(m, resident) else m).(
        build := Some(Build(pc, 1, resident && known, {m.gid})))
  {
    hide Resident;
  }

  /** A uop that begins an entry. */
  lemma BeginsCounting(m: Model, ms: seq<Mark>, x: Mark)
    requires Shaped(m) && Counting(m, ms) && Caching(m, Entries(ms)) && x.Uop? && x.group == m.gid
    requires m.build == None && (Latest(ms) == [] || Whole(Latest(ms)))
    ensures var r, ns := Extended(m, x.pc), ms + [x];
      && Latest(ns) == [x] && Counting(r, ns)
      && r.build == Some(Build(x.pc, 1, LatestHit(ns), {x.group}))
      && r == m.(uops := r.uops, lookups := r.lookups, hits := r.hits, misses := r.misses,
                 streaks := r.streaks, streak := r.streak, build := r.build)
  {
    hide Whole, Resident, Found, Heads, Entries, Open, Looked, Caching, Shaped;
    hide LooksUp, Hits, LatestHit, Latest, Runs, LastRun, Outcomes, UopCount, LookupCount, HitCount, Credited;
    var m1 := m.(uops := m.uops + 1);
    OneMoreUop(ms, x);
    UopsAside(m);
    ResidentIsFound(m, Entries(ms), x.pc);
    OpenParts(m1, x.pc);
    assert [] + [x] == [x];
    OpensCounting(m1, Outcomes(ms), x.pc in m.known, Resident(m, x.pc));
    assert Outcomes(ms) + [] == Outcomes(ms);
  }

  lemma UopsAside(m: Model)
    requires Shaped(m)
    ensures var m1 := m.(uops := m.uops + 1);
      Shaped(m1) && forall pc :: Resident(m1, pc) == Resident(m, pc)
  {
  }

  /** A uop of the entry being built. */
  lemma ContinuesCounting(m: Model, ms: seq<Mark>, x: Mark)
    requires Shaped(m) && Counting(m, ms) && x.Uop? && x.group == m.gid
    requires Latest(ms) != [] && !Whole(Latest(ms)) && m.build == BuildOf(ms)
    ensures var r, ns := Extended(m, x.pc), ms + [x]; var u := Latest(ms) + [x];
      && Latest(ns) == u && Counting(r, ns)
      && r.build == Some(Build(HeadOf(u), |u|, LatestHit(ns), GroupsOf(u)))
      && r == m.(uops := r.uops, build := r.build)
  {
    hide Whole, Found, Heads, Entries, Shaped, Open;
    hide LooksUp, Hits, LatestHit, Latest, Runs, LastRun, Outcomes, UopCount, LookupCount, HitCount, Credited;
    hide GroupsOf, HeadOf;
    OneMoreUop(ms, x);
    OneMoreGroup(Latest(ms), x);
    assert Outcomes(ms) + [] == Outcomes(ms);
  }

  lemma EndsWhole(m: Model, u: Entry, x: Mark)
    requires m.build.Some? && u != [] && u[|u| - 1] == x && x.Uop? && m.build.value.uops == |u|
    ensures Ends(m, x.insn) <==> Whole(u)
  {
  }

  /** The uop that was read belongs to the latest entry. */
  lemma ExtendsCounting(m: Model, ms: seq<Mark>, x: Mark)
    requires Shaped(m) && Follows(m, ms) && x.Uop? && x.group == m.gid
    ensures var r, ns := Extended(m, x.pc), ms + [x]; var u := Latest(ns);
      && u != [] && u[|u| - 1] == x && Counting(r, ns)
      && r.build == Some(Build(HeadOf(u), |u|, LatestHit(ns), GroupsOf(u)))
      && r == m.(uops := r.uops, lookups := r.lookups, hits := r.hits, misses := r.misses,
                 streaks := r.streaks, streak := r.streak, build := r.build)
  {
    BuildNone(ms);
    if Latest(ms) == [] || Whole(Latest(ms)) {
      BeginsCounting(m, ms, x);
      OneMoreGroup([], x);
    } else {
      ContinuesCounting(m, ms, x);
    }
    hide Whole, Extended, Shaped, Latest, LatestHit, Counting, Caching, GroupsOf, HeadOf, BuildOf, Credited, GroupsUpTo;
  }

  lemma BuildNone(ms: seq<Mark>)
    ensures BuildOf(ms) == None <==> Latest(ms) == [] || Whole(Latest(ms))
  {
    hide Whole, Latest, LatestHit, GroupsOf;
  }

  /** The entry just completed is sealed; */
  lemma WholeFollows(m: Model, ms: seq<Mark>, x: Mark, u: Entry)
    requires Shaped(m) && x.Uop? && u == Latest(ms + [x]) && Whole(u)
    requires Counting(m, ms + [x]) && Caching(m, Entries(ms)) && GroupsUpTo(ms + [x], m.gid)
    requires m.recovered == Credited(ms) * m.truncSlots.Keys
    requires m.build == Some(Build(HeadOf(u), |u|, LatestHit(ms + [x]), GroupsOf(u)))
    ensures Follows(Seal(m), ms + [x]) && Seal(m).gid == m.gid
  {
    hide *;
    OneMoreUop(ms, x);
    BuildNone(ms + [x]);
    RecoverableIs(GroupsOf(u), m.truncSlots);
    SealCaches(m, Entries(ms), u);
    CountingKept(m, Seal(m), ms + [x]);
    FollowedBy(Seal(m), ms + [x]);
  }

  lemma CountingKept(m: Model, r: Model, ms: seq<Mark>)
    requires Counting(m, ms) && r.uops == m.uops && r.lookups == m.lookups && r.hits == m.hits
    requires r.misses == m.misses && r.streaks == m.streaks && r.streak == m.streak
    ensures Counting(r, ms)
  {
    hide Outcomes, Runs, LastRun, UopCount, LookupCount, HitCount;
  }

  lemma FollowedBy(m: Model, ms: seq<Mark>)
    requires Counting(m, ms) && Caching(m, Entries(ms)) && m.build == BuildOf(ms)
    requires m.recovered == Credited(ms) * m.truncSlots.Keys && GroupsUpTo(ms, m.gid)
    ensures Follows(m, ms)
  {
    hide Counting, Caching, BuildOf, Credited, GroupsUpTo, Entries;
  }

  /** any other is built further. */
  lemma PartFollows(m: Model, ms: seq<Mark>, x: Mark, u: Entry)
    requires Shaped(m) && x.Uop? && u == Latest(ms + [x]) != [] && !Whole(u)
    requires Counting(m, ms + [x]) && Caching(m, Entries(ms)) && GroupsUpTo(ms + [x], m.gid)
    requires m.recovered == Credited(ms) * m.truncSlots.Keys
    requires m.build == Some(Build(HeadOf(u), |u|, LatestHit(ms + [x]), GroupsOf(u)))
    ensures Follows(m, ms + [x])
  {
    hide *;
    OneMoreUop(ms, x);
    assert Entries(ms) + [] == Entries(ms);
    BuildPart(ms + [x]);
    FollowedBy(m, ms + [x]);
  }

  lemma BuildPart(ms: seq<Mark>)
    requires Latest(ms) != [] && !Whole(Latest(ms))
    ensures var u := Latest(ms); BuildOf(ms) == Some(Build(HeadOf(u), |u|, LatestHit(ms), GroupsOf(u)))
  {
    hide Whole, Latest, LatestHit, GroupsOf, HeadOf;
  }

  /** One slot is one more uop. */
  lemma SlotFollows(m: Model, ms: seq<Mark>, x: Mark)
    requires Shaped(m) && Follows(m, ms) && x.Uop? && x.group == m.gid >= 1
    ensures var r := Slot(m, x.pc, x.insn); Follows(r, ms + [x]) && r.gid == m.gid
  {
    var r := Extended(m, x.pc);
    ExtendsCounting(m, ms, x);
    var u := Latest(ms + [x]);
    EndsWhole(r, u, x);
    UopAdded(ms, x, m.gid);
    SameSets(m, r, Entries(ms));
    if Whole(u) {
      WholeFollows(r, ms, x, u);
    } else {
      PartFollows(r, ms, x, u);
    }
    hide Whole, Ends, Extended, Shaped, Seal, Latest, Entries;
    hide Counting, Caching, Credited, GroupsUpTo, BuildOf, Follows;
  }

  lemma SameSets(m: Model, r: Model, us: seq<Entry>)
    requires Caching(m, us) && Shaped(m)
    requires r == m.(uops := r.uops, lookups := r.lookups, hits := r.hits, misses := r.misses,
                     streaks := r.streaks, streak := r.streak, build := r.build)
    ensures Caching(r, us) && Shaped(r)
  {
    hide Replay, Heads, Installs, Evictions, SetOf;
  }

  lemma UopAdded(ms: seq<Mark>, x: Mark, g: nat)
    requires GroupsUpTo(ms, g) && x.Uop? && 1 <= x.group <= g
    ensures GroupsUpTo(ms + [x], g)
  {
  }

  lemma RecoverableIs(gids: set<nat>, slots: map<nat, nat>)
    ensures Recoverable(gids, slots) == gids * slots.Keys
  {
  }

  lemma FlushFollows(m: Model, ms: seq<Mark>)
    requires Shaped(m) && Follows(m, ms)
    ensures Shaped(FlushStep(m)) && Follows(FlushStep(m), ms + [Break]) && FlushStep(m).gid == m.gid
  {
    hide Whole, Replay, SetOf, Installs, Evictions, Heads, Runs, LastRun, UopCount, LookupCount, HitCount;
    hide Latest, LatestHit, Entries, Credited, Outcomes;
    OneMoreBreak(ms);
    OneMoreOutcome(Outcomes(ms), false);
  }

  lemma BeginFollows(m: Model, ms: seq<Mark>, e: Event)
    requires Shaped(m) && Follows(m, ms) && ValidEvent(e) && e.Group?
    ensures Follows(BeginGroup(m, e), ms) && BeginGroup(m, e).gid == m.gid + 1
  {
    LatestWithin(ms);
    hide Whole, Shaped, Replay, SetOf, Installs, Evictions, Heads, Runs, LastRun, UopCount, LookupCount, HitCount;
    hide Latest, LatestHit, Entries, Credited, Outcomes, BuildOf;
    assert m.gid + 1 !in Credited(ms);
  }

  lemma {:induction false} SlotsFollow(m: Model, ms: seq<Mark>, e: Event, n: nat)
    requires Shaped(m) && Follows(m, ms) && ValidEvent(e) && e.Group? && n <= e.n && m.gid >= 1
    ensures Follows(Slots(m, e, n), ms + SlotMarks(e, m.gid, n)) && Slots(m, e, n).gid == m.gid
  {
    hide Follows, Slot, Shaped;
    if n == 0 {
      assert ms + [] == ms;
    } else {
      SlotsFollow(m, ms, e, n - 1);
      var x := Uop(e.pcs[n - 1], e.insns[n - 1], m.gid);
      SlotFollows(Slots(m, e, n - 1), ms + SlotMarks(e, m.gid, n - 1), x);
      assert ms + SlotMarks(e, m.gid, n - 1) + [x] == ms + SlotMarks(e, m.gid, n);
    }
  }

  lemma {:induction false} StepsFollow(events: seq<Event>)
    requires ValidTrace(events)
    ensures Follows(Steps(events), Marks(events)) && Steps(events).gid == GroupCount(events)
  {
    hide Follows, Slots, SlotMarks, Shaped, FlushStep, BeginGroup;
    if events == [] {
      StartFollows();
    } else {
      var before, e := events[..|events| - 1], events[|events| - 1];
      StepsFollow(before);
      if e.Flush? {
        FlushFollows(Steps(before), Marks(before));
      } else {
        BeginFollows(Steps(before), Marks(before), e);
        SlotsFollow(BeginGroup(Steps(before), e), Marks(before), e, e.n);
      }
    }
  }

  lemma StartFollows()
    ensures Follows(Start(), [])
  {
  }

  // ---- groups and their empty slots ----

  function FlushCount(events: seq<Event>): nat {
    if events == [] then 0
    else FlushCount(events[..|events| - 1]) + (if events[|events| - 1].Flush? then 1 else 0)
  }

  /** The slots that a group leaves empty for a reason of the front end. */
  function EmptySlots(e: Event): nat {
    if e.Group? && e.cause in {0, 1, 4, 5} && e.n < 4 then 4 - e.n else 0
  }

  function EmptyTotal(events: seq<Event>): nat {
    if events == [] then 0 else EmptyTotal(events[..|events| - 1]) + EmptySlots(events[|events| - 1])
  }

  /** The empty slots of the groups whose numbers are in `which`. */
  function EmptyIn(events: seq<Event>, which: set<nat>): nat {
    if events == [] then 0
    else
      var before, e := events[..|events| - 1], events[|events| - 1];
      EmptyIn(before, which) + (if GroupCount(before) + 1 in which then EmptySlots(e) else 0)
  }

  ghost predicate SameGroups(m: Model, r: Model) {
    && r.groups == m.groups && r.flushes == m.flushes && r.gid == m.gid
    && r.truncated == m.truncated && r.truncSlots == m.truncSlots
  }

  lemma SealKeepsGroups(m: Model)
    requires Shaped(m)
    ensures SameGroups(m, Seal(m))
  {
    hide Shaped, SealedSet, FindFrom, FirstFree, HeadIndex, HeadTag, Recoverable;
  }

  lemma SlotKeepsGroups(m: Model, pc: nat, insn: nat)
    requires Shaped(m)
    ensures SameGroups(m, Slot(m, pc, insn))
  {
    SealKeepsGroups(Extended(m, pc));
    hide Shaped, Seal, Resident, Ends;
  }

  lemma {:induction false} SlotsKeepGroups(m: Model, e: Event, n: nat)
    requires Shaped(m) && ValidEvent(e) && e.Group? && n <= e.n
    ensures SameGroups(m, Slots(m, e, n))
  {
    hide Slot, Shaped;
    if n > 0 {
      SlotsKeepGroups(m, e, n - 1);
      SlotKeepsGroups(Slots(m, e, n - 1), e.pcs[n - 1], e.insns[n - 1]);
    }
  }

  lemma {:induction false} SlotSumBeyond(slots: map<nat, nat>, which: set<nat>, n: nat, g: nat, v: nat)
    requires n < g
    ensures SlotSum(slots[g := v], which, n) == SlotSum(slots, which, n)
  {
    if n > 0 {
      SlotSumBeyond(slots, which, n - 1, g, v);
    }
  }

  lemma FlushKeepsGroups(m: Model)
    ensures var r := FlushStep(m);
      && r.flushes == m.flushes + 1
      && r == m.(flushes := r.flushes, build := r.build, streaks := r.streaks, streak := r.streak)
  {
  }

  /** One group more. */
  lemma BeginCounts(m: Model, e: Event, which: set<nat>)
    requires Shaped(m) && ValidEvent(e) && e.Group? && m.gid + 1 !in m.truncSlots
    ensures var r := BeginGroup(m, e);
      && r.groups == m.groups + 1 && r.gid == m.gid + 1 && r.flushes == m.flushes
      && r.truncated == m.truncated + EmptySlots(e)
      && SlotSum(r.truncSlots, which, r.gid)
         == SlotSum(m.truncSlots, which, m.gid) + (if r.gid in which then EmptySlots(e) else 0)
      && forall g :: g in r.truncSlots ==> g in m.truncSlots || g == r.gid
  {
    hide Shaped, Increment;
    SlotSumBeyond(m.truncSlots, which, m.gid, m.gid + 1, PER_ENTRY - e.n);
  }

  lemma {:induction false} GroupsFollow(events: seq<Event>, which: set<nat>)
    requires ValidTrace(events)
    ensures var m := Steps(events);
      && m.groups == GroupCount(events) == m.gid && m.flushes == FlushCount(events)
      && m.truncated == EmptyTotal(events)
      && SlotSum(m.truncSlots, which, m.gid) == EmptyIn(events, which)
      && forall g :: g in m.truncSlots ==> g <= m.gid
  {
    hide *;
    if events == [] {
      NoGroupsYet(events, which);
    } else {
      var before, e := events[..|events| - 1], events[|events| - 1];
      ValidParts(events);
      var m := Steps(before);
      GroupsFollow(before, which);
      GroupsNext(events, which);
      if e.Flush? {
        FlushKeepsGroups(m);
      } else {
        BeginCounts(m, e, which);
        SlotsKeepGroups(BeginGroup(m, e), e, e.n);
        SameGroupsMeans(BeginGroup(m, e), Slots(BeginGroup(m, e), e, e.n));
      }
    }
  }

  lemma NoGroupsYet(events: seq<Event>, which: set<nat>)
    requires events == [] && ValidTrace(events)
    ensures var m := Steps(events);
      && m.groups == GroupCount(events) == m.gid && m.flushes == FlushCount(events)
      && m.truncated == EmptyTotal(events)
      && SlotSum(m.truncSlots, which, m.gid) == EmptyIn(events, which) && m.truncSlots == map[]
  {
    hide Plru.Empty, Shaped, Step;
  }

  lemma ValidParts(events: seq<Event>)
    requires ValidTrace(events) && events != []
    ensures ValidTrace(events[..|events| - 1]) && ValidEvent(events[|events| - 1])
  {
    hide ValidEvent;
  }

  lemma SameGroupsMeans(m: Model, r: Model)
    requires SameGroups(m, r)
    ensures r.groups == m.groups && r.flushes == m.flushes && r.gid == m.gid
    ensures r.truncated == m.truncated && r.truncSlots == m.truncSlots
  {
  }

  lemma GroupsNext(events: seq<Event>, which: set<nat>)
    requires ValidTrace(events) && events != []
    ensures var before, e := events[..|events| - 1], events[|events| - 1];
      && ValidTrace(before) && ValidEvent(e)
      && Steps(events) == (if e.Flush? then FlushStep(Steps(before))
                           else Slots(BeginGroup(Steps(before), e), e, e.n))
      && GroupCount(events) == GroupCount(before) + (if e.Group? then 1 else 0)
      && FlushCount(events) == FlushCount(before) + (if e.Flush? then 1 else 0)
      && EmptyTotal(events) == EmptyTotal(before) + EmptySlots(e) && (e.Flush? ==> EmptySlots(e) == 0)
      && EmptyIn(events, which)
         == EmptyIn(before, which) + (if GroupCount(before) + 1 in which then EmptySlots(e) else 0)
  {
    hide Slots, BeginGroup, FlushStep, ValidEvent, Shaped;
  }

  // ---- the end of the trace ----

  predicate Unfinished(ms: seq<Mark>) {
    Latest(ms) != [] && !Whole(Latest(ms))
  }

  /** The heads of all entries: the last one counts, whole or not. */
  function AllHeads(ms: seq<Mark>): seq<nat> {
    Heads(Entries(ms) + (if Unfinished(ms) then [Latest(ms)] else []))
  }

  function AllCredited(ms: seq<Mark>): set<nat> {
    Credited(ms) + (if Unfinished(ms) && LatestHit(ms) then GroupsOf(Latest(ms)) else {})
  }

  function AllRuns(o: seq<bool>): seq<nat> {
    Runs(o) + (if LastRun(o) > 0 then [LastRun(o)] else [])
  }

  /** What the final state counts is what the trace has. */
  ghost predicate Tells(m: Model, events: seq<Event>)
    requires ValidTrace(events)
  {
    var ms := Marks(events);
    var h := AllHeads(ms);
    && m.groups == GroupCount(events) && m.flushes == FlushCount(events) && m.uops == UopCount(ms)
    && m.entries == |h| && m.known == SetOf(h) && m.sets == Replay(h)
    && m.installs == Installs(h) && m.evicts == Evictions(h)
    && m.lookups == LookupCount(ms) && m.hits == HitCount(ms) && m.misses == LookupCount(ms) - HitCount(ms)
    && m.streaks == AllRuns(Outcomes(ms))
    && m.truncated == EmptyTotal(events) && RecoveredSlots(m) == EmptyIn(events, AllCredited(ms))
  }

  lemma FinishFollows(m: Model, ms: seq<Mark>)
    requires Shaped(m) && Follows(m, ms)
    ensures var r := Finish(m);
      && Caching(r, Entries(ms) + (if Unfinished(ms) then [Latest(ms)] else []))
      && r.recovered == AllCredited(ms) * m.truncSlots.Keys
      && r.uops == UopCount(ms) && r.lookups == LookupCount(ms) && r.hits == HitCount(ms)
      && r.hits + r.misses == r.lookups && r.streaks == AllRuns(Outcomes(ms))
      && r.groups == m.groups && r.flushes == m.flushes && r.gid == m.gid
      && r.truncated == m.truncated && r.truncSlots == m.truncSlots
  {
    BuildNone(ms);
    var u := Latest(ms);
    hide Shaped, Whole, Latest, LatestHit, Entries, Credited, Replay, Heads, Installs, Evictions, SetOf, Seal;
    hide Recoverable, GroupsOf, HeadOf, Outcomes, Runs, LastRun, UopCount, LookupCount, HitCount;
    if Unfinished(ms) {
      BuildPart(ms);
      SealCaches(m, Entries(ms), u);
      RecoverableIs(GroupsOf(u), m.truncSlots);
    } else {
      SealNothing(m);
      assert Entries(ms) + [] == Entries(ms);
    }
  }

  lemma SealNothing(m: Model)
    requires Shaped(m) && m.build == None
    ensures Seal(m) == m
  {
  }

  /** The two-pass reading of a trace -- cut it into entries, then replay their heads -- gives
      exactly the counters of the single pass. */
  lemma TraceTold(events: seq<Event>)
    requires ValidTrace(events)
    ensures Tells(Finish(Steps(events)), events)
  {
    hide *;
    var m, ms := Steps(events), Marks(events);
    StepsFollow(events);
    FinishFollows(m, ms);
    var which := AllCredited(ms);
    GroupsFollow(events, which);
    SlotSumSame(m.truncSlots, m.truncSlots, which * m.truncSlots.Keys, which, m.gid);
    RecoveredAre(Finish(m));
    ToldBy(Finish(m), events);
  }

  lemma RecoveredAre(m: Model)
    ensures RecoveredSlots(m) == SlotSum(m.truncSlots, m.recovered, m.gid)
  {
    hide SlotSum;
  }

  lemma ToldBy(m: Model, events: seq<Event>)
    requires ValidTrace(events)
    requires var ms := Marks(events);
      && Caching(m, Entries(ms) + (if Unfinished(ms) then [Latest(ms)] else []))
      && m.uops == UopCount(ms) && m.lookups == LookupCount(ms) && m.hits == HitCount(ms)
      && m.hits + m.misses == m.lookups && m.streaks == AllRuns(Outcomes(ms))
      && m.groups == GroupCount(events) && m.flushes == FlushCount(events) && m.truncated == EmptyTotal(events)
      && RecoveredSlots(m) == EmptyIn(events, AllCredited(ms))
    ensures Tells(m, events)
  {
    hide Marks, AllCredited, AllRuns, Outcomes, UopCount, LookupCount, HitCount, EmptyIn, EmptyTotal, GroupCount;
    hide FlushCount, Replay, Installs, Evictions, SetOf, Latest, Unfinished, Entries, Heads, RecoveredSlots;
  }

  // ---- the entries are the greedy cut ----

  lemma {:induction false} LatestGreedy(ms: seq<Mark>)
    ensures var u := Latest(ms); |u| <= 4 && forall k :: 0 <= k < |u| ==> !Whole(u[..k])
  {
    hide Whole;
    if ms != [] && ms[|ms| - 1].Uop? {
      var v := Latest(ms[..|ms| - 1]);
      LatestGreedy(ms[..|ms| - 1]);
      ShortPart(v);
      NoneWhole();
      var u := Latest(ms);
      forall k | 0 <= k < |u| ensures !Whole(u[..k]) {
        if !Whole(v) {
          assert u[..k] == v[..k];
          assert k == |v| ==> u[..k] == v;
        }
      }
    }
  }

  lemma ShortPart(u: Entry)
    ensures !Whole(u) ==> |u| < 4
  {
  }

  lemma NoneWhole()
    ensures !Whole([])
  {
  }

  /** Every entry is whole, and ends as soon as it is; so it has at most four uops. */
  lemma {:induction false} EntriesGreedy(ms: seq<Mark>)
    ensures forall u <- Entries(ms) :: Whole(u) && |u| <= 4 && forall k :: 0 <= k < |u| ==> !Whole(u[..k])
  {
    hide Whole, Latest;
    if ms != [] {
      EntriesGreedy(ms[..|ms| - 1]);
      LatestGreedy(ms);
    }
  }

  function Joined(us: seq<Entry>): seq<Mark> {
    if us == [] then [] else Joined(us[..|us| - 1]) + us[|us| - 1]
  }

  /** Without a flush, the entries and the unfinished one are all uops in their order. */
  lemma {:induction false} EntriesCover(ms: seq<Mark>)
    requires forall x <- ms :: x.Uop?
    ensures Joined(Entries(ms)) + (if Unfinished(ms) then Latest(ms) else []) == ms
  {
    hide Whole, Joined, Latest, Entries;
    NothingCut();
    if ms != [] {
      var before, x := ms[..|ms| - 1], ms[|ms| - 1];
      assert x in ms && ms == before + [x];
      EntriesCover(before);
      OneMoreUop(before, x);
      var us, v := Entries(before), Latest(before);
      var w := if Whole(v) then [] else v;
      assert before == Joined(us) + w && ms == Joined(us) + (w + [x]);
      JoinedMore(us, w + [x]);
      assert us + [] == us;
    }
  }

  lemma NothingCut()
    ensures Entries([]) == [] && Latest([]) == [] && Joined([]) == [] && !Whole([])
  {
  }

  lemma JoinedMore(us: seq<Entry>, u: Entry)
    ensures Joined(us + [u]) == Joined(us) + u
  {
    assert (us + [u])[..|us|] == us;
  }

  /** A flush drops the unfinished entry, and what follows is cut as if it came first. */
  lemma {:induction false} EntriesAfterFlush(ms: seq<Mark>, ns: seq<Mark>)
    ensures Latest(ms + [Break] + ns) == Latest(ns)
    ensures Entries(ms + [Break] + ns) == Entries(ms) + Entries(ns)
    decreases |ns|
  {
    hide Whole, Latest, Entries;
    NothingCut();
    var all := ms + [Break] + ns;
    if ns == [] {
      assert all == ms + [Break];
      OneMoreBreak(ms);
    } else {
      var before, x := ns[..|ns| - 1], ns[|ns| - 1];
      EntriesAfterFlush(ms, before);
      assert all == ms + [Break] + before + [x] && ns == before + [x];
      if x.Uop? {
        OneMoreUop(before, x);
        OneMoreUop(ms + [Break] + before, x);
      } else {
        OneMoreBreak(before);
        OneMoreBreak(ms + [Break] + before);
      }
    }
  }
}
