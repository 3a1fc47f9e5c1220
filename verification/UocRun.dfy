/** `run_model`: the loop over the trace with its mutable counters and sets, proved to
    compute the state machine of UocModel, and so to return counts that agree. */
module UocRun {
  import opened Options
  import opened Plru
  import UocModel
  import opened UocInvariant
  import UocHistory
  import UocSegments

  /** What the report is made from. */
  datatype Report = Report(
    uops: nat, groups: nat, flushes: nat, entries: nat,
    widths: map<nat, nat>, causes: map<nat, nat>,
    installs: nat, evicts: nat, lookups: nat, hits: nat, misses: nat,
    recoveredSlots: nat, recoveredCycles: real, truncated: nat, streaks: seq<nat>,
    distinctPerSet: seq<nat>, finalOcc: seq<nat>, distinctHeads: nat)

  class RunState {
    const sets: seq<PLRUSet>
    var known: set<nat>
    var buildHead: Option<nat>
    var buildUops: nat
    var buildResident: bool
    var buildGids: set<nat>
    var uops: nat
    var groups: nat
    var flushes: nat
    var widths: map<nat, nat>
    var causes: map<nat, nat>
    var installs: nat
    var evicts: nat
    var entries: nat
    var lookups: nat
    var hits: nat
    var misses: nat
    var truncated: nat
    var streaks: seq<nat>
    var streak: nat
    var gid: nat
    var truncSlots: map<nat, nat>
    var recovered: set<nat>

    /** The sets are different objects, and well formed. */
    ghost predicate SetsValid()
      reads sets
    {
      && |sets| == UocModel.SETS
      && (forall i, j :: 0 <= i < j < |sets| ==> sets[i] != sets[j])
      && (forall i :: 0 <= i < |sets| ==> WellFormed(sets[i].View()))
    }

    ghost predicate Valid()
      reads this, sets
    {
      && SetsValid()
      && (buildHead.None? ==> buildUops == 0 && !buildResident && buildGids == {})
      && (buildHead.Some? ==> buildUops > 0)
    }

    ghost function SetViews(): (v: seq<Ways>)
      reads sets
      ensures |v| == |sets| && forall i :: 0 <= i < |sets| ==> v[i] == sets[i].View()
    {
      seq(|sets|, i requires 0 <= i < |sets| reads sets => sets[i].View())
    }

    ghost function BuildView(): Option<UocModel.Build>
      reads this
    {
      if buildHead.None? then None
      else Some(UocModel.Build(buildHead.value, buildUops, buildResident, buildGids))
    }

    /** The whole state as a value. */
    ghost function View(): (m: UocModel.Model)
      reads this, sets
    {
      UocModel.Model(SetViews(), known, BuildView(), uops, groups, flushes, widths, causes, installs, evicts, entries,
                     lookups, hits, misses, truncated, streaks, streak, gid, truncSlots, recovered)
    }

    constructor ()
      ensures Valid() && fresh(this) && fresh(sets) && View() == UocModel.Start()
    {
      var s: seq<PLRUSet> := [];
      while |s| < UocModel.SETS
        invariant |s| <= UocModel.SETS
        invariant forall i :: 0 <= i < |s| ==> fresh(s[i]) && s[i].View() == Empty()
        invariant forall i, j :: 0 <= i < j < |s| ==> s[i] != s[j]
      {
        var p := new PLRUSet();
        s := s + [p];
      }
      sets := s;
      known, buildHead, buildUops, buildResident, buildGids := {}, None, 0, false, {};
      uops, groups, flushes, installs, evicts, entries, lookups, hits, misses := 0, 0, 0, 0, 0, 0, 0, 0, 0;
      widths, causes := map[], map[];
      truncated, streaks, streak, gid, truncSlots, recovered := 0, [], 0, 0, map[], {};
    }

    method ClearBuild()
      requires Valid()
      modifies this`buildHead, this`buildUops, this`buildResident, this`buildGids
      ensures Valid() && View() == old(View()).(build := None)
    {
      hide SetViews, SetsValid;
      buildHead, buildUops, buildResident, buildGids := None, 0, false, {};
    }

    /** Close the current streak of resident deliveries. */
    method EndStreak()
      requires Valid()
      modifies this`streaks, this`streak
      ensures Valid() && View() == UocModel.EndStreak(old(View()))
    {
      hide SetViews, SetsValid;
      if streak > 0 {
        streaks := streaks + [streak];
        streak := 0;
      }
    }

    method FindHead(pc: nat) returns (resident: bool)
      requires Valid()
      ensures Valid() && UocModel.Shaped(View()) && resident == UocModel.Resident(View(), pc)
    {
      var way := sets[UocModel.HeadIndex(pc)].Find(UocModel.HeadTag(pc));
      resident := way >= 0;
    }

    /** The head goes to its set: touched there, or installed. */
    method CacheHead(head: nat)
      requires Valid() && UocModel.Shaped(View())
      modifies sets, this`installs, this`evicts
      ensures Valid() && View() == UocModel.Cached(old(View()), head)
    {
      hide UocModel.HeadIndex, UocModel.HeadTag, UocModel.SealedSet, FindFrom, FirstFree;
      var install, evicted := SealAt(UocModel.HeadIndex(head), UocModel.HeadTag(head));
      hide SetViews, SetsValid;
      if install {
        installs := installs + 1;
      }
      if evicted {
        evicts := evicts + 1;
      }
    }

    method SealAt(idx: nat, tag: nat) returns (install: bool, evicted: bool)
      requires Valid() && idx < UocModel.SETS
      modifies sets[idx]
      ensures Valid() && |SetViews()| == |old(SetViews())| == UocModel.SETS
      ensures WellFormed(old(SetViews())[idx])
      ensures var s := old(SetViews())[idx];
        && SetViews() == old(SetViews())[idx := UocModel.SealedSet(s, tag)]
        && (install <==> FindFrom(s, tag, 0) < 0)
        && (evicted <==> install && FirstFree(s, 0) == -1)
    {
      hide Touch, Victim, FindFrom, FirstFree, UocModel.SealedSet;
      ghost var before := SetViews();
      assert before[idx] == sets[idx].View();
      install, evicted := SealInSet(sets[idx], tag);
      assert SetViews() == before[idx := UocModel.SealedSet(before[idx], tag)];
    }

    static method SealInSet(s: PLRUSet, tag: nat) returns (install: bool, evicted: bool)
      requires WellFormed(s.View())
      modifies s
      ensures WellFormed(s.View()) && s.View() == UocModel.SealedSet(old(s.View()), tag)
      ensures install <==> FindFrom(old(s.View()), tag, 0) < 0
      ensures evicted <==> install && FirstFree(old(s.View()), 0) == -1
    {
      hide Touch, Victim, FindFrom, FirstFree;
      var w := s.Find(tag);
      if w >= 0 {
        s.TouchWay(w);
        install, evicted := false, false;
      } else {
        install := true;
        var _, ev := s.Install(tag);
        evicted := ev;
      }
    }

    /** The groups the sealed entry packs through that left slots empty are recovered. */
    method Recover()
      requires Valid()
      modifies this`recovered
      ensures Valid()
      ensures View() == old(View()).(recovered := old(View()).recovered
                                       + UocModel.Recoverable(buildGids, old(View()).truncSlots))
    {
      var todo := buildGids;
      ghost var done := {};
      while todo != {}
        invariant done + todo == buildGids
        invariant recovered == old(recovered) + UocModel.Recoverable(done, truncSlots)
        decreases todo
      {
        var g :| g in todo;
        if g in truncSlots {
          recovered := recovered + {g};
        }
        todo := todo - {g};
        done := done + {g};
      }
      assert SetViews() == old(SetViews());
    }

    method Seal()
      requires Valid() && UocModel.Shaped(View())
      modifies this, sets
      ensures Valid() && View() == UocModel.Seal(old(View()))
    {
      ViewBuild();
      hide View, Valid, UocModel.Shaped, UocModel.Cached, UocModel.Recorded, UocModel.Credited;
      if buildHead.None? {
        return;
      }
      var head := buildHead.value;
      CacheHead(head);
      Remember(head);
      ViewBuild();
      RecoverAndClear();
    }

    method RecoverAndClear()
      requires Valid() && buildHead.Some? && View().build.Some?
      modifies this`recovered, this`buildHead, this`buildUops, this`buildResident, this`buildGids
      ensures Valid() && View() == UocModel.Credited(old(View()))
    {
      ViewBuild();
      hide View, Valid, UocModel.Recoverable;
      if buildResident {
        Recover();
      }
      ClearBuild();
    }

    method Remember(head: nat)
      requires Valid()
      modifies this`known, this`entries
      ensures Valid() && View() == UocModel.Recorded(old(View()), head)
    {
      hide SetViews, SetsValid;
      known := known + {head};
      entries := entries + 1;
    }

    method Flush()
      requires Valid()
      modifies this
      ensures Valid() && View() == UocModel.FlushStep(old(View()))
    {
      flushes := flushes + 1;
      assert SetViews() == old(SetViews());
      ClearBuild();
      EndStreak();
    }

    /** Count the lookup of a head that was sealed before. */
    method CountLookup(resident: bool)
      requires Valid()
      modifies this`lookups, this`hits, this`misses, this`streak, this`streaks
      ensures Valid() && View() == UocModel.Looked(old(View()), resident)
    {
      hide SetViews, SetsValid;
      lookups := lookups + 1;
      if resident {
        hits := hits + 1;
        streak := streak + 1;
      } else {
        misses := misses + 1;
        EndStreak();
      }
    }

    method SetBuild(pc: nat, resident: bool)
      requires Valid()
      modifies this`buildHead, this`buildUops, this`buildResident, this`buildGids
      ensures Valid() && buildHead == Some(pc)
      ensures View() == UocModel.Opened(old(View()), pc, resident)
    {
      hide SetViews, SetsValid;
      buildHead, buildUops, buildResident, buildGids := Some(pc), 1, resident, {gid};
    }

    method Open(pc: nat)
      requires Valid() && UocModel.Shaped(View())
      modifies this
      ensures Valid() && View() == UocModel.Open(old(View()), pc)
    {
      ViewKnown(pc);
      hide View, Valid, UocModel.Resident, UocModel.Looked, UocModel.Opened, UocModel.Shaped;
      var resident := FindHead(pc);
      var isKnown := pc in known;
      if isKnown {
        CountLookup(resident);
      }
      SetBuild(pc, resident && isKnown);
    }

    lemma ViewKnown(pc: nat)
      requires Valid()
      ensures pc in known <==> pc in View().known
    {
    }

    method ExtendBuild()
      requires Valid() && buildHead.Some?
      modifies this`buildUops, this`buildGids
      ensures Valid()
      ensures var m := old(View()); var b := m.build.value;
        m.build.Some? && View() == m.(build := Some(b.(uops := b.uops + 1, gids := b.gids + {m.gid})))
    {
      hide SetViews, SetsValid;
      buildUops := buildUops + 1;
      buildGids := buildGids + {gid};
    }

    method CountUop()
      requires Valid()
      modifies this`uops
      ensures Valid() && View() == old(View()).(uops := old(View()).uops + 1)
    {
      hide SetViews, SetsValid;
      uops := uops + 1;
    }

    lemma ViewBuild()
      requires Valid()
      ensures UocModel.Shaped(View()) && View().build == BuildView()
      ensures buildHead.None? <==> View().build.None?
      ensures buildHead.Some? ==> View().build.value.head == buildHead.value && View().build.value.uops == buildUops
      ensures buildHead.Some? ==> View().build.value.resident == buildResident && View().build.value.gids == buildGids
    {
    }

    method Extend(pc: nat)
      requires Valid()
      modifies this
      ensures Valid() && UocModel.Shaped(old(View())) && View() == UocModel.Extended(old(View()), pc)
    {
      ViewBuild();
      hide View, SetViews, Valid, UocModel.Shaped, UocModel.Open;
      CountUop();
      if buildHead.None? {
        Open(pc);
      } else {
        ExtendBuild();
      }
    }

    method Slot(pc: nat, insn: nat)
      requires Valid()
      modifies this, sets
      ensures Valid() && UocModel.Shaped(old(View())) && View() == UocModel.Slot(old(View()), pc, insn)
    {
      ViewBuild();
      hide View, SetViews, Valid, UocModel.Shaped, UocModel.Seal, UocModel.Extended, UocModel.ClassifyInsn;
      var kind := UocModel.ClassifyInsn(insn);
      Extend(pc);
      ViewBuild();
      if kind.Indirect? || kind.Serializing? || buildUops >= UocModel.PER_ENTRY {
        Seal();
      }
    }

    method CountGroup(n: nat, cause: nat)
      requires Valid()
      modifies this`groups, this`gid, this`widths, this`causes
      ensures Valid()
      ensures var m := old(View());
        View() == m.(groups := m.groups + 1, gid := m.gid + 1,
                     widths := UocModel.Increment(m.widths, n), causes := UocModel.Increment(m.causes, cause))
    {
      hide SetViews, SetsValid, UocModel.Increment;
      groups := groups + 1;
      widths := UocModel.Increment(widths, n);
      causes := UocModel.Increment(causes, cause);
      gid := gid + 1;
    }

    method CountEmpty(empty: nat)
      requires Valid()
      modifies this`truncated, this`truncSlots
      ensures Valid()
      ensures var m := old(View());
        View() == m.(truncated := m.truncated + empty, truncSlots := m.truncSlots[m.gid := empty])
    {
      hide SetViews, SetsValid;
      truncated := truncated + empty;
      truncSlots := truncSlots[gid := empty];
    }

    method BeginGroup(e: UocModel.Event)
      requires Valid() && UocModel.ValidEvent(e) && e.Group?
      modifies this`groups, this`gid, this`widths, this`causes, this`truncated, this`truncSlots
      ensures Valid() && UocModel.Shaped(old(View())) && View() == UocModel.BeginGroup(old(View()), e)
    {
      ViewBuild();
      hide View, Valid, UocModel.Shaped, UocModel.Increment;
      CountGroup(e.n, e.cause);
      if UocModel.Truncating(e) {
        CountEmpty(UocModel.PER_ENTRY - e.n);
      }
    }

    method Group(e: UocModel.Event)
      requires Valid() && UocModel.ValidEvent(e) && e.Group?
      modifies this, sets
      ensures Valid() && UocModel.Shaped(old(View())) && View() == UocModel.Step(old(View()), e)
    {
      ghost var m := View();
      BeginGroup(e);
      hide View, SetViews, Valid, UocModel.Shaped, UocModel.Slot, UocModel.BeginGroup;
      ghost var m1 := View();
      for slot := 0 to e.n
        invariant Valid() && UocModel.Shaped(m1) && View() == UocModel.Slots(m1, e, slot)
      {
        Slot(e.pcs[slot], e.insns[slot]);
      }
    }

    method Finish()
      requires Valid()
      modifies this, sets
      ensures Valid() && UocModel.Shaped(old(View())) && View() == UocModel.Finish(old(View()))
    {
      ViewBuild();
      hide View, SetViews, Valid, UocModel.Shaped, UocModel.Seal, UocModel.EndStreak;
      Seal();
      EndStreak();
    }
  }

  /** The number of valid ways of a set. */
  method CountValid(s: PLRUSet) returns (n: nat)
    requires WellFormed(s.View())
    ensures n == UocModel.Occupancy(s.View(), 8)
  {
    n := 0;
    for w := 0 to 8
      invariant n == UocModel.Occupancy(s.View(), w)
    {
      if s.valid[w] {
        n := n + 1;
      }
    }
  }

  method SumSlots(state: RunState) returns (n: nat)
    ensures n == UocModel.SlotSum(state.truncSlots, state.recovered, state.gid)
  {
    n := 0;
    for g := 0 to state.gid
      invariant n == UocModel.SlotSum(state.truncSlots, state.recovered, g)
    {
      if g + 1 in state.recovered && g + 1 in state.truncSlots {
        n := n + state.truncSlots[g + 1];
      }
    }
  }

  /** The final occupancy of each set, and how many distinct heads it has seen. */
  method PerSet(state: RunState) returns (occ: seq<nat>, distinct: seq<nat>)
    requires state.Valid()
    ensures |occ| == |distinct| == UocModel.SETS
    ensures forall i :: 0 <= i < UocModel.SETS ==>
      distinct[i] == |UocModel.TagsSeen(state.known, i)| && occ[i] == UocModel.Occupancy(state.SetViews()[i], 8)
  {
    hide UocModel.Occupancy, UocModel.TagsSeen;
    occ, distinct := [], [];
    for i := 0 to UocModel.SETS
      invariant |occ| == |distinct| == i
      invariant forall k :: 0 <= k < i ==>
        distinct[k] == |UocModel.TagsSeen(state.known, k)| && occ[k] == UocModel.Occupancy(state.SetViews()[k], 8)
    {
      assert state.SetViews()[i] == state.sets[i].View();
      var n := CountValid(state.sets[i]);
      occ := occ + [n];
      distinct := distinct + [|UocModel.TagsSeen(state.known, i)|];
    }
  }

  lemma {:induction false} OccupancySum(sets: seq<Ways>, occ: seq<nat>)
    requires |sets| == |occ| && forall i :: 0 <= i < |sets| ==> |sets[i].valid| == 8
    requires forall i :: 0 <= i < |sets| ==> occ[i] == UocModel.Occupancy(sets[i], 8)
    ensures UocModel.SumSeq(occ) == UocModel.TotalOccupancy(sets)
  {
    hide UocModel.Occupancy;
    if sets != [] {
      OccupancySum(sets[..|sets| - 1], occ[..|occ| - 1]);
    }
  }

  /** The report says what the state machine computed. */
  ghost predicate Reports(r: Report, m: UocModel.Model) {
    CountersReported(r, m) && SetsReported(r, m)
  }

  ghost predicate CountersReported(r: Report, m: UocModel.Model) {
    && r.uops == m.uops && r.groups == m.groups && r.flushes == m.flushes && r.entries == m.entries
    && r.widths == m.widths && r.causes == m.causes
    && r.installs == m.installs && r.evicts == m.evicts
    && r.lookups == m.lookups && r.hits == m.hits && r.misses == m.misses
    && r.recoveredSlots == UocModel.RecoveredSlots(m) && r.truncated == m.truncated && r.streaks == m.streaks
    && r.distinctHeads == |m.known|
  }

  ghost predicate SetsReported(r: Report, m: UocModel.Model) {
    && |r.finalOcc| == |r.distinctPerSet| == UocModel.SETS
    && (forall i :: 0 <= i < UocModel.SETS ==> r.distinctPerSet[i] == |UocModel.TagsSeen(m.known, i)|)
    && UocModel.Shaped(m)
    && (forall i :: 0 <= i < UocModel.SETS ==> r.finalOcc[i] == UocModel.Occupancy(m.sets[i], 8))
  }

  /** The promises about any report, whatever the trace. */
  ghost predicate Consistent(r: Report) {
    Balanced(r) && CapacityTold(r)
  }

  ghost predicate Balanced(r: Report) {
    && r.lookups == r.hits + r.misses
    && UocModel.SumSeq(r.streaks) == r.hits
    && UocModel.SumSeq(r.finalOcc) + r.evicts == r.installs
    && r.distinctHeads <= r.installs <= r.distinctHeads + r.misses
    && r.recoveredCycles * 4.0 == r.recoveredSlots as real
    && r.recoveredSlots <= r.truncated && r.truncated + r.uops <= 4 * r.groups
    && UocHistory.Groups(r.widths) == r.groups && UocHistory.Uops(r.widths) == r.uops
  }

  ghost predicate CapacityTold(r: Report) {
    && (r.evicts == 0 <==> forall i :: 0 <= i < |r.distinctPerSet| ==> r.distinctPerSet[i] <= 8)
    && (r.evicts == 0 ==> r.misses == 0 && r.installs == r.distinctHeads)
  }

  lemma CapacityReported(events: seq<UocModel.Event>, r: Report)
    requires UocModel.ValidTrace(events) && Reports(r, UocModel.Finish(UocModel.Steps(events)))
    ensures CapacityTold(r)
  {
    hide UocModel.Finish, UocModel.Steps, UocModel.TagsSeen, UocModel.Occupancy, UocModel.RecoveredSlots;
    Capacity(events);
  }

  lemma OccupancyReported(r: Report, m: UocModel.Model)
    requires SetsReported(r, m) && UocModel.Shaped(m)
    ensures UocModel.SumSeq(r.finalOcc) == UocModel.TotalOccupancy(m.sets)
  {
    hide UocModel.Occupancy, UocModel.TagsSeen, UocModel.TotalOccupancy, UocModel.SumSeq;
    OccupancySum(m.sets, r.finalOcc);
  }

  lemma ReportsConsistently(events: seq<UocModel.Event>, r: Report)
    requires UocModel.ValidTrace(events) && Reports(r, UocModel.Finish(UocModel.Steps(events)))
    requires r.recoveredCycles == r.recoveredSlots as real / 4.0
    ensures Consistent(r)
  {
    CapacityReported(events, r);
    OccupancyReported(r, UocModel.Finish(UocModel.Steps(events)));
    hide UocModel.Finish, UocModel.Steps, UocModel.TagsSeen, UocModel.TotalOccupancy, UocModel.Shaped;
    hide UocModel.RecoveredSlots, UocModel.SumSeq, UocHistory.Groups, UocHistory.Uops, SetsReported, CapacityTold;
    Accounting(events);
    UocHistory.Histograms(events);
  }

  /** The report says what the trace has, cut into entries and replayed. */
  ghost predicate Told(r: Report, events: seq<UocModel.Event>)
    requires UocModel.ValidTrace(events)
  {
    var ms := UocSegments.Marks(events);
    var h := UocSegments.AllHeads(ms);
    && r.uops == UocSegments.UopCount(ms) && r.groups == UocSegments.GroupCount(events)
    && r.flushes == UocSegments.FlushCount(events) && r.truncated == UocSegments.EmptyTotal(events)
    && (forall n :: UocModel.Count(r.widths, n) == UocHistory.GroupsOfWidth(events, n))
    && (forall c :: UocModel.Count(r.causes, c) == UocHistory.GroupsOfCause(events, c))
    && r.entries == |h| && r.distinctHeads == |UocSegments.SetOf(h)|
    && r.installs == UocSegments.Installs(h) && r.evicts == UocSegments.Evictions(h)
    && r.lookups == UocSegments.LookupCount(ms) && r.hits == UocSegments.HitCount(ms)
    && r.misses == UocSegments.LookupCount(ms) - UocSegments.HitCount(ms)
    && r.streaks == UocSegments.AllRuns(UocSegments.Outcomes(ms))
    && r.recoveredSlots == UocSegments.EmptyIn(events, UocSegments.AllCredited(ms))
    && |r.finalOcc| == |r.distinctPerSet| == 32
    && (forall i :: 0 <= i < 32 ==> r.finalOcc[i] == UocModel.Occupancy(UocSegments.Replay(h)[i], 8))
    && (forall i :: 0 <= i < 32 ==> r.distinctPerSet[i] == |UocModel.TagsSeen(UocSegments.SetOf(h), i)|)
  }

  lemma ReportTold(events: seq<UocModel.Event>, r: Report)
    requires UocModel.ValidTrace(events) && Reports(r, UocModel.Finish(UocModel.Steps(events)))
    ensures Told(r, events)
  {
    UocSegments.TraceTold(events);
    UocHistory.Histograms(events);
    hide UocModel.Finish, UocModel.Steps, UocModel.Occupancy, UocModel.TagsSeen, UocModel.RecoveredSlots;
    hide UocSegments.Replay, UocSegments.SetOf, UocSegments.Installs, UocSegments.Evictions, UocSegments.AllHeads;
    hide UocSegments.Marks, UocSegments.Outcomes, UocSegments.AllRuns, UocSegments.AllCredited, UocSegments.EmptyIn;
    hide UocSegments.LookupCount, UocSegments.HitCount, UocSegments.UopCount, UocSegments.EmptyTotal;
    hide UocSegments.GroupCount, UocSegments.FlushCount, UocHistory.GroupsOfWidth, UocHistory.GroupsOfCause;
  }

  /** `run_model` */
  method RunModel(events: seq<UocModel.Event>) returns (r: Report)
    requires UocModel.ValidTrace(events)
    ensures Told(r, events) && Consistent(r)
    ensures Reports(r, UocModel.Finish(UocModel.Steps(events)))
    ensures r.recoveredCycles == r.recoveredSlots as real / 4.0
  {
    var state := Replay(events);
    var recovered := SumSlots(state);
    var occ, distinct := PerSet(state);
    hide UocModel.Finish, UocModel.Steps, Consistent, Told;
    r := Report(state.uops, state.groups, state.flushes, state.entries, state.widths, state.causes,
                state.installs, state.evicts, state.lookups, state.hits, state.misses,
                recovered, recovered as real / 4.0, state.truncated, state.streaks,
                distinct, occ, |state.known|);
    ReportTold(events, r);
    ReportsConsistently(events, r);
  }

  /** The loop over the events. */
  method Replay(events: seq<UocModel.Event>) returns (state: RunState)
    requires UocModel.ValidTrace(events)
    ensures state.Valid() && state.View() == UocModel.Finish(UocModel.Steps(events))
  {
    hide RunState.View, RunState.SetViews, RunState.Valid, UocModel.Step, UocModel.Shaped, UocModel.Finish;
    state := new RunState();
    for i := 0 to |events|
      invariant fresh(state) && fresh(state.sets)
      invariant state.Valid() && state.View() == UocModel.Steps(events[..i])
    {
      assert events[..i + 1][..i] == events[..i];
      ReplayOne(state, events[i]);
    }
    assert events[..|events|] == events;
    state.Finish();
  }

  method ReplayOne(state: RunState, e: UocModel.Event)
    requires state.Valid() && UocModel.ValidEvent(e)
    modifies state, state.sets
    ensures state.Valid() && UocModel.Shaped(old(state.View()))
    ensures state.View() == UocModel.Step(old(state.View()), e)
  {
    state.ViewBuild();
    hide RunState.View, RunState.SetViews, RunState.Valid;
    hide UocModel.Slots, UocModel.BeginGroup, UocModel.FlushStep, UocModel.Shaped;
    if e.Flush? {
      state.Flush();
    } else {
      state.Group(e);
    }
  }
}
