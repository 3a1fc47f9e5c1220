/** What a trace leaves behind besides the counters: the histograms of its groups, and for
    each set the ways that were sealed there. */
module UocHistory {
  import opened Plru
  import opened UocModel

  // ---- histograms ----

  /** Groups of a given width, or with a given cause, in a trace. */
  function GroupsOfWidth(events: seq<Event>, n: nat): nat {
    if events == [] then 0
    else
      var e := events[|events| - 1];
      GroupsOfWidth(events[..|events| - 1], n) + Bit(e.Group? && e.n == n)
  }

  function GroupsOfCause(events: seq<Event>, cause: nat): nat {
    if events == [] then 0
    else
      var e := events[|events| - 1];
      GroupsOfCause(events[..|events| - 1], cause) + Bit(e.Group? && e.cause == cause)
  }

  /** The groups and the uops that a width histogram stands for. */
  function Groups(widths: map<nat, nat>): nat {
    Count(widths, 0) + Count(widths, 1) + Count(widths, 2) + Count(widths, 3) + Count(widths, 4)
  }

  function Uops(widths: map<nat, nat>): nat {
    Count(widths, 1) + 2 * Count(widths, 2) + 3 * Count(widths, 3) + 4 * Count(widths, 4)
  }

  lemma SealHistograms(m: Model)
    requires Shaped(m)
    ensures var r := Seal(m);
      r.widths == m.widths && r.causes == m.causes && r.uops == m.uops && r.groups == m.groups
  {
    hide SealedSet, Resident;
  }

  lemma SlotHistograms(m: Model, pc: nat, insn: nat)
    requires Shaped(m)
    ensures var r := Slot(m, pc, insn);
      r.widths == m.widths && r.causes == m.causes && r.uops == m.uops + 1 && r.groups == m.groups
  {
    hide Resident, Shaped, Seal, Ends;
    SealHistograms(Extended(m, pc));
  }

  lemma {:induction false} SlotsHistograms(m: Model, e: Event, n: nat)
    requires Shaped(m) && ValidEvent(e) && e.Group? && n <= e.n
    ensures var r := Slots(m, e, n);
      r.widths == m.widths && r.causes == m.causes && r.uops == m.uops + n && r.groups == m.groups
  {
    hide Slot, Shaped;
    if n > 0 {
      SlotsHistograms(m, e, n - 1);
      SlotHistograms(Slots(m, e, n - 1), e.pcs[n - 1], e.insns[n - 1]);
    }
  }

  lemma IncrementCounts(hist: map<nat, nat>, key: nat)
    ensures forall k :: Count(Increment(hist, key), k) == Count(hist, k) + Bit(k == key)
  {
  }

  lemma IncrementTotals(hist: map<nat, nat>, n: nat)
    requires n <= 4
    ensures Groups(Increment(hist, n)) == Groups(hist) + 1 && Uops(Increment(hist, n)) == Uops(hist) + n
  {
    IncrementCounts(hist, n);
  }

  /** The histograms count the groups of the trace by width and by cause, and the width
      histogram accounts for all groups and all uops. */
  lemma {:induction false} StepsHistograms(events: seq<Event>)
    requires ValidTrace(events)
    ensures var m := Steps(events);
      && (forall n :: Count(m.widths, n) == GroupsOfWidth(events, n))
      && (forall c :: Count(m.causes, c) == GroupsOfCause(events, c))
      && Groups(m.widths) == m.groups && Uops(m.widths) == m.uops
  {
    hide Slots, Shaped, Groups, Uops, Increment;
    if events == [] {
      NoGroups();
    } else {
      var e := events[|events| - 1];
      var m := Steps(events[..|events| - 1]);
      StepsHistograms(events[..|events| - 1]);
      if e.Group? {
        SlotsHistograms(BeginGroup(m, e), e, e.n);
        IncrementCounts(m.widths, e.n);
        IncrementCounts(m.causes, e.cause);
        IncrementTotals(m.widths, e.n);
      }
    }
  }

  lemma NoGroups()
    ensures Groups(map[]) == 0 && Uops(map[]) == 0
  {
  }

  lemma Histograms(events: seq<Event>)
    requires ValidTrace(events)
    ensures var m := Finish(Steps(events));
      && (forall n :: Count(m.widths, n) == GroupsOfWidth(events, n))
      && (forall c :: Count(m.causes, c) == GroupsOfCause(events, c))
      && Groups(m.widths) == m.groups && Uops(m.widths) == m.uops
  {
    StepsHistograms(events);
    SealHistograms(Steps(events));
    hide Steps, Seal, Groups, Uops, Shaped;
  }

  // ---- the ways sealed in each set ----

  type History = seq<seq<Way>>

  /** The way that sealing an entry with this tag touches. */
  function UsedWay(s: Ways, tag: nat): (w: Way)
    requires |s.tags| == 8 && |s.valid| == 8
  {
    var w := FindFrom(s, tag, 0);
    if w >= 0 then w else InstallWay(s)
  }

  lemma SealedTree(s: Ways, tag: nat)
    requires |s.tags| == 8 && |s.valid| == 8
    ensures SealedSet(s, tag).tree == Touch(s.tree, UsedWay(s, tag))
  {
    hide Touch, Victim;
  }

  /** The history after a seal, a slot, the slots of a group, and a trace. */
  function Sealed(m: Model, h: History): (r: History)
    requires Shaped(m) && |h| == SETS
    ensures |r| == SETS
  {
    if m.build.None? then h
    else
      var head := m.build.value.head;
      var i := HeadIndex(head);
      h[i := h[i] + [UsedWay(m.sets[i], HeadTag(head))]]
  }

  function AfterSlot(m: Model, h: History, pc: nat, insn: nat): (r: History)
    requires Shaped(m) && |h| == SETS
    ensures |r| == SETS
  {
    var m2 := Extended(m, pc);
    if Ends(m2, insn) then Sealed(m2, h) else h
  }

  function AfterSlots(m: Model, h: History, e: Event, n: nat): (r: History)
    requires Shaped(m) && ValidEvent(e) && e.Group? && n <= e.n && |h| == SETS
    ensures |r| == SETS
  {
    if n == 0 then h
    else AfterSlot(Slots(m, e, n - 1), AfterSlots(m, h, e, n - 1), e.pcs[n - 1], e.insns[n - 1])
  }

  function HistoryOf(events: seq<Event>): (r: History)
    requires ValidTrace(events)
    ensures |r| == SETS
  {
    if events == [] then seq(SETS, _ => [])
    else
      var before, e := events[..|events| - 1], events[|events| - 1];
      if e.Flush? then HistoryOf(before)
      else AfterSlots(BeginGroup(Steps(before), e), HistoryOf(before), e, e.n)
  }

  /** Every tree is what the touches of its set make of the empty tree. */
  ghost predicate Recalls(m: Model, h: History)
    requires Shaped(m)
  {
    |h| == SETS && forall i :: 0 <= i < SETS ==> m.sets[i].tree == TouchAll(0, h[i])
  }

  lemma TouchOne(h: seq<Way>, w: Way)
    ensures TouchAll(0, h + [w]) == Touch(TouchAll(0, h), w)
  {
    hide Touch;
    assert (h + [w])[..|h + [w]| - 1] == h;
  }

  lemma SealRecalls(m: Model, h: History)
    requires Shaped(m) && Recalls(m, h)
    ensures Recalls(Seal(m), Sealed(m, h))
  {
    if m.build.Some? {
      var head := m.build.value.head;
      var i := HeadIndex(head);
      SealedTree(m.sets[i], HeadTag(head));
      TouchOne(h[i], UsedWay(m.sets[i], HeadTag(head)));
      hide SealedSet, UsedWay, TouchAll, Touch, HeadIndex, HeadTag;
    }
  }

  lemma SlotRecalls(m: Model, h: History, pc: nat, insn: nat)
    requires Shaped(m) && Recalls(m, h)
    ensures Recalls(Slot(m, pc, insn), AfterSlot(m, h, pc, insn))
  {
    var m2 := Extended(m, pc);
    hide Extended, Seal, Sealed, Ends, TouchAll, Shaped;
    assert Recalls(m2, h);
    SealRecalls(m2, h);
  }

  lemma {:induction false} SlotsRecall(m: Model, h: History, e: Event, n: nat)
    requires Shaped(m) && ValidEvent(e) && e.Group? && n <= e.n && |h| == SETS && Recalls(m, h)
    ensures Recalls(Slots(m, e, n), AfterSlots(m, h, e, n))
  {
    hide Slot, AfterSlot, Shaped, Recalls;
    if n > 0 {
      SlotsRecall(m, h, e, n - 1);
      SlotRecalls(Slots(m, e, n - 1), AfterSlots(m, h, e, n - 1), e.pcs[n - 1], e.insns[n - 1]);
    }
  }

  lemma BeginRecalls(m: Model, h: History, e: Event)
    requires Shaped(m) && ValidEvent(e) && Recalls(m, h)
    ensures e.Group? ==> Recalls(BeginGroup(m, e), h)
    ensures e.Flush? ==> Recalls(FlushStep(m), h)
  {
    hide TouchAll;
  }

  lemma {:induction false} StepsRecall(events: seq<Event>)
    requires ValidTrace(events)
    ensures Recalls(Steps(events), HistoryOf(events))
  {
    hide Slots, AfterSlots, Shaped, Recalls, BeginGroup, FlushStep;
    if events == [] {
      StartRecalls();
    } else {
      var before, e := events[..|events| - 1], events[|events| - 1];
      StepsRecall(before);
      BeginRecalls(Steps(before), HistoryOf(before), e);
      if e.Group? {
        SlotsRecall(BeginGroup(Steps(before), e), HistoryOf(before), e, e.n);
      }
    }
  }

  lemma StartRecalls()
    ensures Shaped(Start()) && Recalls(Start(), seq(SETS, _ => []))
  {
  }

  /** At every point of every trace, before slot `n` of a group: the way that the next
      eviction in a set would take is none of the last three ways sealed there. */
  lemma EvictionsSpare(events: seq<Event>, e: Event, n: nat, i: nat, p: nat)
    requires ValidTrace(events) && ValidEvent(e) && e.Group? && n <= e.n && i < SETS
    requires p < |AfterSlots(BeginGroup(Steps(events), e), HistoryOf(events), e, n)[i]|
    ensures var m := Slots(BeginGroup(Steps(events), e), e, n);
      var h := AfterSlots(BeginGroup(Steps(events), e), HistoryOf(events), e, n)[i];
      h[p] == Victim(m.sets[i].tree) ==> |h| - p > 3
  {
    hide Slots, AfterSlots, BeginGroup, Steps, HistoryOf, TouchAll, Victim;
    StepsRecall(events);
    BeginRecalls(Steps(events), HistoryOf(events), e);
    var m0 := BeginGroup(Steps(events), e);
    SlotsRecall(m0, HistoryOf(events), e, n);
    var m, h := Slots(m0, e, n), AfterSlots(m0, HistoryOf(events), e, n)[i];
    assert m.sets[i].tree == TouchAll(0, h);
    if h[p] == Victim(m.sets[i].tree) {
      MinimumLifeSpan(0, h, p);
    }
  }

  /** An eviction takes the victim of the tree and no other way. */
  lemma EvictionTakesVictim(s: Ways, tag: nat)
    requires |s.tags| == 8 && |s.valid| == 8
    requires FindFrom(s, tag, 0) < 0 && FirstFree(s, 0) == -1
    ensures UsedWay(s, tag) == Victim(s.tree)
    ensures forall w :: 0 <= w < 8 && w != Victim(s.tree) ==>
                          SealedSet(s, tag).tags[w] == s.tags[w] && SealedSet(s, tag).valid[w] == s.valid[w]
  {
    hide Victim, Touch;
  }
}
