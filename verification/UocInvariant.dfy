/** What the uop-cache model keeps on every trace, and the theorems about its final counts. */
module UocInvariant {
  import opened Options
  import opened Plru
  import opened UocModel

  // ---- one set ----

  /** Valid ways hold pairwise different tags. */
  ghost predicate TagsUnique(s: Ways) {
    && |s.tags| == 8 && |s.valid| == 8
    && (forall w :: 0 <= w < 8 && s.valid[w] ==> s.tags[w].Some?)
    && forall v, w :: 0 <= v < w < 8 && s.valid[v] && s.valid[w] ==> s.tags[v] != s.tags[w]
  }

  /** Tags held by the valid ways below `n`. */
  ghost function TagsBelow(s: Ways, n: nat): set<nat>
    requires |s.tags| == 8 && |s.valid| == 8 && n <= 8
  {
    set w | 0 <= w < n && s.valid[w] && s.tags[w].Some? :: s.tags[w].value
  }

  ghost function ResidentTags(s: Ways): set<nat>
    requires |s.tags| == 8 && |s.valid| == 8
  {
    TagsBelow(s, 8)
  }

  lemma {:induction false} OccupancyCountsTags(s: Ways, n: nat)
    requires TagsUnique(s) && n <= 8
    ensures |TagsBelow(s, n)| == Occupancy(s, n) <= n
    ensures (forall w :: 0 <= w < n ==> s.valid[w]) ==> Occupancy(s, n) == n
  {
    if n > 0 {
      OccupancyCountsTags(s, n - 1);
      TagsBelowStep(s, n - 1);
      hide TagsBelow, TagsUnique;
    }
  }

  lemma TagsBelowStep(s: Ways, n: nat)
    requires TagsUnique(s) && n < 8
    ensures TagsBelow(s, n + 1) == TagsBelow(s, n) + (if s.valid[n] then {s.tags[n].value} else {})
    ensures s.valid[n] ==> s.tags[n].value !in TagsBelow(s, n)
  {
  }

  lemma FindIsResident(s: Ways, tag: nat)
    requires TagsUnique(s)
    ensures FindFrom(s, tag, 0) >= 0 <==> tag in ResidentTags(s)
  {
    var r := FindFrom(s, tag, 0);
    if tag in ResidentTags(s) {
      var w :| 0 <= w < 8 && s.valid[w] && s.tags[w].Some? && s.tags[w].value == tag;
    }
    if r >= 0 {
      assert s.tags[r].value in ResidentTags(s);
    }
  }

  lemma {:induction false} OccupancyUpdate(s: Ways, t: Ways, w: Way, n: nat)
    requires |s.valid| == 8 && t.valid == s.valid[w := true] && n <= 8
    ensures Occupancy(t, n) == Occupancy(s, n) + Bit(w < n && !s.valid[w])
  {
    if n > 0 {
      OccupancyUpdate(s, t, w, n - 1);
    }
  }

  /** Sealing an entry keeps the tags unique; it adds the tag, evicting only from a full set. */
  lemma SealedSetFacts(s: Ways, tag: nat)
    requires TagsUnique(s)
    ensures var r := SealedSet(s, tag); var install := FindFrom(s, tag, 0) < 0;
      var evict := install && FirstFree(s, 0) == -1;
      && TagsUnique(r)
      && tag in ResidentTags(r) && ResidentTags(r) <= ResidentTags(s) + {tag}
      && (!evict ==> ResidentTags(r) == ResidentTags(s) + {tag})
      && (evict ==> |ResidentTags(s)| == 8 && tag !in ResidentTags(s))
      && Occupancy(r, 8) + Bit(evict) == Occupancy(s, 8) + Bit(install)
  {
    hide Touch, Victim;
    var r := SealedSet(s, tag);
    FindIsResident(s, tag);
    if FindFrom(s, tag, 0) >= 0 {
      SameTags(s, r, 8);
    } else {
      var w := InstallWay(s);
      OccupancyUpdate(s, r, w, 8);
      InstalledTags(s, tag);
      OccupancyCountsTags(s, 8);
    }
  }

  lemma {:induction false} SameTags(s: Ways, r: Ways, n: nat)
    requires |s.tags| == 8 && |s.valid| == 8 && r.tags == s.tags && r.valid == s.valid && n <= 8
    ensures TagsBelow(s, n) == TagsBelow(r, n) && Occupancy(s, n) == Occupancy(r, n)
  {
    if n > 0 {
      SameTags(s, r, n - 1);
    }
  }

  lemma InstalledTags(s: Ways, tag: nat)
    requires TagsUnique(s) && tag !in ResidentTags(s)
    ensures var r := Installed(s, tag);
      && TagsUnique(r)
      && tag in ResidentTags(r) && ResidentTags(r) <= ResidentTags(s) + {tag}
      && (FirstFree(s, 0) >= 0 ==> ResidentTags(r) == ResidentTags(s) + {tag})
  {
    hide Touch, Victim;
    var r := Installed(s, tag);
    var w := InstallWay(s);
    assert r.tags[w] == Some(tag) && r.valid[w];
    forall v | 0 <= v < 8 && s.valid[v] ensures s.tags[v].value in ResidentTags(s) {
    }
    forall t | t in ResidentTags(r) ensures t in ResidentTags(s) + {tag} {
      var v :| 0 <= v < 8 && r.valid[v] && r.tags[v].Some? && r.tags[v].value == t;
    }
    if FirstFree(s, 0) >= 0 {
      forall t | t in ResidentTags(s) ensures t in ResidentTags(r) {
        var v :| 0 <= v < 8 && s.valid[v] && s.tags[v].Some? && s.tags[v].value == t;
        assert r.tags[v] == s.tags[v] && r.valid[v];
      }
    }
  }

  // ---- the cache invariant ----

  /** Set `i` holds only tags of heads sealed before, and all of them as long as there are
      no more than eight. */
  ghost predicate SetInv(s: Ways, seen: set<nat>) {
    && TagsUnique(s)
    && ResidentTags(s) <= seen
    && (ResidentTags(s) == seen || |seen| > 8)
  }

  ghost predicate Crowded(known: set<nat>, i: nat) {
    |TagsSeen(known, i)| > WAYS
  }

  ghost predicate CacheInv(m: Model) {
    && Shaped(m)
    && (forall h <- m.known :: h % 2 == 0)
    && (forall i :: 0 <= i < SETS ==> SetInv(m.sets[i], TagsSeen(m.known, i)))
    && (m.evicts == 0 ==> forall i :: 0 <= i < SETS ==> ResidentTags(m.sets[i]) == TagsSeen(m.known, i))
    && (m.evicts > 0 ==> exists i :: 0 <= i < SETS && Crowded(m.known, i))
    && TotalOccupancy(m.sets) + m.evicts == m.installs
  }

  lemma TagsSeenGrow(known: set<nat>, h: nat, i: nat)
    ensures TagsSeen(known + {h}, i) == TagsSeen(known, i) + (if HeadIndex(h) == i then {HeadTag(h)} else {})
  {
    hide HeadIndex, HeadTag;
    var r := TagsSeen(known, i) + (if HeadIndex(h) == i then {HeadTag(h)} else {});
    forall t | t in r ensures t in TagsSeen(known + {h}, i) {
      if t in TagsSeen(known, i) {
        var g :| g in known && HeadIndex(g) == i && HeadTag(g) == t;
        assert g in known + {h};
      } else {
        assert h in known + {h};
      }
    }
  }

  lemma {:induction false} TotalOccupancyUpdate(sets: seq<Ways>, i: nat, s: Ways)
    requires i < |sets| && |s.valid| == 8 && forall k :: 0 <= k < |sets| ==> |sets[k].valid| == 8
    ensures TotalOccupancy(sets[i := s]) + Occupancy(sets[i], 8) == TotalOccupancy(sets) + Occupancy(s, 8)
  {
    hide Occupancy;
    var n := |sets| - 1;
    if i < n {
      TotalOccupancyUpdate(sets[..n], i, s);
      assert sets[i := s][..n] == sets[..n][i := s];
    } else {
      assert sets[i := s][..n] == sets[..n];
    }
  }

  lemma SetGrows(s: set<nat>, t: set<nat>)
    requires s <= t
    ensures |s| <= |t|
    ensures |s| == |t| ==> s == t
  {
    assert t == s + (t - s);
    assert |t| == |s| + |t - s|;
  }

  /** What sealing does to one set and the tags seen there. */
  lemma SealKeepsSet(s: Ways, seen: set<nat>, tag: nat)
    requires SetInv(s, seen)
    ensures var evict := FindFrom(s, tag, 0) < 0 && FirstFree(s, 0) == -1;
      && SetInv(SealedSet(s, tag), seen + {tag})
      && (evict ==> |seen + {tag}| > WAYS)
      && (!evict && ResidentTags(s) == seen ==> ResidentTags(SealedSet(s, tag)) == seen + {tag})
  {
    SealedSetFacts(s, tag);
    SetGrows(seen, seen + {tag});
    SetGrows(ResidentTags(s), seen);
    if tag !in seen {
      assert |seen + {tag}| == |seen| + 1;
    }
  }

  lemma SealKeepsSets(m: Model, i: nat)
    requires CacheInv(m) && m.build.Some? && i < SETS
    ensures var r := Seal(m);
      && SetInv(r.sets[i], TagsSeen(r.known, i))
      && (r.evicts == 0 ==> ResidentTags(r.sets[i]) == TagsSeen(r.known, i))
      && (Crowded(m.known, i) ==> Crowded(r.known, i))
      && (i == HeadIndex(m.build.value.head) && r.evicts > m.evicts ==> Crowded(r.known, i))
  {
    hide SealedSet, TagsUnique, ResidentTags, HeadIndex, HeadTag, TotalOccupancy, Occupancy, SetInv, TagsSeen;
    var h := m.build.value.head;
    TagsSeenGrow(m.known, h, i);
    SetGrows(TagsSeen(m.known, i), TagsSeen(Seal(m).known, i));
    assert TagsSeen(m.known, i) + {} == TagsSeen(m.known, i);
    if i == HeadIndex(h) {
      SetInvUnique(m.sets[i], TagsSeen(m.known, i));
      SealKeepsSet(m.sets[i], TagsSeen(m.known, i), HeadTag(h));
    }
  }

  lemma SealKeepsCache(m: Model)
    requires CacheInv(m) && m.build.Some? && m.build.value.head % 2 == 0
    ensures CacheInv(Seal(m))
    ensures Seal(m).evicts >= m.evicts && Seal(m).known == m.known + {m.build.value.head}
  {
    hide SealedSet, TagsUnique, ResidentTags, HeadIndex, HeadTag, TotalOccupancy, Occupancy, SetInv, TagsSeen, Crowded;
    var h := m.build.value.head;
    var idx := HeadIndex(h);
    var r := Seal(m);
    forall i | 0 <= i < SETS
      ensures SetInv(r.sets[i], TagsSeen(r.known, i))
      ensures r.evicts == 0 ==> ResidentTags(r.sets[i]) == TagsSeen(r.known, i)
      ensures Crowded(m.known, i) ==> Crowded(r.known, i)
      ensures i == idx && r.evicts > m.evicts ==> Crowded(r.known, i)
    {
      SealKeepsSets(m, i);
    }
    assert SetInv(m.sets[idx], TagsSeen(m.known, idx));
    SetInvUnique(m.sets[idx], TagsSeen(m.known, idx));
    SealedSetFacts(m.sets[idx], HeadTag(h));
    TotalOccupancyUpdate(m.sets, idx, SealedSet(m.sets[idx], HeadTag(h)));
    assert r.sets == m.sets[idx := SealedSet(m.sets[idx], HeadTag(h))];
    assert TotalOccupancy(r.sets) + r.evicts == r.installs;
    if m.evicts > 0 {
      var i :| 0 <= i < SETS && Crowded(m.known, i);
      SealKeepsSets(m, i);
      assert Crowded(r.known, i);
    } else {
      SealKeepsSets(m, idx);
    }
    assert r.evicts > 0 ==> exists i :: 0 <= i < SETS && Crowded(r.known, i);
    assert forall g <- r.known :: g % 2 == 0;
  }

  lemma SetInvUnique(s: Ways, seen: set<nat>)
    requires SetInv(s, seen)
    ensures TagsUnique(s)
  {
  }

  // ---- the counters ----

  /** A looked-up head that was not resident, and so will be installed when sealed. */
  ghost predicate MissPending(m: Model)
    requires Shaped(m)
  {
    m.build.Some? && m.build.value.head in m.known && !Resident(m, m.build.value.head)
  }

  ghost predicate BuildInv(m: Model)
    requires Shaped(m)
  {
    m.build.Some? ==>
      var b := m.build.value;
      && b.head % 2 == 0 && 1 <= b.uops < PER_ENTRY
      && (b.resident <==> Resident(m, b.head) && b.head in m.known)
      && (forall g <- b.gids :: 1 <= g <= m.gid)
  }

  ghost predicate CountInv(m: Model)
    requires Shaped(m)
  {
    && m.lookups == m.hits + m.misses
    && SumSeq(m.streaks) + m.streak == m.hits
    && (forall i :: 0 <= i < |m.streaks| ==> m.streaks[i] > 0)
    && |m.known| <= m.installs
    && m.installs + Bit(MissPending(m)) <= |m.known| + m.misses
    && (m.evicts == 0 ==> m.misses == 0)
    && m.entries >= |m.known|
  }

  ghost predicate SlotInv(m: Model) {
    && m.groups == m.gid
    && (forall g <- m.truncSlots :: 1 <= g <= m.gid)
    && m.recovered <= m.truncSlots.Keys
    && SlotSum(m.truncSlots, m.truncSlots.Keys, m.gid) == m.truncated
  }

  ghost predicate Inv(m: Model) {
    Shaped(m) && CacheInv(m) && BuildInv(m) && CountInv(m) && SlotInv(m)
  }

  // ---- every step keeps it ----

  lemma StartInv()
    ensures Inv(Start())
  {
    StartShape();
    hide Start, CacheInv, BuildInv, CountInv, SlotInv, Empty;
    NothingCached(Start());
    NothingCounted(Start());
  }

  lemma NothingCached(m: Model)
    requires Shaped(m) && (forall i :: 0 <= i < SETS ==> m.sets[i] == Empty())
    requires m.known == {} && m.evicts == 0 && m.installs == 0
    ensures CacheInv(m)
  {
    hide SetInv, ResidentTags, TagsSeen, TotalOccupancy, Empty;
    NothingSeen(m.sets);
    EmptySets(m.sets);
  }

  lemma NothingCounted(m: Model)
    requires Shaped(m) && m == Model(m.sets, {}, None, 0, 0, 0, map[], map[], 0, 0, 0, 0, 0, 0, 0, [], 0, 0, map[], {})
    ensures BuildInv(m) && CountInv(m) && SlotInv(m)
  {
  }

  lemma StartShape()
    ensures var m := Start();
      && |m.sets| == SETS && (forall i :: 0 <= i < SETS ==> m.sets[i] == Empty())
      && m == Model(m.sets, {}, None, 0, 0, 0, map[], map[], 0, 0, 0, 0, 0, 0, 0, [], 0, 0, map[], {})
      && Shaped(m)
  {
  }

  lemma NothingSeen(sets: seq<Ways>)
    requires |sets| == SETS && forall i :: 0 <= i < SETS ==> sets[i] == Empty()
    ensures forall i :: 0 <= i < SETS ==> SetInv(sets[i], TagsSeen({}, i)) && ResidentTags(sets[i]) == TagsSeen({}, i)
  {
    assert ResidentTags(Empty()) == {};
    assert TagsUnique(Empty());
    forall i | 0 <= i < SETS ensures TagsSeen({}, i) == {} {
    }
  }

  lemma {:induction false} EmptyOccupancy(n: nat)
    requires n <= 8
    ensures Occupancy(Empty(), n) == 0
  {
    if n > 0 {
      EmptyOccupancy(n - 1);
    }
  }

  lemma {:induction false} EmptySets(sets: seq<Ways>)
    requires forall i :: 0 <= i < |sets| ==> sets[i] == Empty() && |sets[i].valid| == 8
    ensures TotalOccupancy(sets) == 0
  {
    if sets != [] {
      EmptySets(sets[..|sets| - 1]);
      EmptyOccupancy(8);
    }
  }

  lemma EndStreakKeeps(m: Model)
    requires Inv(m)
    ensures Inv(EndStreak(m)) && EndStreak(m).streak == 0 && EndStreak(m).build == m.build
  {
    hide CacheInv, BuildInv, SlotInv, Resident;
    var r := EndStreak(m);
    if m.streak > 0 {
      assert r.streaks[..|r.streaks| - 1] == m.streaks;
    }
    SameCache(m, r);
    SameSlots(m, r);
  }

  /** Steps that leave cache, known heads and evictions alone keep the cache part. */
  lemma SameCache(m: Model, r: Model)
    requires Shaped(m) && r.sets == m.sets && r.known == m.known && r.evicts == m.evicts && r.installs == m.installs
    ensures Shaped(r) && (CacheInv(m) ==> CacheInv(r))
    ensures forall pc :: Resident(r, pc) == Resident(m, pc)
    ensures r.build == m.build && r.gid == m.gid ==> (BuildInv(m) ==> BuildInv(r))
  {
    hide SetInv, Crowded, TagsSeen, TotalOccupancy, FindFrom, ResidentTags;
    forall pc ensures Resident(r, pc) == Resident(m, pc) {
      assert r.sets[HeadIndex(pc)] == m.sets[HeadIndex(pc)];
    }
  }

  lemma SameSlots(m: Model, r: Model)
    requires r.gid == m.gid && r.groups == m.groups && r.truncSlots == m.truncSlots
    requires r.recovered == m.recovered && r.truncated == m.truncated
    ensures SlotInv(m) ==> SlotInv(r)
  {
    hide SlotSum;
  }

  lemma FlushStart(m: Model)
    requires Inv(m)
    ensures Inv(m.(flushes := m.flushes + 1, build := None))
  {
    var m1 := m.(flushes := m.flushes + 1, build := None);
    SameCache(m, m1);
    SameSlots(m, m1);
    hide CacheInv, Resident, SlotInv, SumSeq;
  }

  lemma FlushKeeps(m: Model)
    requires Inv(m)
    ensures Inv(FlushStep(m))
  {
    hide Inv;
    FlushStart(m);
    EndStreakKeeps(m.(flushes := m.flushes + 1, build := None));
  }

  lemma MissIsEvicted(m: Model, pc: nat)
    requires CacheInv(m) && pc in m.known && !Resident(m, pc)
    ensures m.evicts > 0
  {
    var i := HeadIndex(pc);
    assert SetInv(m.sets[i], TagsSeen(m.known, i));
    SetInvUnique(m.sets[i], TagsSeen(m.known, i));
    FindIsResident(m.sets[i], HeadTag(pc));
    assert HeadTag(pc) in TagsSeen(m.known, i);
  }

  lemma OpenKeeps(m: Model, pc: nat)
    requires Shaped(m) && Inv(m) && m.build.None? && pc % 2 == 0 && m.gid >= 1
    ensures Inv(Open(m, pc)) && Open(m, pc).build.Some? && Open(m, pc).build.value.uops == 1
    ensures Open(m, pc).gid == m.gid
  {
    hide CacheInv, SlotInv, Resident, Shaped;
    if pc in m.known && !Resident(m, pc) {
      MissIsEvicted(m, pc);
    }
    var r := Open(m, pc);
    SameCache(m, r);
    SameSlots(m, r);
    if m.streak > 0 {
      assert (m.streaks + [m.streak])[..|m.streaks|] == m.streaks;
    }
  }

  /** A head sealed for the first time is not resident yet. */
  lemma NewHeadNotResident(m: Model, h: nat)
    requires CacheInv(m) && h % 2 == 0 && h !in m.known
    ensures !Resident(m, h)
  {
    var i := HeadIndex(h);
    assert SetInv(m.sets[i], TagsSeen(m.known, i));
    SetInvUnique(m.sets[i], TagsSeen(m.known, i));
    FindIsResident(m.sets[i], HeadTag(h));
    if HeadTag(h) in TagsSeen(m.known, i) {
      var g :| g in m.known && HeadIndex(g) == i && HeadTag(g) == HeadTag(h);
      HeadInjective(g, h);
    }
  }

  /** What sealing needs of the entry being built: it may have reached four uops. */
  ghost predicate BuildReady(m: Model)
    requires Shaped(m)
  {
    m.build.Some? ==>
      var b := m.build.value;
      && b.head % 2 == 0
      && (b.resident <==> Resident(m, b.head) && b.head in m.known)
      && (forall g <- b.gids :: 1 <= g <= m.gid)
  }

  /** What a seal does to the counters. */
  lemma SealFields(m: Model)
    requires Shaped(m) && m.build.Some?
    ensures var b := m.build.value; var r := Seal(m);
      r == m.(sets := r.sets, evicts := r.evicts, build := None,
              known := m.known + {b.head}, entries := m.entries + 1, installs := m.installs + Bit(!Resident(m, b.head)),
              recovered := if b.resident then m.recovered + Recoverable(b.gids, m.truncSlots) else m.recovered)
  {
    hide FindFrom, FirstFree, SealedSet, HeadIndex, HeadTag, Recoverable;
  }

  lemma SealCounts(m: Model, r: Model)
    requires Shaped(m) && Shaped(r) && m.build.Some? && r.build.None? && CountInv(m)
    requires var h := m.build.value.head;
      && r.known == m.known + {h} && r.entries == m.entries + 1 && r.installs == m.installs + Bit(!Resident(m, h))
      && (h !in m.known ==> !Resident(m, h))
    requires r.lookups == m.lookups && r.hits == m.hits && r.misses == m.misses && m.evicts <= r.evicts
    requires r.streak == m.streak && r.streaks == m.streaks
    ensures CountInv(r)
  {
    hide Resident, SumSeq, Shaped;
    KnownGrows(m.known, m.build.value.head);
  }

  lemma SealSlots(m: Model, r: Model)
    requires m.build.Some? && SlotInv(m) && r.groups == m.groups && r.gid == m.gid
    requires r.truncated == m.truncated && r.truncSlots == m.truncSlots
    requires r.recovered == m.recovered || r.recovered == m.recovered + Recoverable(m.build.value.gids, m.truncSlots)
    ensures SlotInv(r)
  {
    hide SlotSum;
  }

  lemma SealKeeps(m: Model)
    requires Shaped(m) && CacheInv(m) && BuildReady(m) && CountInv(m) && SlotInv(m)
    ensures Inv(Seal(m)) && Seal(m).build.None? && Seal(m).gid == m.gid && Seal(m).streak == m.streak
  {
    if m.build.Some? {
      var h := m.build.value.head;
      SealFields(m);
      SealKeepsCache(m);
      if h !in m.known {
        NewHeadNotResident(m, h);
      }
      hide CacheInv, CountInv, SlotInv, Seal, Resident;
      SealCounts(m, Seal(m));
      SealSlots(m, Seal(m));
    }
  }

  lemma KnownGrows(known: set<nat>, h: nat)
    ensures |known + {h}| == |known| + (if h in known then 0 else 1)
  {
    if h in known {
      assert known + {h} == known;
    }
  }

  lemma SlotKeeps(m: Model, pc: nat, insn: nat)
    requires Shaped(m) && Inv(m) && pc % 2 == 0 && m.gid >= 1
    ensures Inv(Slot(m, pc, insn)) && Slot(m, pc, insn).gid == m.gid
  {
    hide CacheInv, SlotInv, ClassifyInsn, Resident, Shaped, SumSeq, Seal, EndStreak;
    var m1 := m.(uops := m.uops + 1);
    SameCache(m, m1);
    SameSlots(m, m1);
    assert Inv(m1);
    var m2;
    if m.build.None? {
      OpenKeeps(m1, pc);
      m2 := Open(m1, pc);
    } else {
      m2 := m1.(build := Some(m.build.value.(uops := m.build.value.uops + 1, gids := m.build.value.gids + {m.gid})));
      SameCache(m1, m2);
      SameSlots(m1, m2);
    }
    assert CacheInv(m2) && BuildReady(m2) && CountInv(m2) && SlotInv(m2);
    SealKeeps(m2);
    SealGid(m2);
  }

  lemma SealGid(m: Model)
    requires Shaped(m)
    ensures Seal(m).gid == m.gid
  {
    hide SealedSet;
  }

  lemma {:induction false} SlotsKeep(m: Model, e: Event, n: nat)
    requires Shaped(m) && Inv(m) && ValidEvent(e) && e.Group? && n <= e.n && m.gid >= 1
    ensures Inv(Slots(m, e, n)) && Slots(m, e, n).gid == m.gid
  {
    hide Inv, Slot;
    if n > 0 {
      SlotsKeep(m, e, n - 1);
      SlotKeeps(Slots(m, e, n - 1), e.pcs[n - 1], e.insns[n - 1]);
    }
  }

  lemma {:induction false} SlotSumSame(a: map<nat, nat>, b: map<nat, nat>, which: set<nat>, also: set<nat>, n: nat)
    requires forall g :: 1 <= g <= n ==> ((g in a && g in which) <==> (g in b && g in also))
    requires forall g :: 1 <= g <= n && g in a && g in which ==> a[g] == b[g]
    ensures SlotSum(a, which, n) == SlotSum(b, also, n)
  {
    if n > 0 {
      SlotSumSame(a, b, which, also, n - 1);
    }
  }

  lemma BeginGroupKeeps(m: Model, e: Event)
    requires Shaped(m) && Inv(m) && ValidEvent(e) && e.Group?
    ensures Inv(BeginGroup(m, e)) && BeginGroup(m, e).gid == m.gid + 1
  {
    hide CacheInv, Resident, SumSeq;
    var r := BeginGroup(m, e);
    SameCache(m, r);
    SlotSumSame(m.truncSlots, r.truncSlots, m.truncSlots.Keys, r.truncSlots.Keys, m.gid);
  }

  lemma StepKeeps(m: Model, e: Event)
    requires Shaped(m) && Inv(m) && ValidEvent(e)
    ensures Inv(Step(m, e))
  {
    hide Inv, Slots, BeginGroup, FlushStep;
    if e.Flush? {
      FlushKeeps(m);
    } else {
      BeginGroupKeeps(m, e);
      SlotsKeep(BeginGroup(m, e), e, e.n);
    }
  }

  lemma {:induction false} StepsInv(events: seq<Event>)
    requires ValidTrace(events)
    ensures Inv(Steps(events))
  {
    hide Inv, Step;
    if events == [] {
      StartInv();
    } else {
      StepsInv(events[..|events| - 1]);
      StepKeeps(Steps(events[..|events| - 1]), events[|events| - 1]);
    }
  }

  lemma FinalInv(events: seq<Event>)
    requires ValidTrace(events)
    ensures var m := Finish(Steps(events)); Inv(m) && m.build.None? && m.streak == 0
  {
    StepsInv(events);
    var m := Steps(events);
    hide CacheInv, SlotInv, CountInv, Resident, Shaped, Seal, EndStreak;
    assert BuildReady(m);
    SealKeeps(m);
    EndStreakKeeps(Seal(m));
  }

  // ---- slots of the groups ----

  lemma {:induction false} SlotSumMonotone(slots: map<nat, nat>, which: set<nat>, all: set<nat>, n: nat)
    requires which <= all
    ensures SlotSum(slots, which, n) <= SlotSum(slots, all, n)
  {
    if n > 0 {
      SlotSumMonotone(slots, which, all, n - 1);
    }
  }

  /** Every group offers four slots: those delivered, and those counted as truncated. */
  ghost predicate SupplyInv(m: Model) {
    m.truncated + m.uops <= PER_ENTRY * m.groups
  }

  lemma SlotSupply(m: Model, pc: nat, insn: nat)
    requires Shaped(m)
    ensures var r := Slot(m, pc, insn);
      r.uops == m.uops + 1 && r.groups == m.groups && r.truncated == m.truncated
  {
    hide Resident, Shaped, Seal, Ends;
    SealSupply(Extended(m, pc));
  }

  lemma SealSupply(m: Model)
    requires Shaped(m)
    ensures var r := Seal(m);
      r.uops == m.uops && r.groups == m.groups && r.truncated == m.truncated
  {
    hide Resident, SealedSet, FirstFree;
  }

  lemma {:induction false} SlotsSupply(m: Model, e: Event, n: nat)
    requires Shaped(m) && ValidEvent(e) && e.Group? && n <= e.n
    ensures var r := Slots(m, e, n);
      r.uops == m.uops + n && r.groups == m.groups && r.truncated == m.truncated
  {
    hide Slot, Shaped;
    if n > 0 {
      SlotsSupply(m, e, n - 1);
      SlotSupply(Slots(m, e, n - 1), e.pcs[n - 1], e.insns[n - 1]);
    }
  }

  lemma {:induction false} StepsSupply(events: seq<Event>)
    requires ValidTrace(events)
    ensures SupplyInv(Steps(events))
  {
    hide Slots, Shaped;
    if events != [] {
      var e := events[|events| - 1];
      var m := Steps(events[..|events| - 1]);
      StepsSupply(events[..|events| - 1]);
      if e.Group? {
        SlotsSupply(BeginGroup(m, e), e, e.n);
      }
    }
  }

  lemma FinishSupply(m: Model)
    requires Shaped(m)
    ensures SupplyInv(Finish(m)) == SupplyInv(m)
  {
    hide Resident, SealedSet, FirstFree, Shaped;
  }

  // ---- the theorems ----

  /** The counters of a finished run agree with each other, on every trace. */
  lemma Accounting(events: seq<Event>)
    requires ValidTrace(events)
    ensures var m := Finish(Steps(events));
      && m.lookups == m.hits + m.misses
      && SumSeq(m.streaks) == m.hits && (forall i :: 0 <= i < |m.streaks| ==> m.streaks[i] > 0)
      && TotalOccupancy(m.sets) + m.evicts == m.installs
      && |m.known| <= m.installs <= |m.known| + m.misses
      && RecoveredSlots(m) <= m.truncated && m.truncated + m.uops <= PER_ENTRY * m.groups
  {
    var m := Finish(Steps(events));
    FinalInv(events);
    StepsSupply(events);
    FinishSupply(Steps(events));
    hide Steps, Finish, TotalOccupancy, Resident;
    SlotSumMonotone(m.truncSlots, m.recovered, m.truncSlots.Keys, m.gid);
  }

  /** Capacity: nothing is ever evicted exactly when no set sees more than eight distinct
      heads; and then every lookup hits and every distinct head is installed once. */
  lemma Capacity(events: seq<Event>)
    requires ValidTrace(events)
    ensures var m := Finish(Steps(events));
      && (m.evicts == 0 <==> forall i :: 0 <= i < SETS ==> |TagsSeen(m.known, i)| <= WAYS)
      && (m.evicts == 0 ==> m.misses == 0 && m.hits == m.lookups && m.installs == |m.known|)
  {
    var m := Finish(Steps(events));
    FinalInv(events);
    hide Steps, Finish, TotalOccupancy, Resident;
    if m.evicts == 0 {
      forall i | 0 <= i < SETS ensures |TagsSeen(m.known, i)| <= WAYS {
        assert SetInv(m.sets[i], TagsSeen(m.known, i));
        OccupancyCountsTags(m.sets[i], 8);
      }
    }
  }
}
