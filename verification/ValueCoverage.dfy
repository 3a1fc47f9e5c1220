/** What the value predictors answer, said of the stream alone: which values were seen
    before in the same situation, when a prediction is issued, and how many are right. */
module ValueCoverage {
  import opened Arithmetic
  import opened Options
  import opened ValuePred
  import Lcg

  // ---- the evidence for a value ----

  /** The last `k` values before place `i`, or all of them. */
  function Recent(s: seq<int>, i: nat, k: nat): (w: seq<int>)
    requires i <= |s|
    ensures |w| == if i < k then i else k
  {
    s[if i < k then 0 else i - k..i]
  }

  /** The values at the places before `n` that come directly after the values `w`, where
      `w` is all that the last `k` values are. */
  function After(s: seq<int>, k: nat, w: seq<int>, n: nat): (e: seq<int>)
    requires n <= |s|
    ensures |e| <= n
  {
    if n == 0 then []
    else After(s, k, w, n - 1) + (if Recent(s, n - 1, k) == w then [s[n - 1]] else [])
  }

  /** The steps modulo 2^64 between the first `n` values. */
  function Steps(s: seq<int>, n: nat): (e: seq<int>)
    requires n <= |s|
    ensures |e| == if n == 0 then 0 else n - 1
  {
    if n <= 1 then [] else Steps(s, n - 1) + [(s[n - 1] - s[n - 2]) % 0x1_0000_0000_0000_0000]
  }

  predicate ByStride(c: Config) { c.kind.Stride? || c.kind.TwoDelta? }

  /** How many values back the context of a kind reaches. */
  function Reach(c: Config): nat {
    match c.kind
    case Fcm1 => 1
    case Fcm2 => 2
    case Vtage => c.order
    case _ => 0
  }

  /** What the stream has shown before place `i` that bears on it. */
  function Evidence(c: Config, s: seq<int>, i: nat): seq<int>
    requires i <= |s|
  {
    if ByStride(c) then Steps(s, i) else After(s, Reach(c), Recent(s, i, Reach(c)), i)
  }

  /** The last `t` + 1 pieces of evidence agree. */
  predicate Steady(e: seq<int>, t: int) {
    |e| > t && forall j :: 0 <= j < |e| && j >= |e| - 1 - t ==> e[j] == e[|e| - 1]
  }

  /** A prediction is issued: the evidence agrees often enough. */
  predicate Issued(c: Config, e: seq<int>) {
    && e != []
    && if Steady(e, 1) then c.thresh <= c.max && Steady(e, c.thresh) else c.thresh <= 0
  }

  /** What is predicted from the evidence. */
  function Guess(c: Config, s: seq<int>, i: nat, e: seq<int>): int
    requires i <= |s| && e != []
  {
    if ByStride(c) && i > 0 then (s[i - 1] + e[|e| - 1]) % 0x1_0000_0000_0000_0000 else e[|e| - 1]
  }

  predicate Right(c: Config, s: seq<int>, i: nat)
    requires i < |s|
  {
    var e := Evidence(c, s, i);
    Issued(c, e) && Guess(c, s, i, e) == s[i]
  }

  /** Places before `n` with a prediction, and with a right one. */
  function IssuedCount(c: Config, s: seq<int>, n: nat): (r: nat)
    requires n <= |s|
    ensures r <= n
  {
    if n == 0 then 0 else IssuedCount(c, s, n - 1) + (if Issued(c, Evidence(c, s, n - 1)) then 1 else 0)
  }

  function RightCount(c: Config, s: seq<int>, n: nat): (r: nat)
    requires n <= |s|
    ensures r <= IssuedCount(c, s, n)
  {
    if n == 0 then 0 else RightCount(c, s, n - 1) + (if Right(c, s, n - 1) then 1 else 0)
  }

  // ---- confidence ----

  /** How often the last piece of evidence was confirmed by the next one. */
  function Confirmed(e: seq<int>): (r: nat)
    ensures r <= |e|
    ensures e != [] ==> r < |e|
  {
    if |e| < 2 || e[|e| - 2] != e[|e| - 1] then 0 else 1 + Confirmed(e[..|e| - 1])
  }

  function Confidence(e: seq<int>, max: int): int {
    var k := Confirmed(e);
    if k == 0 then 0 else if k < max then k else max
  }

  lemma {:induction false} SteadyConfirmed(e: seq<int>, t: int)
    requires e != []
    ensures Steady(e, t) <==> t <= Confirmed(e)
    decreases |e|
  {
    if t > 0 && Confirmed(e) > 0 {
      SteadyConfirmed(e[..|e| - 1], t - 1);
      if Steady(e[..|e| - 1], t - 1) {
        forall j | 0 <= j < |e| && j >= |e| - 1 - t ensures e[j] == e[|e| - 1] {
          assert j < |e| - 1 ==> e[j] == e[..|e| - 1][j];
        }
      }
      if Steady(e, t) {
        var d := e[..|e| - 1];
        forall j | 0 <= j < |d| && j >= |d| - 1 - (t - 1) ensures d[j] == d[|d| - 1] {
          assert d[j] == e[j];
        }
      }
    }
  }

  lemma IssuedByConfidence(c: Config, e: seq<int>)
    requires e != []
    ensures Issued(c, e) <==> Confidence(e, c.max) >= c.thresh
  {
    hide Steady;
    SteadyConfirmed(e, 1);
    SteadyConfirmed(e, c.thresh);
  }

  /** One more piece of evidence raises the confidence or resets it. */
  lemma ConfidenceStep(e: seq<int>, v: int, max: int)
    ensures Confidence(e + [v], max)
         == if e != [] && e[|e| - 1] == v then Up(Confidence(e, max), max) else 0
    ensures Confidence([], max) == 0
  {
    assert (e + [v])[..|e|] == e;
    assert e != [] ==> (e + [v])[|e| - 1] == e[|e| - 1];
  }

  // ---- the predictor remembers its evidence ----

  /** The table key for a context. */
  function KeyFor(c: Config, w: seq<int>): Key
    requires c.kind.Fcm1? ==> |w| == 1
    requires c.kind.Fcm2? ==> |w| <= 2
  {
    match c.kind
    case Fcm1 => Last(w[0])
    case Fcm2 => LastTwo(if |w| == 2 then Some(w[0]) else None, if w == [] then None else Some(w[|w| - 1]))
    case _ => Window(w)
  }

  predicate Keyed(c: Config, w: seq<int>) {
    |w| <= Reach(c) && (c.kind.Fcm1? ==> |w| == 1)
  }

  predicate Tabled(c: Config) { c.kind.Fcm1? || c.kind.Fcm2? || c.kind.Vtage? }

  /** The table holds the last value seen after `w`, with its confidence, or nothing. */
  ghost predicate Held(c: Config, fcm: map<Key, Entry>, w: seq<int>, e: seq<int>)
    requires Keyed(c, w)
  {
    var key := KeyFor(c, w);
    && (key in fcm <==> e != [])
    && (e != [] ==> fcm[key] == Entry(e[|e| - 1], Confidence(e, c.max)))
  }

  ghost predicate TableHeld(c: Config, s: seq<int>, n: nat, fcm: map<Key, Entry>)
    requires n <= |s|
  {
    forall w {:trigger Keyed(c, w)} :: Keyed(c, w) ==> Held(c, fcm, w, After(s, Reach(c), w, n))
  }

  ghost predicate Remembers(c: Config, s: seq<int>, n: nat, st: State)
    requires n <= |s|
  {
    && st.last == (if n >= 1 then Some(s[n - 1]) else None)
    && st.last2 == (if n >= 2 then Some(s[n - 2]) else None)
    && (c.kind.LastValue? ==> st.lvConf == Confidence(s[..n], c.max))
    && (ByStride(c) ==> var e := Steps(s, n);
          && st.stride == (if e == [] then None else Some(e[|e| - 1]))
          && st.strideConf == Confidence(e, c.max))
    && (Tabled(c) ==> TableHeld(c, s, n, st.fcm))
  }

  lemma {:induction false} AfterAll(s: seq<int>, n: nat)
    requires n <= |s|
    ensures After(s, 0, [], n) == s[..n]
  {
    if n > 0 {
      AfterAll(s, n - 1);
    }
  }

  lemma KeyOfRecent(c: Config, s: seq<int>, i: nat, st: State)
    requires i < |s| && Tabled(c) && Remembers(c, s, i, st)
    ensures var w := Recent(s, i, Reach(c));
      && (c.kind.Fcm1? && i == 0 ==> KeyOf(c, s, i, st) == None)
      && (!(c.kind.Fcm1? && i == 0) ==> Keyed(c, w) && KeyOf(c, s, i, st) == Some(KeyFor(c, w)))
  {
    hide TableHeld;
  }

  lemma KeysDiffer(c: Config, w: seq<int>, x: seq<int>)
    requires Tabled(c) && Keyed(c, w) && Keyed(c, x) && KeyFor(c, w) == KeyFor(c, x)
    ensures w == x
  {
  }

  lemma TablePredicts(c: Config, s: seq<int>, i: nat, st: State)
    requires i < |s| && Tabled(c) && Remembers(c, s, i, st)
    ensures var e := After(s, Reach(c), Recent(s, i, Reach(c)), i);
      Predict(c, s, i, st) == if e == [] then None else Some(Entry(e[|e| - 1], Confidence(e, c.max)))
  {
    KeyOfRecent(c, s, i, st);
    hide Confidence, KeyOf, Recent, KeyFor;
    if !(c.kind.Fcm1? && i == 0) {
      var w := Recent(s, i, Reach(c));
      assert Keyed(c, w) && Held(c, st.fcm, w, After(s, Reach(c), w, i));
    }
  }

  lemma OthersPredict(c: Config, s: seq<int>, i: nat, st: State)
    requires i < |s| && !Tabled(c) && Remembers(c, s, i, st)
    ensures var e := if ByStride(c) then Steps(s, i) else s[..i];
      Predict(c, s, i, st) == if e == [] then None else Some(Entry(Guess(c, s, i, e), Confidence(e, c.max)))
  {
    hide Confidence, KeyOf, Recent, TableHeld;
  }

  /** The prediction is the guess from the evidence, with the confidence it deserves. */
  lemma PredictsFromEvidence(c: Config, s: seq<int>, i: nat, st: State)
    requires i < |s| && Remembers(c, s, i, st)
    ensures var e := Evidence(c, s, i);
      Predict(c, s, i, st) == if e == [] then None else Some(Entry(Guess(c, s, i, e), Confidence(e, c.max)))
  {
    hide Predict, Confidence, Steps, After, Recent, Remembers;
    if Tabled(c) {
      TablePredicts(c, s, i, st);
    } else {
      OthersPredict(c, s, i, st);
      AfterAll(s, i);
      if c.kind.LastValue? {
        NoContext(s, i);
      }
    }
  }

  lemma NoContext(s: seq<int>, i: nat)
    requires i <= |s|
    ensures Recent(s, i, 0) == []
  {
  }

  /** The table learns the value that follows its context. */
  lemma EntryLearnt(c: Config, s: seq<int>, i: nat, fcm: map<Key, Entry>, w: seq<int>)
    requires i < |s| && Tabled(c) && TableHeld(c, s, i, fcm) && Keyed(c, w) && Keyed(c, Recent(s, i, Reach(c)))
    ensures Held(c, UpdateEntry(c, s[i], fcm, KeyFor(c, Recent(s, i, Reach(c)))), w, After(s, Reach(c), w, i + 1))
  {
    hide Confidence, KeyFor;
    var x := Recent(s, i, Reach(c));
    assert Held(c, fcm, w, After(s, Reach(c), w, i)) && Held(c, fcm, x, After(s, Reach(c), x, i));
    ConfidenceStep(After(s, Reach(c), x, i), s[i], c.max);
    if w == x {
      assert After(s, Reach(c), w, i + 1) == After(s, Reach(c), w, i) + [s[i]];
    } else {
      assert After(s, Reach(c), w, i + 1) == After(s, Reach(c), w, i);
      if KeyFor(c, w) == KeyFor(c, x) {
        KeysDiffer(c, w, x);
      }
    }
  }

  lemma TableLearns(c: Config, s: seq<int>, i: nat, st: State)
    requires i < |s| && Tabled(c) && Remembers(c, s, i, st)
    ensures TableHeld(c, s, i + 1, UpdateTable(c, s, i, st).fcm)
  {
    KeyOfRecent(c, s, i, st);
    hide UpdateEntry, KeyOf;
    if c.kind.Fcm1? && i == 0 {
      forall w | Keyed(c, w) ensures Held(c, st.fcm, w, After(s, Reach(c), w, 1)) {
        assert After(s, Reach(c), w, 1) == After(s, Reach(c), w, 0);
      }
    } else {
      forall w | Keyed(c, w) ensures Held(c, UpdateTable(c, s, i, st).fcm, w, After(s, Reach(c), w, i + 1)) {
        EntryLearnt(c, s, i, st.fcm, w);
      }
    }
  }

  /** Counting first changes nothing that the update looks at. */
  lemma StepState(c: Config, s: seq<int>, i: nat, st: State)
    requires i < |s|
    ensures var r := Step(c, s, i, st);
      && r.last == Some(s[i]) && r.last2 == st.last
      && (c.kind.LastValue? ==> r.lvConf == UpdateLastValue(c, s[i], st).lvConf)
      && (ByStride(c) ==> var u := UpdateStride(c, s[i], st); r.stride == u.stride && r.strideConf == u.strideConf)
      && (Tabled(c) ==> r.fcm == UpdateTable(c, s, i, st).fcm)
  {
    hide Predict, UpdateEntry;
  }

  lemma StrideRemembers(c: Config, s: seq<int>, i: nat, st: State)
    requires i < |s| && ByStride(c) && Remembers(c, s, i, st)
    ensures var e, u := Steps(s, i + 1), UpdateStride(c, s[i], st);
      && u.stride == (if e == [] then None else Some(e[|e| - 1]))
      && u.strideConf == Confidence(e, c.max)
  {
    if i > 0 {
      ConfidenceStep(Steps(s, i), (s[i] - s[i - 1]) % WORD, c.max);
    }
    hide Confidence;
  }

  lemma StepRemembers(c: Config, s: seq<int>, i: nat, st: State)
    requires i < |s| && Remembers(c, s, i, st)
    ensures Remembers(c, s, i + 1, Step(c, s, i, st))
  {
    hide Confidence, TableHeld, UpdateTable, UpdateStride, Step, Steps;
    StepState(c, s, i, st);
    if Tabled(c) {
      TableLearns(c, s, i, st);
    } else if c.kind.LastValue? {
      ConfidenceStep(s[..i], s[i], c.max);
      assert s[..i + 1] == s[..i] + [s[i]] && s[..0] == [];
    } else {
      StrideRemembers(c, s, i, st);
    }
  }

  lemma CountsPrediction(c: Config, s: seq<int>, i: nat, st: State)
    requires i < |s|
    ensures var r, p := Step(c, s, i, st), Predict(c, s, i, st);
      && r.total == st.total + 1
      && r.confident == st.confident + (if p.Some? && p.value.conf >= c.thresh then 1 else 0)
      && r.correct == st.correct + (if p.Some? && p.value.conf >= c.thresh && p.value.value == s[i] then 1 else 0)
  {
    hide Predict, UpdateEntry, KeyOf;
  }

  lemma StepCounts(c: Config, s: seq<int>, i: nat, st: State)
    requires i < |s| && Remembers(c, s, i, st)
    ensures var r := Step(c, s, i, st);
      && r.total == st.total + 1
      && r.confident == st.confident + (if Issued(c, Evidence(c, s, i)) then 1 else 0)
      && r.correct == st.correct + (if Right(c, s, i) then 1 else 0)
  {
    hide Step, Remembers, Evidence, Predict, Confidence, Steady, Guess;
    CountsPrediction(c, s, i, st);
    PredictsFromEvidence(c, s, i, st);
    var e := Evidence(c, s, i);
    if e != [] {
      IssuedByConfidence(c, e);
    }
  }

  /** For every kind, every stream and every setting: the predictor issues a prediction
      exactly where the evidence agrees often enough, and is right exactly where the last
      piece of it says so. */
  lemma {:induction false} RunCounts(c: Config, s: seq<int>, n: nat)
    requires n <= |s|
    ensures Remembers(c, s, n, Run(c, s, n))
    ensures var st := Run(c, s, n);
      st.confident == IssuedCount(c, s, n) && st.correct == RightCount(c, s, n) && st.total == n
  {
    hide Step, Remembers, Evidence, Issued, Right;
    if n == 0 {
      NothingSeen(c, s);
    } else {
      RunCounts(c, s, n - 1);
      StepRemembers(c, s, n - 1, Run(c, s, n - 1));
      StepCounts(c, s, n - 1, Run(c, s, n - 1));
    }
  }

  lemma NothingSeen(c: Config, s: seq<int>)
    ensures Remembers(c, s, 0, START)
  {
  }

  // ---- last-value ----

  /** The `t` + 1 values before place `i` exist and are equal. */
  ghost predicate RunBefore(s: seq<int>, i: nat, t: nat)
    requires i <= |s|
  {
    i > t && forall j: nat :: i - 1 - t <= j < i ==> s[j] == s[i - 1]
  }

  /** The last-value predictor speaks after T + 1 equal values, and is right if another one
      follows. */
  lemma LastValueAt(c: Config, s: seq<int>, i: nat)
    requires i < |s| && c.kind == LastValue && 0 <= c.thresh <= c.max
    ensures Issued(c, Evidence(c, s, i)) <==> RunBefore(s, i, c.thresh)
    ensures Right(c, s, i) <==> RunBefore(s, i, c.thresh) && s[i] == s[i - 1]
  {
    AfterAll(s, i);
    NoContext(s, i);
    SteadyRun(s, i, c.thresh);
    SteadyRun(s, i, 1);
    RunShorter(s, i, c.thresh);
    hide Steady, RunBefore, After, Recent;
  }

  /** Equal values before a place are steady evidence. */
  lemma SteadyRun(s: seq<int>, i: nat, t: nat)
    requires i < |s|
    ensures Steady(s[..i], t) <==> RunBefore(s, i, t)
  {
    var e := s[..i];
    if Steady(e, t) {
      forall j: nat | i - 1 - t <= j < i ensures s[j] == s[i - 1] {
        assert e[j] == s[j];
      }
    }
    if RunBefore(s, i, t) {
      forall j | 0 <= j < |e| && j >= |e| - 1 - t ensures e[j] == e[|e| - 1] {
        assert s[j] == s[i - 1];
      }
    }
  }

  lemma RunShorter(s: seq<int>, i: nat, t: nat)
    requires i < |s|
    ensures RunBefore(s, i, t) ==> i > t && (t >= 1 ==> RunBefore(s, i, 1))
    ensures i > 0 ==> RunBefore(s, i, 0)
  {
  }

  // ---- the context tables, where a context determines the next value ----

  ghost predicate Determined(s: seq<int>, k: nat, n: nat)
    requires n <= |s|
  {
    forall i: nat, j: nat :: i < n && j < n && Recent(s, i, k) == Recent(s, j, k) ==> s[i] == s[j]
  }

  /** Places before `n` whose context came up more than `t` times before. */
  function Covered(s: seq<int>, k: nat, t: int, n: nat): nat
    requires n <= |s|
  {
    if n == 0 then 0
    else Covered(s, k, t, n - 1) + (if |After(s, k, Recent(s, n - 1, k), n - 1)| > t then 1 else 0)
  }

  /** Where the values after a context come from. */
  lemma {:induction false} AfterFrom(s: seq<int>, k: nat, w: seq<int>, n: nat, p: nat) returns (i: nat)
    requires n <= |s| && p < |After(s, k, w, n)|
    ensures i < n && Recent(s, i, k) == w && s[i] == After(s, k, w, n)[p]
    decreases n
  {
    if p < |After(s, k, w, n - 1)| {
      i := AfterFrom(s, k, w, n - 1, p);
    } else {
      i := n - 1;
    }
  }

  lemma {:induction false} AfterHas(s: seq<int>, k: nat, n: nat, i: nat)
    requires i < n <= |s|
    ensures s[i] in After(s, k, Recent(s, i, k), n)
  {
    if i < n - 1 {
      AfterHas(s, k, n - 1, i);
    }
  }

  /** All evidence for a determined place is its value. */
  lemma EvidenceDetermined(s: seq<int>, k: nat, i: nat, n: nat)
    requires i < n <= |s| && Determined(s, k, n)
    ensures forall v <- After(s, k, Recent(s, i, k), i) :: v == s[i]
  {
    var e := After(s, k, Recent(s, i, k), i);
    forall v | v in e ensures v == s[i] {
      var p :| 0 <= p < |e| && e[p] == v;
      var j := AfterFrom(s, k, Recent(s, i, k), i, p);
    }
  }

  lemma UniformIssued(c: Config, e: seq<int>, v: int)
    requires 0 <= c.thresh <= c.max && forall x <- e :: x == v
    ensures Issued(c, e) <==> |e| > c.thresh
  {
    forall j | 0 <= j < |e| ensures e[j] == v {
      assert e[j] in e;
    }
  }

  /** Where contexts determine the next value, the tables are never wrong when they are
      confident, and cover exactly the values whose context came up more than T times. */
  lemma {:induction false} ContextCoverage(c: Config, s: seq<int>, n: nat)
    requires n <= |s| && Tabled(c) && 0 <= c.thresh <= c.max && Determined(s, Reach(c), n)
    ensures RightCount(c, s, n) == IssuedCount(c, s, n) == Covered(s, Reach(c), c.thresh, n)
  {
    hide Issued, After, Reach, Determined;
    if n > 0 {
      DeterminedBefore(s, Reach(c), n);
      ContextCoverage(c, s, n - 1);
      EvidenceDetermined(s, Reach(c), n - 1, n);
      var e := Evidence(c, s, n - 1);
      UniformIssued(c, e, s[n - 1]);
      assert e != [] ==> e[|e| - 1] in e;
    }
  }

  lemma DeterminedBefore(s: seq<int>, k: nat, n: nat)
    requires 0 < n <= |s| && Determined(s, k, n)
    ensures Determined(s, k, n - 1)
  {
  }

  /** With threshold zero every prediction is issued, and a table is always right exactly
      where contexts determine the next value. */
  lemma {:induction false} AlwaysRightIffDetermined(c: Config, s: seq<int>, n: nat)
    requires n <= |s| && Tabled(c) && c.thresh == 0 <= c.max
    ensures RightCount(c, s, n) == IssuedCount(c, s, n) <==> Determined(s, Reach(c), n)
  {
    hide After, Reach;
    if n > 0 {
      AlwaysRightIffDetermined(c, s, n - 1);
      if Determined(s, Reach(c), n - 1) {
        NextDetermined(c, s, n - 1);
      } else {
        assert !Determined(s, Reach(c), n) by {
          var i: nat, j: nat :|
            i < n - 1 && j < n - 1 && Recent(s, i, Reach(c)) == Recent(s, j, Reach(c)) && s[i] != s[j];
        }
      }
    }
  }

  /** One more value is determined exactly if the evidence, if any, says it. */
  lemma NextDetermined(c: Config, s: seq<int>, i: nat)
    requires i < |s| && Tabled(c) && c.thresh == 0 <= c.max && Determined(s, Reach(c), i)
    ensures Determined(s, Reach(c), i + 1) <==> (Issued(c, Evidence(c, s, i)) ==> Right(c, s, i))
  {
    hide After, Reach, Determined;
    var k := Reach(c);
    var e := After(s, k, Recent(s, i, k), i);
    if e != [] {
      var p := AfterFrom(s, k, Recent(s, i, k), i, |e| - 1);
      DeterminedByOne(s, k, i, p);
    } else {
      DeterminedByNone(s, k, i);
    }
  }

  lemma DeterminedByOne(s: seq<int>, k: nat, i: nat, p: nat)
    requires p < i < |s| && Determined(s, k, i) && Recent(s, p, k) == Recent(s, i, k)
    ensures Determined(s, k, i + 1) <==> s[i] == s[p]
  {
    hide Recent;
  }

  lemma DeterminedByNone(s: seq<int>, k: nat, i: nat)
    requires i < |s| && Determined(s, k, i) && After(s, k, Recent(s, i, k), i) == []
    ensures Determined(s, k, i + 1)
  {
    hide Recent, After;
    forall a: nat, b: nat | a < i + 1 && b < i + 1 && Recent(s, a, k) == Recent(s, b, k) ensures s[a] == s[b] {
      if a < i && b == i {
        AfterHas(s, k, i, a);
      } else if b < i && a == i {
        AfterHas(s, k, i, b);
      }
    }
  }

  // ---- stride on arithmetic progressions ----

  function Term(start: int, delta: int, i: nat): int { (start + i * delta) % WORD }

  ghost predicate Progression(s: seq<int>, start: int, delta: int) {
    forall i :: 0 <= i < |s| ==> s[i] == Term(start, delta, i)
  }

  lemma WordSum(a: int, b: int, m: int)
    requires m > 0
    ensures (a % m + b % m) % m == (a + b) % m && (a % m - b % m) % m == (a - b) % m
  {
    var x, y := a / m, b / m;
    var r := (a % m + b % m) % m;
    var k := (a % m + b % m) / m;
    assert a + b == (x + y + k) * m + r by {
      assert a == x * m + a % m && b == y * m + b % m && a % m + b % m == k * m + r;
      assert (x + y + k) * m == x * m + y * m + k * m;
    }
    DivisionUnique(a + b, m, x + y + k, r);
    var r1 := (a % m - b % m) % m;
    var k1 := (a % m - b % m) / m;
    assert a - b == (x - y + k1) * m + r1 by {
      assert a == x * m + a % m && b == y * m + b % m && a % m - b % m == k1 * m + r1;
      assert (x - y + k1) * m == x * m - y * m + k1 * m;
    }
    DivisionUnique(a - b, m, x - y + k1, r1);
  }

  lemma {:induction false} ProgressionSteps(s: seq<int>, start: int, delta: int, n: nat)
    requires n <= |s| && Progression(s, start, delta)
    ensures forall v <- Steps(s, n) :: v == delta % WORD
  {
    hide Term;
    if n > 1 {
      ProgressionSteps(s, start, delta, n - 1);
      StrideBetween(start, delta, n - 2);
      assert s[n - 1] == Term(start, delta, n - 1) && s[n - 2] == Term(start, delta, n - 2);
    }
  }

  /** On an arithmetic progression modulo 2^64 every confident prediction is right, and
      all values but the first T + 2 are predicted. */
  lemma {:induction false} StrideCoverage(c: Config, s: seq<int>, n: nat, start: int, delta: int)
    requires n <= |s| && ByStride(c) && 0 <= c.thresh <= c.max && Progression(s, start, delta)
    ensures RightCount(c, s, n) == IssuedCount(c, s, n) == if n <= c.thresh + 2 then 0 else n - c.thresh - 2
  {
    hide Issued, Term, Steps;
    if n > 0 {
      StrideCoverage(c, s, n - 1, start, delta);
      var i := n - 1;
      var e := Evidence(c, s, i);
      ProgressionSteps(s, start, delta, i);
      UniformIssued(c, e, delta % WORD);
      if e != [] {
        assert e[|e| - 1] in e;
        StrideBetween(start, delta, i - 1);
        assert s[i] == Term(start, delta, i) && s[i - 1] == Term(start, delta, i - 1);
      }
    }
  }

  lemma StrideBetween(start: int, delta: int, i: nat)
    ensures var x, y := Term(start, delta, i), Term(start, delta, i + 1);
      (y - x) % WORD == delta % WORD && (x + delta % WORD) % WORD == y
  {
    var a := start + i * delta;
    assert start + (i + 1) * delta == a + delta;
    WordSum(a + delta, a, WORD);
    WordSum(a, delta, WORD);
  }

  // ---- periodic streams ----

  /** Two values are equal exactly when they are a multiple of the period apart. */
  ghost predicate Periodic(s: seq<int>, period: nat)
    requires period > 0
  {
    forall i, j :: 0 <= i < |s| && 0 <= j < |s| ==> (s[i] == s[j] <==> i % period == j % period)
  }

  lemma SuccessorMod(i: nat, period: nat)
    requires period > 0
    ensures (i + 1) % period == if i % period + 1 == period then 0 else i % period + 1
    ensures (i + 1) / period == if i % period + 1 == period then i / period + 1 else i / period
  {
    var q, r := i / period, i % period;
    assert i == q * period + r;
    if r + 1 == period {
      assert (q + 1) * period == q * period + period;
      DivisionUnique(i + 1, period, q + 1, 0);
    } else {
      DivisionUnique(i + 1, period, q, r + 1);
    }
  }

  /** How many numbers below `n` are congruent to `r`: every period has one. */
  function Congruent(n: nat, r: nat, period: nat): nat
    requires period > 0
  {
    if n == 0 then 0 else Congruent(n - 1, r, period) + (if (n - 1) % period == r then 1 else 0)
  }

  lemma {:induction false} CongruentCount(n: nat, r: nat, period: nat)
    requires r < period
    ensures Congruent(n, r, period) == n / period + (if n % period > r then 1 else 0)
  {
    if n > 0 {
      CongruentCount(n - 1, r, period);
      SuccessorMod(n - 1, period);
    } else {
      DivisionUnique(0, period, 0, 0);
    }
  }

  lemma {:induction false} ShiftMod(a: nat, b: nat, t: nat, period: nat)
    requires period > 0
    ensures a % period == b % period <==> (a + t) % period == (b + t) % period
  {
    if t > 0 {
      ShiftMod(a, b, t - 1, period);
      SuccessorMod(a + t - 1, period);
      SuccessorMod(b + t - 1, period);
    }
  }

  /** Full contexts are equal exactly when they are a multiple of the period apart. */
  lemma ContextsPeriodic(s: seq<int>, k: nat, period: nat, i: nat, j: nat)
    requires period > 0 && Periodic(s, period) && 0 < k <= i < |s| && j < |s|
    ensures Recent(s, j, k) == Recent(s, i, k) <==> k <= j && (j - k) % period == (i - k) % period
  {
    if k <= j {
      var x, y := Recent(s, j, k), Recent(s, i, k);
      if x == y {
        assert x[0] == s[j - k] && y[0] == s[i - k];
      }
      if (j - k) % period == (i - k) % period {
        forall t | 0 <= t < k ensures x[t] == y[t] {
          ShiftMod(j - k, i - k, t, period);
          assert x[t] == s[j - k + t] && y[t] == s[i - k + t];
        }
      }
    }
  }

  lemma PeriodicDetermined(s: seq<int>, k: nat, period: nat)
    requires period > 0 && Periodic(s, period) && k > 0
    ensures Determined(s, k, |s|)
  {
    forall i: nat, j: nat | i < |s| && j < |s| && Recent(s, i, k) == Recent(s, j, k) ensures s[i] == s[j] {
      if i < k || j < k {
        assert |Recent(s, i, k)| == |Recent(s, j, k)|;
      } else {
        ContextsPeriodic(s, k, period, i, j);
        ShiftMod(j - k, i - k, k, period);
        assert j - k + k == j && i - k + k == i;
      }
    }
  }

  lemma {:induction false} AfterPeriodic(s: seq<int>, k: nat, period: nat, i: nat, n: nat)
    requires period > 0 && Periodic(s, period) && 0 < k <= i < |s| && n <= |s|
    ensures |After(s, k, Recent(s, i, k), n)| == if n <= k then 0 else Congruent(n - k, (i - k) % period, period)
  {
    hide Recent;
    if n > 0 {
      AfterPeriodic(s, k, period, i, n - 1);
      ContextsPeriodic(s, k, period, i, n - 1);
    }
  }

  /** A short context, at the beginning of the stream, never came up before. */
  lemma {:induction false} AfterShort(s: seq<int>, k: nat, i: nat, n: nat)
    requires n <= i < k && i < |s|
    ensures After(s, k, Recent(s, i, k), n) == []
  {
    if n > 0 {
      AfterShort(s, k, i, n - 1);
      assert |Recent(s, n - 1, k)| != |Recent(s, i, k)|;
    }
  }

  lemma QuotientAbove(t: nat, period: nat, k: nat)
    requires period > 0
    ensures t / period > k <==> t >= (k + 1) * period
  {
    assert t == (t / period) * period + t % period;
    if t / period > k {
      MulMonotone(k + 1, t / period, period);
    } else {
      MulMonotone(t / period, k, period);
      assert (k + 1) * period == k * period + period;
    }
  }

  lemma {:induction false} CoveredPeriodic(s: seq<int>, k: nat, period: nat, t: nat, n: nat)
    requires period > 0 && Periodic(s, period) && k > 0 && n <= |s|
    ensures var warmup := k + (t + 1) * period; Covered(s, k, t, n) == if n <= warmup then 0 else n - warmup
  {
    MulMonotone(0, t + 1, period);
    if n > 0 {
      CoveredPeriodic(s, k, period, t, n - 1);
      var i := n - 1;
      if i < k {
        AfterShort(s, k, i, i);
      } else {
        AfterPeriodic(s, k, period, i, i);
        CongruentCount(i - k, (i - k) % period, period);
        QuotientAbove(i - k, period, t);
      }
    }
  }

  /** A stream of P distinct values over and over, of any length: a table with contexts of
      k values is confident, and right, on all but the first k + P (T + 1) values. */
  lemma ContextOnPeriodic(c: Config, s: seq<int>, period: nat)
    requires Tabled(c) && Reach(c) > 0 && 0 <= c.thresh <= c.max && period > 0 && Periodic(s, period)
    ensures var n, warmup := |s|, Reach(c) + (c.thresh + 1) * period;
      RightCount(c, s, n) == IssuedCount(c, s, n) == if n <= warmup then 0 else n - warmup
  {
    hide *;
    PeriodicDetermined(s, Reach(c), period);
    ContextCoverage(c, s, |s|);
    CoveredPeriodic(s, Reach(c), period, c.thresh, |s|);
  }

  /** The figures for the whole `crc32_seed` stream with the default confidence of 7 and
      order of 4: of 174080 values 165887, 165886 and 165884 are predicted, all correctly. */
  lemma OnCrc32Seed(c: Config, s: seq<int>)
    requires |s| == Lcg.OUTER * Lcg.INNER && forall t :: 0 <= t < |s| ==> s[t] == Lcg.SeedAt(t)
    requires Tabled(c) && c == Config(c.kind, 7, 7, 4)
    ensures |s| == 174080 && RightCount(c, s, |s|) == IssuedCount(c, s, |s|)
         == if c.kind.Fcm1? then 165887 else if c.kind.Fcm2? then 165886 else 165884
  {
    hide Lcg.SeedAt, RightCount, IssuedCount;
    forall i, j | 0 <= i < |s| && 0 <= j < |s| ensures s[i] == s[j] <==> i % Lcg.INNER == j % Lcg.INNER {
      Lcg.SeedWindow(i, j);
    }
    ContextOnPeriodic(c, s, Lcg.INNER);
  }
}
