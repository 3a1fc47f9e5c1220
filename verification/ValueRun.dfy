/** `run_predictor` with its mutable state: the counters, the confidence objects and the
    context table. */
module ValueRun {
  import opened Options
  import opened ValuePred
  import opened ValueCoverage

  // ---- the mutable predictor ----

  class SatConf {
    var v: int

    constructor ()
      ensures v == 0
    {
      v := 0;
    }

    method Increase(mx: int)
      modifies this
      ensures v == Up(old(v), mx)
    {
      v := if mx < v + 1 then mx else v + 1;
    }

    method Reset()
      modifies this
      ensures v == 0
    {
      v := 0;
    }
  }

  /** The local variables of `run_predictor`. */
  class Predictor {
    var last: Option<int>
    var last2: Option<int>
    var stride: Option<int>
    const strideConf: SatConf
    const lvConf: SatConf
    var fcm: map<Key, (int, SatConf)>
    var confident: nat
    var correct: nat
    var total: nat

    ghost function Confs(): set<SatConf>
      reads this
    {
      {strideConf, lvConf} + set k <- fcm :: fcm[k].1
    }

    /** No two table entries share a confidence counter. */
    ghost predicate Valid()
      reads this
    {
      && strideConf != lvConf
      && (forall k <- fcm :: fcm[k].1 != strideConf && fcm[k].1 != lvConf)
      && (forall k <- fcm, l <- fcm :: k != l ==> fcm[k].1 != fcm[l].1)
    }

    ghost function Table(): map<Key, Entry>
      reads this, Confs()
    {
      map k <- fcm :: Entry(fcm[k].0, fcm[k].1.v)
    }

    ghost function View(): State
      reads this, Confs()
    {
      State(last, last2, stride, strideConf.v, lvConf.v, Table(), confident, correct, total)
    }

    constructor ()
      ensures Valid() && View() == START && fresh(this) && fresh(Confs())
    {
      last, last2, stride, fcm := None, None, None, map[];
      confident, correct, total := 0, 0, 0;
      strideConf := new SatConf();
      lvConf := new SatConf();
    }

    method Predicted(c: Config, s: seq<int>, i: nat) returns (p: Option<Entry>)
      requires Valid() && i < |s|
      ensures p == Predict(c, s, i, old(View()))
      ensures Valid() && View() == old(View()) && Confs() == old(Confs())
    {
      p := None;
      match c.kind {
        case LastValue =>
          if last.Some? {
            p := Some(Entry(last.value, lvConf.v));
          }
        case Stride | TwoDelta =>
          if last.Some? && stride.Some? {
            p := Some(Entry((last.value + stride.value) % WORD, strideConf.v));
          }
        case _ =>
          var key := KeyNow(c, s, i);
          if key.Some? && key.value in fcm {
            p := Some(Entry(fcm[key.value].0, fcm[key.value].1.v));
          }
      }
    }

    method KeyNow(c: Config, s: seq<int>, i: nat) returns (key: Option<Key>)
      requires i < |s|
      ensures key == KeyOf(c, s, i, View())
    {
      match c.kind {
        case Fcm1 => key := if last.None? then None else Some(Last(last.value));
        case Fcm2 => key := Some(LastTwo(last2, last));
        case _ => key := Some(Window(s[if i < c.order then 0 else i - c.order..i]));
      }
    }

    method Issue(c: Config, p: Option<Entry>, v: int)
      requires Valid()
      modifies this`total, this`confident, this`correct
      ensures Valid() && View() == Count(c, p, v, old(View())) && Confs() == old(Confs())
    {
      total := total + 1;
      if p.Some? && p.value.conf >= c.thresh {
        confident := confident + 1;
        if p.value.value == v {
          correct := correct + 1;
        }
      }
      assert Table() == old(Table());
    }

    method LearnLastValue(c: Config, v: int)
      requires Valid()
      modifies lvConf
      ensures Valid() && View() == UpdateLastValue(c, v, old(View())) && Confs() == old(Confs())
    {
      if last.Some? {
        if last.value == v {
          lvConf.Increase(c.max);
        } else {
          lvConf.Reset();
        }
      }
      assert Table() == old(Table());
    }

    method LearnStride(c: Config, v: int)
      requires Valid()
      modifies strideConf, this`stride
      ensures Valid() && View() == UpdateStride(c, v, old(View())) && Confs() == old(Confs())
    {
      if last.Some? {
        var newStride := (v - last.value) % WORD;
        if stride.Some? && newStride == stride.value {
          strideConf.Increase(c.max);
        } else {
          strideConf.Reset();
          stride := Some(newStride);
        }
      }
      assert Table() == old(Table());
    }

    method LearnEntry(c: Config, v: int, key: Key)
      requires Valid()
      modifies this`fcm, Confs()
      ensures Valid() && fresh(Confs() - old(Confs()))
      ensures View() == old(View()).(fcm := UpdateEntry(c, v, old(View()).fcm, key))
    {
      if key !in fcm {
        InsertEntry(v, key);
      } else if fcm[key].0 == v {
        fcm[key].1.Increase(c.max);
        assert Table() == UpdateEntry(c, v, old(Table()), key);
      } else {
        ResetEntry(v, key);
      }
    }

    method ResetEntry(v: int, key: Key)
      requires Valid() && key in fcm
      modifies this`fcm, Confs()
      ensures Valid() && fresh(Confs() - old(Confs()))
      ensures View() == old(View()).(fcm := old(View()).fcm[key := Entry(v, 0)])
    {
      fcm[key].1.Reset();
      fcm := fcm[key := (v, fcm[key].1)];
      assert Table() == old(Table())[key := Entry(v, 0)];
    }

    method InsertEntry(v: int, key: Key)
      requires Valid() && key !in fcm
      modifies this`fcm
      ensures Valid() && fresh(Confs() - old(Confs()))
      ensures Table() == old(Table())[key := Entry(v, 0)]
      ensures View() == old(View()).(fcm := Table())
    {
      var conf := new SatConf();
      fcm := fcm[key := (v, conf)];
      assert Table() == old(Table())[key := Entry(v, 0)];
    }

    method Learn(c: Config, s: seq<int>, i: nat)
      requires Valid() && i < |s|
      modifies this`fcm, this`stride, Confs()
      ensures Valid() && fresh(Confs() - old(Confs()))
      ensures View() == Update(c, s, i, old(View()))
    {
      hide UpdateEntry, UpdateStride, UpdateLastValue, Valid, View, KeyOf;
      match c.kind {
        case LastValue => LearnLastValue(c, s[i]);
        case Stride | TwoDelta => LearnStride(c, s[i]);
        case _ =>
          var key := KeyNow(c, s, i);
          if key.Some? {
            LearnEntry(c, s[i], key.value);
          }
      }
    }

    /** One turn of the loop. */
    method Observe(c: Config, s: seq<int>, i: nat)
      requires Valid() && i < |s|
      modifies this, Confs()
      ensures Valid() && fresh(Confs() - old(Confs()))
      ensures View() == Step(c, s, i, old(View()))
    {
      LastKept(c, s, i, View());
      hide Update, Count, Predict, View, Valid;
      var p := Predicted(c, s, i);
      Issue(c, p, s[i]);
      Learn(c, s, i);
      Shift(s[i]);
    }

    method Shift(v: int)
      requires Valid()
      modifies this`last, this`last2
      ensures Valid() && Confs() == old(Confs())
      ensures View() == old(View()).(last2 := old(View()).last, last := Some(v))
    {
      last2 := last;
      last := Some(v);
      assert Table() == old(Table());
    }
  }

  /** `run_predictor`: for every kind, the predictions issued and the right ones are those
      that the stream's own evidence makes. */
  method RunPredictor(s: seq<int>, c: Config) returns (confident: nat, correct: nat, total: nat)
    ensures confident == IssuedCount(c, s, |s|) && correct == RightCount(c, s, |s|) && total == |s|
    ensures correct <= confident <= total
  {
    hide Step, Run, IssuedCount, RightCount, Remembers, Predictor.Valid, Predictor.View;
    var p := new Predictor();
    RunStarts(c, s);
    for i := 0 to |s|
      invariant fresh(p) && fresh(p.Confs())
      invariant p.Valid() && p.View() == Run(c, s, i)
    {
      RunStep(c, s, i);
      p.Observe(c, s, i);
    }
    RunCounts(c, s, |s|);
    TalliesShown(p);
    confident, correct, total := p.confident, p.correct, p.total;
  }

  lemma TalliesShown(p: Predictor)
    ensures var st := p.View(); p.confident == st.confident && p.correct == st.correct && p.total == st.total
  {
  }

  lemma RunStarts(c: Config, s: seq<int>)
    ensures Run(c, s, 0) == START
  {
  }

  lemma RunStep(c: Config, s: seq<int>, i: nat)
    requires i < |s|
    ensures Run(c, s, i + 1) == Step(c, s, i, Run(c, s, i))
  {
    hide Step;
  }
}
