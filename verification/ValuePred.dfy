/** The value-predictor model: `run_predictor` for all six kinds, on values. */
module ValuePred {
  import opened Options

  datatype PredictorKind = LastValue | Stride | TwoDelta | Fcm1 | Fcm2 | Vtage

  /** Key of the context table. */
  datatype Key = Last(v: int) | LastTwo(v2: Option<int>, v1: Option<int>) | Window(w: seq<int>)

  datatype Entry = Entry(value: int, conf: int)

  datatype State = State(
    last: Option<int>, last2: Option<int>,
    stride: Option<int>, strideConf: int, lvConf: int,
    fcm: map<Key, Entry>,
    confident: nat, correct: nat, total: nat)

  datatype Config = Config(kind: PredictorKind, max: int, thresh: int, order: nat)

  const WORD: int := 0x1_0000_0000_0000_0000

  const START := State(None, None, None, 0, 0, map[], 0, 0, 0)

  function Up(v: int, max: int): int { if v + 1 < max then v + 1 else max }

  /** The context of value `i`: none for the first value of the order-1 table. */
  function KeyOf(c: Config, s: seq<int>, i: nat, st: State): Option<Key>
    requires i < |s|
  {
    match c.kind
    case Fcm1 => if st.last.None? then None else Some(Last(st.last.value))
    case Fcm2 => Some(LastTwo(st.last2, st.last))
    case _ => Some(Window(s[if i < c.order then 0 else i - c.order..i]))
  }

  /** The prediction made for value `i`, with its confidence. */
  function Predict(c: Config, s: seq<int>, i: nat, st: State): Option<Entry>
    requires i < |s|
  {
    match c.kind
    case LastValue => if st.last.Some? then Some(Entry(st.last.value, st.lvConf)) else None
    case Stride => PredictStride(st)
    case TwoDelta => PredictStride(st)
    case _ =>
      var key := KeyOf(c, s, i, st);
      if key.Some? && key.value in st.fcm then Some(st.fcm[key.value]) else None
  }

  function PredictStride(st: State): Option<Entry> {
    if st.last.Some? && st.stride.Some? then Some(Entry((st.last.value + st.stride.value) % WORD, st.strideConf))
    else None
  }

  /** Count a prediction that was confident enough to be issued. */
  function Count(c: Config, p: Option<Entry>, v: int, st: State): State {
    if p.Some? && p.value.conf >= c.thresh
    then st.(total := st.total + 1, confident := st.confident + 1,
             correct := st.correct + (if p.value.value == v then 1 else 0))
    else st.(total := st.total + 1)
  }

  function UpdateLastValue(c: Config, v: int, st: State): State {
    if st.last.None? then st
    else st.(lvConf := if st.last.value == v then Up(st.lvConf, c.max) else 0)
  }

  function UpdateStride(c: Config, v: int, st: State): State {
    if st.last.None? then st
    else
      var stride := (v - st.last.value) % WORD;
      if st.stride == Some(stride) then st.(strideConf := Up(st.strideConf, c.max))
      else st.(strideConf := 0, stride := Some(stride))
  }

  function UpdateEntry(c: Config, v: int, fcm: map<Key, Entry>, key: Key): map<Key, Entry> {
    if key !in fcm then fcm[key := Entry(v, 0)]
    else if fcm[key].value == v then fcm[key := Entry(v, Up(fcm[key].conf, c.max))]
    else fcm[key := Entry(v, 0)]
  }

  function UpdateTable(c: Config, s: seq<int>, i: nat, st: State): State
    requires i < |s|
  {
    var key := KeyOf(c, s, i, st);
    if key.None? then st else st.(fcm := UpdateEntry(c, s[i], st.fcm, key.value))
  }

  function Update(c: Config, s: seq<int>, i: nat, st: State): State
    requires i < |s|
  {
    match c.kind
    case LastValue => UpdateLastValue(c, s[i], st)
    case Stride => UpdateStride(c, s[i], st)
    case TwoDelta => UpdateStride(c, s[i], st)
    case _ => UpdateTable(c, s, i, st)
  }

  function Step(c: Config, s: seq<int>, i: nat, st: State): State
    requires i < |s|
  {
    var st1 := Update(c, s, i, Count(c, Predict(c, s, i, st), s[i], st));
    st1.(last2 := st.last, last := Some(s[i]))
  }

  /** The predictor after the first `n` values. */
  function Run(c: Config, s: seq<int>, n: nat): State
    requires n <= |s|
  {
    if n == 0 then START else Step(c, s, n - 1, Run(c, s, n - 1))
  }

  // ---- 2-delta is stride ----

  /** The `2delta` kind does not differ from `stride`: both arms of its update are the same. */
  lemma {:induction false} TwoDeltaIsStride(c: Config, d: Config, s: seq<int>, n: nat)
    requires n <= |s| && c.kind == Stride && d == c.(kind := TwoDelta)
    ensures Run(d, s, n) == Run(c, s, n)
  {
    if n > 0 {
      TwoDeltaIsStride(c, d, s, n - 1);
      SameStrideStep(c, d, s, n - 1, Run(c, s, n - 1));
      hide Step;
    }
  }

  lemma SameStrideStep(c: Config, d: Config, s: seq<int>, i: nat, st: State)
    requires i < |s| && c.kind == Stride && d == c.(kind := TwoDelta)
    ensures Step(d, s, i, st) == Step(c, s, i, st)
  {
  }

  lemma LastKept(c: Config, s: seq<int>, i: nat, st: State)
    requires i < |s|
    ensures var r := Update(c, s, i, Count(c, Predict(c, s, i, st), s[i], st));
      r.last == st.last && r.last2 == st.last2
  {
    hide Predict, KeyOf, UpdateEntry;
  }
}
