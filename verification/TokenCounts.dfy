/** What the scan of a block counts, said of its words alone: how the block is cut into
    words, where each of them ends up, and which of its steps are counted. */
module TokenCounts {
  import opened NumberTokens
  import opened CoreState

  // ---- the words of a block ----

  /** The end of the word that starts at `p` and is read up to `q`: the first comma or zero,
      or the place where it can no longer become a number. */
  function WordEnd(buf: seq<Byte>, p: nat, q: nat): (e: nat)
    requires p <= q <= |buf|
    ensures q <= e <= |buf|
    decreases |buf| - q
  {
    if q == |buf| || buf[q] == NUL || buf[q] == COMMA || Run(Start, Word(buf, p, q)).Invalid? then q
    else WordEnd(buf, p, q + 1)
  }

  /** Where reading goes on: a comma behind a word is skipped. */
  function AfterWord(buf: seq<Byte>, p: nat): (q: nat)
    requires p <= |buf|
    ensures p <= q <= |buf|
  {
    var e := WordEnd(buf, p, p);
    if e < |buf| && buf[e] == COMMA && !Run(Start, Word(buf, p, e)).Invalid? then e + 1 else e
  }

  lemma WordsAdvance(buf: seq<Byte>, p: nat)
    requires p < |buf| && buf[p] != NUL
    ensures AfterWord(buf, p) > p
  {
    assert Word(buf, p, p) == [];
  }

  /** The words from `p` on, up to the first zero that no word reaches over. */
  function WordsOf(buf: seq<Byte>, p: nat): (ws: seq<seq<Class>>)
    requires p <= |buf|
    decreases |buf| - p
  {
    if p == |buf| || buf[p] == NUL then []
    else
      WordsAdvance(buf, p);
      [Word(buf, p, WordEnd(buf, p, p))] + WordsOf(buf, AfterWord(buf, p))
  }

  // ---- what is counted ----

  /** The counter of `s` tells of a step between these states: those of the beginning, the
      signs and the exponent of every character read there, those of the two number states
      of leaving them, and that of Invalid of a step there from the beginning or from a
      complete scientific number. */
  predicate Tells(s: State, from: State, to: State) {
    match s
    case Start => from == Start
    case S1 => from == S1
    case S2 => from == S2
    case Exponent => from == Exponent
    case Int => from == Int && to != Int
    case Float => from == Float && to != Float
    case Invalid => (from == Start || from == Scientific) && to == Invalid
    case Scientific => false
  }

  /** The steps of a word that the counter of `s` tells of. */
  function Told(s: State, w: seq<Class>): nat {
    if w == [] then 0
    else
      var u := w[..|w| - 1];
      Told(s, u) + (if Tells(s, Run(Start, u), Run(Start, w)) then 1 else 0)
  }

  function ToldAll(s: State, ws: seq<seq<Class>>): nat {
    if ws == [] then 0 else Told(s, ws[0]) + ToldAll(s, ws[1..])
  }

  /** The words that end up in state `s`. */
  function Ends(s: State, ws: seq<seq<Class>>): nat {
    if ws == [] then 0 else (if Run(Start, ws[0]) == s then 1 else 0) + Ends(s, ws[1..])
  }

  lemma CountedTells(from: State, c: Class, s: State)
    requires from != Invalid
    ensures s in Counted(from, c) <==> Tells(s, from, Next(from, c))
  {
  }

  /** One more character of a word. */
  lemma ReadOne(buf: seq<Byte>, p: nat, q: nat, t: State)
    requires p <= q < |buf|
    ensures var s := Run(Start, Word(buf, p, q)); var w := Word(buf, p, q + 1);
      && Run(Start, w) == Next(s, ClassOf(buf[q]))
      && Told(t, w) == Told(t, Word(buf, p, q)) + (if Tells(t, s, Next(s, ClassOf(buf[q]))) then 1 else 0)
  {
    hide ClassOf, Next, Tells;
    var w := Word(buf, p, q + 1);
    assert w[..|w| - 1] == Word(buf, p, q);
  }

  lemma ScanOne(buf: seq<Byte>, q: nat, s: State, counts: seq<nat>)
    requires q < |buf| && |counts| == 8 && buf[q] != NUL && buf[q] != COMMA && s != Invalid
    ensures var c := ClassOf(buf[q]); var more := Bump(counts, Counted(s, c));
      && Scan(buf, q, s, counts) == Scan(buf, q + 1, Next(s, c), more)
      && forall i :: 0 <= i < 8 ==> more[i] == counts[i] + (if Tells(StateOf(i), s, Next(s, c)) then 1 else 0)
  {
    hide ClassOf, Next, Tells, Counted;
    forall i | 0 <= i < 8
      ensures StateOf(i) in Counted(s, ClassOf(buf[q])) <==> Tells(StateOf(i), s, Next(s, ClassOf(buf[q])))
    {
      CountedTells(s, ClassOf(buf[q]), StateOf(i));
    }
  }

  lemma ScanEnds(buf: seq<Byte>, q: nat, s: State, counts: seq<nat>)
    requires q <= |buf| && |counts| == 8
    requires q == |buf| || buf[q] == NUL || buf[q] == COMMA || s.Invalid?
    ensures Scan(buf, q, s, counts)
         == ScanResult(if q < |buf| && buf[q] == COMMA && !s.Invalid? then q + 1 else q, s, counts)
  {
  }

  lemma {:induction false} ScanReads(buf: seq<Byte>, p: nat, q: nat, counts: seq<nat>)
    requires p <= q <= |buf| && |counts| == 8
    ensures var r := Scan(buf, q, Run(Start, Word(buf, p, q)), counts); var e := WordEnd(buf, p, q);
      && r.state == Run(Start, Word(buf, p, e))
      && r.p == (if e < |buf| && buf[e] == COMMA && !r.state.Invalid? then e + 1 else e)
      && forall i :: 0 <= i < 8 ==>
        r.counts[i] + Told(StateOf(i), Word(buf, p, q)) == counts[i] + Told(StateOf(i), Word(buf, p, e))
    decreases |buf| - q
  {
    hide ClassOf, Next, Counted, Tells, Scan, Bump, Told, Word, Run, StateOf;
    var s := Run(Start, Word(buf, p, q));
    if q < |buf| && buf[q] != NUL && buf[q] != COMMA && !s.Invalid? {
      ScanOne(buf, q, s, counts);
      forall i | 0 <= i < 8
        ensures Told(StateOf(i), Word(buf, p, q + 1)) == Told(StateOf(i), Word(buf, p, q))
             + (if Tells(StateOf(i), s, Next(s, ClassOf(buf[q]))) then 1 else 0)
      {
        ReadOne(buf, p, q, StateOf(i));
      }
      ReadOne(buf, p, q, Start);
      ScanReads(buf, p, q + 1, Bump(counts, Counted(s, ClassOf(buf[q]))));
    } else {
      ScanEnds(buf, q, s, counts);
    }
  }

  /** One call reads one word: where it stands then, its end state, and what it counts. */
  lemma CallReads(buf: seq<Byte>, p: nat, counts: seq<nat>)
    requires p <= |buf| && |counts| == 8
    ensures var r := Scan(buf, p, Start, counts); var w := Word(buf, p, WordEnd(buf, p, p));
      && r.p == AfterWord(buf, p) && r.state == Run(Start, w)
      && forall i :: 0 <= i < 8 ==> r.counts[i] == counts[i] + Told(StateOf(i), w)
  {
    assert Word(buf, p, p) == [];
    ScanReads(buf, p, p, counts);
  }

  /** All calls: the end states are those of the words, and every counter grows by the
      steps it tells of. */
  lemma {:induction false} ScanAllReads(buf: seq<Byte>, p: nat, counts: seq<nat>)
    requires p <= |buf| && |counts| == 8
    ensures var r := ScanAll(buf, p, counts); var ws := WordsOf(buf, p);
      && |r.0| == |ws| && (forall i :: 0 <= i < |ws| ==> r.0[i] == Run(Start, ws[i]))
      && (forall s :: CountOf(r.0, s) == Ends(s, ws))
      && forall i :: 0 <= i < 8 ==> r.1[i] == counts[i] + ToldAll(StateOf(i), ws)
    decreases |buf| - p
  {
    hide Scan, WordEnd, AfterWord, Told;
    if p < |buf| && buf[p] != NUL {
      ScanAdvances(buf, p, counts);
      WordsAdvance(buf, p);
      CallReads(buf, p, counts);
      var r := Scan(buf, p, Start, counts);
      ScanAllReads(buf, r.p, r.counts);
    }
  }

  /** The end states of words, and their counted steps, state by state. */
  function FinalCounts(ws: seq<seq<Class>>): (r: seq<nat>)
    ensures |r| == 8
  {
    seq(8, i requires 0 <= i < 8 => Ends(StateOf(i), ws))
  }

  function TrackCounts(ws: seq<seq<Class>>): (r: seq<nat>)
    ensures |r| == 8
  {
    seq(8, i requires 0 <= i < 8 => ToldAll(StateOf(i), ws))
  }

  lemma {:induction false} CountsAppend(s: State, u: seq<seq<Class>>, v: seq<seq<Class>>)
    ensures Ends(s, u + v) == Ends(s, u) + Ends(s, v) && ToldAll(s, u + v) == ToldAll(s, u) + ToldAll(s, v)
  {
    if u == [] {
      assert u + v == v;
    } else {
      assert (u + v)[1..] == u[1..] + v;
      CountsAppend(s, u[1..], v);
    }
  }

  /** Every word ends in one state. */
  lemma {:induction false} EndsSum(ws: seq<seq<Class>>)
    ensures SumOf(FinalCounts(ws)) == |ws|
  {
    SumOfEight(FinalCounts(ws));
    if ws != [] {
      EndsSum(ws[1..]);
      SumOfEight(FinalCounts(ws[1..]));
    }
  }
}
