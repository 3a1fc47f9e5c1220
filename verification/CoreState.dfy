/** `core_state.c`: scanning a block token by token, and counting what is found. */
module CoreState {
  import opened NumberTokens

  // ---- scanning ----

  function At(buf: seq<Byte>, p: nat): Byte { if p < |buf| then buf[p] else NUL }

  function StateOf(i: nat): State
    requires i < 8
  {
    if i == 0 then Start else if i == 1 then Invalid else if i == 2 then S1 else if i == 3 then S2
    else if i == 4 then Int else if i == 5 then Float else if i == 6 then Exponent else Scientific
  }

  /** Eight counters, one a state, with those of `which` incremented. */
  function Bump(counts: seq<nat>, which: set<State>): (r: seq<nat>)
    requires |counts| == 8
    ensures |r| == 8
  {
    seq(8, i requires 0 <= i < 8 => counts[i] + (if StateOf(i) in which then 1 else 0))
  }

  datatype ScanResult = ScanResult(p: nat, state: State, counts: seq<nat>)

  /** `core_state_transition` from position `p` in a given state. */
  function Scan(buf: seq<Byte>, p: nat, s: State, counts: seq<nat>): (r: ScanResult)
    requires |counts| == 8
    ensures |r.counts| == 8 && p <= r.p
    ensures p <= |buf| ==> r.p <= |buf|
    decreases if p < |buf| then |buf| - p else 0
  {
    if At(buf, p) == NUL || s.Invalid? then ScanResult(p, s, counts)
    else if At(buf, p) == COMMA then ScanResult(p + 1, s, counts)
    else
      var c := ClassOf(At(buf, p));
      Scan(buf, p + 1, Next(s, c), Bump(counts, Counted(s, c)))
  }

  /** The classes of the characters `p` to `q`. */
  function Word(buf: seq<Byte>, p: nat, q: nat): (w: seq<Class>)
    requires p <= q <= |buf|
    ensures |w| == q - p
  {
    if p == q then [] else Word(buf, p, q - 1) + [ClassOf(buf[q - 1])]
  }

  ghost predicate PlainText(buf: seq<Byte>, p: nat, q: nat)
    requires p <= q <= |buf|
  {
    forall i :: p <= i < q ==> buf[i] != NUL && buf[i] != COMMA
  }

  /** What one call has found: `e` is where its word ends. */
  ghost predicate TokenEnds(buf: seq<Byte>, p: nat, e: nat, r: ScanResult)
    requires p <= e <= |buf|
  {
    && PlainText(buf, p, e)
    && r.state == Run(Start, Word(buf, p, e))
    && if r.state.Invalid? then r.p == e > p && Run(Start, Word(buf, p, e - 1)) != Invalid
       else if At(buf, e) == COMMA then r.p == e + 1
       else At(buf, e) == NUL && r.p == e
  }

  lemma {:induction false} ScanFinds(buf: seq<Byte>, p: nat, q: nat, s: State, counts: seq<nat>) returns (e: nat)
    requires p <= q <= |buf| && |counts| == 8
    requires PlainText(buf, p, q) && s == Run(Start, Word(buf, p, q))
    requires s.Invalid? ==> q > p && Run(Start, Word(buf, p, q - 1)) != Invalid
    ensures q <= e <= |buf| && TokenEnds(buf, p, e, Scan(buf, q, s, counts))
    decreases |buf| - q
  {
    hide ClassOf, Next, Counted, Bump;
    e := q;
    if At(buf, q) != NUL && !s.Invalid? && At(buf, q) != COMMA {
      var c := ClassOf(buf[q]);
      assert Word(buf, p, q + 1)[..q + 1 - p - 1] == Word(buf, p, q);
      e := ScanFinds(buf, p, q + 1, Next(s, c), Bump(counts, Counted(s, c)));
    }
  }

  /** One call of `core_state_transition` on non-empty input: it advances; it reports
      Int, Float or Scientific exactly when the word up to the comma or the end is of that
      language; and it reports Invalid exactly at the first character with which the word
      can no longer become a number. */
  lemma TokenClassified(buf: seq<Byte>, p: nat, counts: seq<nat>) returns (e: nat)
    requires p < |buf| && buf[p] != NUL && |counts| == 8
    ensures var r := Scan(buf, p, Start, counts);
      && p < r.p <= |buf| && p <= e <= r.p && PlainText(buf, p, e)
      && (r.state == Int <==> IsInt(Word(buf, p, e)))
      && (r.state == Float <==> IsFloat(Word(buf, p, e)))
      && (r.state == Scientific <==> IsScientific(Word(buf, p, e)))
      && (r.state == Invalid <==> !Viable(Word(buf, p, e)))
      && (r.state == Invalid ==> r.p == e > p && Viable(Word(buf, p, e - 1)))
      && (r.state != Invalid ==> if At(buf, e) == COMMA then r.p == e + 1 else At(buf, e) == NUL && r.p == e)
  {
    hide ClassOf, Next, Counted, Bump;
    assert Word(buf, p, p) == [];
    e := ScanFinds(buf, p, p, Start, counts);
    Classification(Word(buf, p, e));
    InvalidIffNotViable(Word(buf, p, e));
    if e > p {
      InvalidIffNotViable(Word(buf, p, e - 1));
    }
  }

  /** The end states of all calls until the terminating zero, and the counters then. */
  function ScanAll(buf: seq<Byte>, p: nat, counts: seq<nat>): (r: (seq<State>, seq<nat>))
    requires |counts| == 8
    ensures |r.1| == 8
    decreases if p < |buf| then |buf| - p else 0
  {
    if At(buf, p) == NUL then ([], counts)
    else
      var r := Scan(buf, p, Start, counts);
      ScanAdvances(buf, p, counts);
      var rest := ScanAll(buf, r.p, r.counts);
      ([r.state] + rest.0, rest.1)
  }

  lemma ScanAdvances(buf: seq<Byte>, p: nat, counts: seq<nat>)
    requires |counts| == 8 && At(buf, p) != NUL
    ensures p < Scan(buf, p, Start, counts).p <= |buf|
  {
    hide ClassOf, Next, Counted, Bump;
    var e := TokenClassified(buf, p, counts);
  }

  // ---- the C functions ----

  method Increment(counts: array<nat>, s: State)
    requires counts.Length == 8
    modifies counts
    ensures counts[..] == Bump(old(counts[..]), {s})
  {
    counts[Index(s)] := counts[Index(s)] + 1;
  }

  /** The switch of `core_state_transition`. */
  method OneTransition(state0: State, c: Class, counts: array<nat>) returns (state: State)
    requires counts.Length == 8
    modifies counts
    ensures state == Next(state0, c)
    ensures counts[..] == Bump(old(counts[..]), Counted(state0, c))
  {
    state := state0;
    ghost var before := counts[..];
    match state0 {
      case Start =>
        if c.Digit? { state := Int; }
        else if c.Sign? { state := S1; }
        else if c.Dot? { state := Float; }
        else {
          state := Invalid;
          Increment(counts, Invalid);
        }
        Increment(counts, Start);
        BumpTwice(before, Invalid, Start);
      case S1 =>
        if c.Digit? { state := Int; }
        else if c.Dot? { state := Float; }
        else { state := Invalid; }
        Increment(counts, S1);
      case Int =>
        if c.Dot? {
          state := Float;
          Increment(counts, Int);
        } else if !c.Digit? {
          state := Invalid;
          Increment(counts, Int);
        }
      case Float =>
        if c.Exp? {
          state := S2;
          Increment(counts, Float);
        } else if !c.Digit? {
          state := Invalid;
          Increment(counts, Float);
        }
      case S2 =>
        state := if c.Sign? then Exponent else Invalid;
        Increment(counts, S2);
      case Exponent =>
        state := if c.Digit? then Scientific else Invalid;
        Increment(counts, Exponent);
      case Scientific =>
        if !c.Digit? {
          state := Invalid;
          Increment(counts, Invalid);
        }
      case Invalid =>
    }
    BumpNone(before);
  }

  lemma BumpTwice(counts: seq<nat>, s: State, t: State)
    requires |counts| == 8 && s != t
    ensures Bump(Bump(counts, {s}), {t}) == Bump(counts, {s, t})
  {
  }

  lemma BumpNone(counts: seq<nat>)
    requires |counts| == 8
    ensures Bump(counts, {}) == counts
  {
  }

  /** `core_state_transition`; the scan stays inside the block because a zero is ahead. */
  method Transition(mem: array<Byte>, p0: nat, counts: array<nat>, ghost stop: nat) returns (p: nat, state: State)
    requires mem as object != counts
    requires counts.Length == 8 && p0 <= stop < mem.Length && mem[stop] == NUL
    modifies counts
    ensures ScanResult(p, state, counts[..]) == Scan(mem[..], p0, Start, old(counts[..]))
    ensures p0 <= p <= stop
  {
    hide ClassOf, Next, Counted, Bump;
    p, state := p0, Start;
    ghost var goal := Scan(mem[..], p0, Start, counts[..]);
    ghost var buf := mem[..];
    while mem[p] != NUL && state != Invalid
      invariant p0 <= p <= stop
      invariant mem[..] == buf
      invariant goal == Scan(buf, p, state, counts[..])
      decreases stop - p
    {
      var symbol := mem[p];
      if symbol == COMMA {
        p := p + 1;
        return;
      }
      state := OneTransition(state, ClassOf(symbol), counts);
      p := p + 1;
    }
  }

  /** How many of the end states are `s`. */
  function CountOf(tokens: seq<State>, s: State): nat {
    if tokens == [] then 0 else (if tokens[0] == s then 1 else 0) + CountOf(tokens[1..], s)
  }

  /** Counters after adding the end states of one scan. */
  function Tallied(finals: seq<nat>, tokens: seq<State>): (r: seq<nat>)
    requires |finals| == 8
    ensures |r| == 8 && forall i :: 0 <= i < 8 ==> r[i] == finals[i] + CountOf(tokens, StateOf(i))
  {
    seq(8, i requires 0 <= i < 8 => finals[i] + CountOf(tokens, StateOf(i)))
  }

  function SumOf(counts: seq<nat>): nat {
    if counts == [] then 0 else counts[0] + SumOf(counts[1..])
  }

  lemma TallyFirst(finals: seq<nat>, tokens: seq<State>)
    requires |finals| == 8 && tokens != []
    ensures Tallied(finals, tokens) == Tallied(Bump(finals, {tokens[0]}), tokens[1..])
  {
  }

  lemma SumBump(finals: seq<nat>, s: State)
    requires |finals| == 8
    ensures SumOf(Bump(finals, {s})) == SumOf(finals) + 1
  {
    SumOfEight(finals);
    SumOfEight(Bump(finals, {s}));
  }

  lemma SumFrom(c: seq<nat>, i: nat)
    requires i < |c|
    ensures SumOf(c[i..]) == c[i] + SumOf(c[i + 1..])
  {
    assert c[i..][1..] == c[i + 1..];
  }

  lemma SumOfEight(c: seq<nat>)
    requires |c| == 8
    ensures SumOf(c) == c[0] + c[1] + c[2] + c[3] + c[4] + c[5] + c[6] + c[7]
  {
    SumFrom(c, 0); SumFrom(c, 1); SumFrom(c, 2); SumFrom(c, 3);
    SumFrom(c, 4); SumFrom(c, 5); SumFrom(c, 6); SumFrom(c, 7);
    assert c[0..] == c && c[8..] == [];
  }

  /** Every call ends in one state: the final counts add up to the number of calls. */
  lemma {:induction false} CallsCounted(finals: seq<nat>, tokens: seq<State>)
    requires |finals| == 8
    ensures SumOf(Tallied(finals, tokens)) == SumOf(finals) + |tokens|
    decreases |tokens|
  {
    if tokens == [] {
      assert Tallied(finals, []) == finals;
    } else {
      TallyFirst(finals, tokens);
      SumBump(finals, tokens[0]);
      CallsCounted(Bump(finals, {tokens[0]}), tokens[1..]);
    }
  }

  /** `while (*p != 0) final_counts[core_state_transition(&p, track_counts)]++;` */
  method ScanBlock(mem: array<Byte>, finals: array<nat>, tracks: array<nat>, ghost stop: nat)
    requires mem as object != finals && mem as object != tracks && finals != tracks
    requires finals.Length == 8 && tracks.Length == 8
    requires stop < mem.Length && mem[stop] == NUL
    modifies finals, tracks
    ensures var r := ScanAll(mem[..], 0, old(tracks[..]));
      finals[..] == Tallied(old(finals[..]), r.0) && tracks[..] == r.1
  {
    hide Scan, Bump;
    var p := 0;
    ghost var buf := mem[..];
    ghost var goal := ScanAll(buf, 0, tracks[..]);
    ghost var f0 := finals[..];
    while mem[p] != NUL
      invariant p <= stop && mem[..] == buf
      invariant goal.1 == ScanAll(buf, p, tracks[..]).1
      invariant Tallied(f0, goal.0) == Tallied(finals[..], ScanAll(buf, p, tracks[..]).0)
      decreases stop - p
    {
      ScanAdvances(buf, p, tracks[..]);
      ghost var rest := ScanAll(buf, p, tracks[..]);
      ghost var t0 := tracks[..];
      var q, fstate := Transition(mem, p, tracks, stop);
      assert ScanResult(q, fstate, tracks[..]) == Scan(buf, p, Start, t0);
      assert rest == ([fstate] + ScanAll(buf, q, tracks[..]).0, ScanAll(buf, q, tracks[..]).1);
      TallyFirst(finals[..], rest.0);
      assert rest.0[1..] == ScanAll(buf, q, tracks[..]).0;
      Increment(finals, fstate);
      p := q;
    }
    assert Tallied(finals[..], []) == finals[..];
  }
}
