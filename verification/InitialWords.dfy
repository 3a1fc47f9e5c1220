/** What the first scan finds in an initial block: numbers of every kind and errors, as many
    as the seeds select. */
module InitialWords {
  import opened NumberTokens
  import opened CoreState
  import opened TokenCounts
  import opened StateBench

  // ---- one word in a block ----

  /** The state after the first `i` characters of a text. */
  function Reached(t: seq<Byte>, i: nat): State
    requires i <= |t|
  {
    if i == 0 then Start else Next(Reached(t, i - 1), ClassOf(t[i - 1]))
  }

  ghost predicate Plain(t: seq<Byte>) {
    forall i :: 0 <= i < |t| ==> t[i] != NUL && t[i] != COMMA
  }

  /** The text is a word: it ends in state `s`, and at no character before. */
  ghost predicate IsWord(t: seq<Byte>, s: State) {
    && Plain(t) && Reached(t, |t|) == s
    && (t != [] ==> Reached(t, |t| - 1) != Invalid)
  }

  ghost predicate Stands(buf: seq<Byte>, p: nat, t: seq<Byte>) {
    p + |t| < |buf| && buf[p..p + |t|] == t
  }

  lemma {:induction false} WordReached(buf: seq<Byte>, p: nat, t: seq<Byte>, i: nat)
    requires Stands(buf, p, t) && i <= |t|
    ensures p + |t| < |buf| && Run(Start, Word(buf, p, p + i)) == Reached(t, i)
  {
    hide *;
    if i == 0 {
      NothingReached(buf, p, t);
    } else {
      WordReached(buf, p, t, i - 1);
      CharacterStands(buf, p, t, i - 1);
      ReadOne(buf, p, p + i - 1, Start);
      ReachedNext(t, i - 1);
    }
  }

  lemma NothingReached(buf: seq<Byte>, p: nat, t: seq<Byte>)
    requires Stands(buf, p, t)
    ensures p + |t| < |buf| && Run(Start, Word(buf, p, p)) == Reached(t, 0) == Start
  {
    assert Word(buf, p, p) == [];
  }

  lemma ReachedNext(t: seq<Byte>, i: nat)
    requires i < |t|
    ensures Reached(t, i + 1) == Next(Reached(t, i), ClassOf(t[i]))
  {
    hide Next, ClassOf;
  }

  lemma CharacterStands(buf: seq<Byte>, p: nat, t: seq<Byte>, i: nat)
    requires Stands(buf, p, t) && i < |t|
    ensures p + |t| < |buf| && buf[p + i] == t[i]
  {
    assert buf[p + i] == buf[p..p + |t|][i];
  }

  lemma {:induction false} StillViable(t: seq<Byte>, i: nat, j: nat)
    requires i <= j <= |t| && Reached(t, j) != Invalid
    ensures Reached(t, i) != Invalid
    decreases j
  {
    if i < j {
      StillViable(t, i, j - 1);
    }
  }

  lemma {:induction false} WordEndAt(buf: seq<Byte>, p: nat, t: seq<Byte>, s: State, i: nat)
    requires Stands(buf, p, t) && IsWord(t, s) && i <= |t|
    requires s == Invalid || buf[p + |t|] == COMMA
    ensures WordEnd(buf, p, p + i) == p + |t|
    decreases |t| - i
  {
    hide Reached, Run, Word;
    WordReached(buf, p, t, i);
    if i < |t| {
      StillViable(t, i, |t| - 1);
      assert buf[p + i] == buf[p..p + |t|][i];
      WordEndAt(buf, p, t, s, i + 1);
    }
  }

  function EndStates(ws: seq<seq<Class>>): (r: seq<State>)
    ensures |r| == |ws|
  {
    if ws == [] then [] else [Run(Start, ws[0])] + EndStates(ws[1..])
  }

  /** A word that is hopeless at its last character, or ends at a comma, is the next one. */
  lemma NextWord(buf: seq<Byte>, p: nat, t: seq<Byte>, s: State)
    requires Stands(buf, p, t) && IsWord(t, s)
    requires if s == Invalid then t != [] else buf[p + |t|] == COMMA
    ensures EndStates(WordsOf(buf, p))
         == [s] + EndStates(WordsOf(buf, if s == Invalid then p + |t| else p + |t| + 1))
  {
    hide Reached, Run, Word;
    WordEndAt(buf, p, t, s, 0);
    WordReached(buf, p, t, |t|);
    if t != [] {
      assert buf[p] == buf[p..p + |t|][0];
    }
  }

  // ---- one built-in string ----

  /** A string as the calls read it: hopeless words, and at last one that ends at the comma
      behind the string. */
  datatype Pieces = Final(t: seq<Byte>, s: State) | Hopeless(t: seq<Byte>, rest: Pieces)

  function Text(x: Pieces): seq<Byte> {
    match x
    case Final(t, _) => t
    case Hopeless(t, rest) => t + Text(rest)
  }

  function LastStates(x: Pieces): seq<State> {
    match x
    case Final(_, s) => [s]
    case Hopeless(_, rest) => [Invalid] + LastStates(rest)
  }

  ghost predicate Readable(x: Pieces) {
    match x
    case Final(t, s) => IsWord(t, s) && s != Invalid
    case Hopeless(t, rest) => IsWord(t, Invalid) && t != [] && Readable(rest)
  }

  /** A string in front of a comma is read piece by piece. */
  lemma {:induction false} PiecesRead(buf: seq<Byte>, p: nat, x: Pieces)
    requires Readable(x) && Stands(buf, p, Text(x)) && buf[p + |Text(x)|] == COMMA
    ensures EndStates(WordsOf(buf, p)) == LastStates(x) + EndStates(WordsOf(buf, p + |Text(x)| + 1))
    decreases x
  {
    hide WordsOf, EndStates, IsWord;
    var n := |x.t|;
    assert buf[p..p + n] == buf[p..p + |Text(x)|][..n] == x.t;
    NextWord(buf, p, x.t, if x.Final? then x.s else Invalid);
    if x.Hopeless? {
      assert buf[p + n..p + n + |Text(x.rest)|] == buf[p..p + |Text(x)|][n..] == Text(x.rest);
      PiecesRead(buf, p + n, x.rest);
    }
  }

  /** The strings, cut where the automaton stops. */
  function PiecesOf(seed: bv16): Pieces {
    var k := (seed >> 3) & 3;
    if seed & 7 <= 2 then IntPieces(k)
    else if seed & 7 <= 4 then FloatPieces(k)
    else if seed & 7 <= 6 then ScientificPieces(k)
    else ErrorPieces(k)
  }

  function IntPieces(k: bv16): Pieces {
    if k == 0 then Final([0x35, 0x30, 0x31, 0x32], Int)  // 5012
    else if k == 1 then Final([0x31, 0x32, 0x33, 0x34], Int)  // 1234
    else if k == 2 then Final([0x2d, 0x38, 0x37, 0x34], Int)  // -874
    else Final([0x2b, 0x31, 0x32, 0x32], Int)  // +122
  }

  function FloatPieces(k: bv16): Pieces {
    if k == 0 then Final([0x33, 0x35, 0x2e, 0x35, 0x34, 0x34, 0x30, 0x30], Float)  // 35.54400
    else if k == 1 then Final([0x2e, 0x31, 0x32, 0x33, 0x34, 0x35, 0x30, 0x30], Float)  // .1234500
    else if k == 2 then Final([0x2d, 0x31, 0x31, 0x30, 0x2e, 0x37, 0x30, 0x30], Float)  // -110.700
    else Final([0x2b, 0x30, 0x2e, 0x36, 0x34, 0x34, 0x30, 0x30], Float)  // +0.64400
  }

  function ScientificPieces(k: bv16): Pieces {
    if k == 0 then Final([0x35, 0x2e, 0x35, 0x30, 0x30, 0x65, 0x2b, 0x33], Scientific)  // 5.500e+3
    else if k == 1 then Final([0x2d, 0x2e, 0x31, 0x32, 0x33, 0x65, 0x2d, 0x32], Scientific)  // -.123e-2
    else if k == 2 then Hopeless([0x2d, 0x38, 0x37, 0x65], Final([0x2b, 0x38, 0x33, 0x32], Int))  // -87e+832
    else Final([0x2b, 0x30, 0x2e, 0x36, 0x65, 0x2d, 0x31, 0x32], Scientific)  // +0.6e-12
  }

  function ErrorPieces(k: bv16): Pieces {
    if k == 0 then  // T0.3e-1F
      Hopeless([0x54], Hopeless([0x30, 0x2e, 0x33, 0x65, 0x2d, 0x31, 0x46], Final([], Start)))
    else if k == 1 then  // -T.T++Tq
      Hopeless([0x2d, 0x54], Hopeless([0x2e, 0x54],
        Hopeless([0x2b, 0x2b], Hopeless([0x54], Hopeless([0x71], Final([], Start))))))
    else if k == 2 then  // 1T3.4e4z
      Hopeless([0x31, 0x54], Hopeless([0x33, 0x2e, 0x34, 0x65, 0x34], Hopeless([0x7a], Final([], Start))))
    else Hopeless([0x33, 0x34, 0x2e, 0x30, 0x65, 0x2d, 0x54], Hopeless([0x5e], Final([], Start)))  // 34.0e-T^
  }

  lemma IntWords()
    ensures IsWord([0x35, 0x30, 0x31, 0x32], Int)
    ensures IsWord([0x31, 0x32, 0x33, 0x34], Int)
    ensures IsWord([0x2d, 0x38, 0x37, 0x34], Int)
    ensures IsWord([0x2b, 0x31, 0x32, 0x32], Int)
  {
    assert Reached([0x35, 0x30, 0x31, 0x32], 4) == Int;
    assert Reached([0x35, 0x30, 0x31, 0x32], 3) == Int;
    assert Reached([0x31, 0x32, 0x33, 0x34], 4) == Int;
    assert Reached([0x31, 0x32, 0x33, 0x34], 3) == Int;
    assert Reached([0x2d, 0x38, 0x37, 0x34], 4) == Int;
    assert Reached([0x2d, 0x38, 0x37, 0x34], 3) == Int;
    assert Reached([0x2b, 0x31, 0x32, 0x32], 4) == Int;
    assert Reached([0x2b, 0x31, 0x32, 0x32], 3) == Int;
  }

  lemma IntPiecesRead(k: bv16)
    ensures Readable(IntPieces(k)) && Text(IntPieces(k)) == IntPattern(k)
  {
    IntWords();
    hide IsWord;
  }

  lemma FloatWords()
    ensures IsWord([0x33, 0x35, 0x2e, 0x35, 0x34, 0x34, 0x30, 0x30], Float)
    ensures IsWord([0x2e, 0x31, 0x32, 0x33, 0x34, 0x35, 0x30, 0x30], Float)
    ensures IsWord([0x2d, 0x31, 0x31, 0x30, 0x2e, 0x37, 0x30, 0x30], Float)
    ensures IsWord([0x2b, 0x30, 0x2e, 0x36, 0x34, 0x34, 0x30, 0x30], Float)
  {
    assert Reached([0x33, 0x35, 0x2e, 0x35, 0x34, 0x34, 0x30, 0x30], 8) == Float;
    assert Reached([0x33, 0x35, 0x2e, 0x35, 0x34, 0x34, 0x30, 0x30], 7) == Float;
    assert Reached([0x2e, 0x31, 0x32, 0x33, 0x34, 0x35, 0x30, 0x30], 8) == Float;
    assert Reached([0x2e, 0x31, 0x32, 0x33, 0x34, 0x35, 0x30, 0x30], 7) == Float;
    assert Reached([0x2d, 0x31, 0x31, 0x30, 0x2e, 0x37, 0x30, 0x30], 8) == Float;
    assert Reached([0x2d, 0x31, 0x31, 0x30, 0x2e, 0x37, 0x30, 0x30], 7) == Float;
    assert Reached([0x2b, 0x30, 0x2e, 0x36, 0x34, 0x34, 0x30, 0x30], 8) == Float;
    assert Reached([0x2b, 0x30, 0x2e, 0x36, 0x34, 0x34, 0x30, 0x30], 7) == Float;
  }

  lemma FloatPiecesRead(k: bv16)
    ensures Readable(FloatPieces(k)) && Text(FloatPieces(k)) == FloatPattern(k)
  {
    FloatWords();
    hide IsWord;
  }

  lemma ScientificWords()
    ensures IsWord([0x35, 0x2e, 0x35, 0x30, 0x30, 0x65, 0x2b, 0x33], Scientific)
    ensures IsWord([0x2d, 0x2e, 0x31, 0x32, 0x33, 0x65, 0x2d, 0x32], Scientific)
  {
    assert Reached([0x35, 0x2e, 0x35, 0x30, 0x30, 0x65, 0x2b, 0x33], 8) == Scientific;
    assert Reached([0x35, 0x2e, 0x35, 0x30, 0x30, 0x65, 0x2b, 0x33], 7) == Exponent;
    assert Reached([0x2d, 0x2e, 0x31, 0x32, 0x33, 0x65, 0x2d, 0x32], 8) == Scientific;
    assert Reached([0x2d, 0x2e, 0x31, 0x32, 0x33, 0x65, 0x2d, 0x32], 7) == Exponent;
  }

  lemma MoreScientificWords()
    ensures IsWord([0x2d, 0x38, 0x37, 0x65], Invalid)
    ensures IsWord([0x2b, 0x38, 0x33, 0x32], Int)
    ensures IsWord([0x2b, 0x30, 0x2e, 0x36, 0x65, 0x2d, 0x31, 0x32], Scientific)
  {
    assert Reached([0x2d, 0x38, 0x37, 0x65], 4) == Invalid;
    assert Reached([0x2d, 0x38, 0x37, 0x65], 3) == Int;
    assert Reached([0x2b, 0x38, 0x33, 0x32], 4) == Int;
    assert Reached([0x2b, 0x38, 0x33, 0x32], 3) == Int;
    assert Reached([0x2b, 0x30, 0x2e, 0x36, 0x65, 0x2d, 0x31, 0x32], 8) == Scientific;
    assert Reached([0x2b, 0x30, 0x2e, 0x36, 0x65, 0x2d, 0x31, 0x32], 7) == Scientific;
  }

  lemma ScientificPiecesRead(k: bv16)
    ensures Readable(ScientificPieces(k)) && Text(ScientificPieces(k)) == ScientificPattern(k)
  {
    ScientificWords();
    MoreScientificWords();
    hide IsWord;
  }

  lemma ErrorWords()
    ensures IsWord([0x54], Invalid)
    ensures IsWord([0x30, 0x2e, 0x33, 0x65, 0x2d, 0x31, 0x46], Invalid)
    ensures IsWord([0x2d, 0x54], Invalid)
    ensures IsWord([0x2e, 0x54], Invalid)
    ensures IsWord([0x2b, 0x2b], Invalid)
    ensures IsWord([0x54], Invalid)
    ensures IsWord([0x71], Invalid)
  {
    assert Reached([0x54], 1) == Invalid;
    assert Reached([0x54], 0) == Start;
    assert Reached([0x30, 0x2e, 0x33, 0x65, 0x2d, 0x31, 0x46], 7) == Invalid;
    assert Reached([0x30, 0x2e, 0x33, 0x65, 0x2d, 0x31, 0x46], 6) == Scientific;
    assert Reached([0x2d, 0x54], 2) == Invalid;
    assert Reached([0x2d, 0x54], 1) == S1;
    assert Reached([0x2e, 0x54], 2) == Invalid;
    assert Reached([0x2e, 0x54], 1) == Float;
    assert Reached([0x2b, 0x2b], 2) == Invalid;
    assert Reached([0x2b, 0x2b], 1) == S1;
    assert Reached([0x54], 1) == Invalid;
    assert Reached([0x54], 0) == Start;
    assert Reached([0x71], 1) == Invalid;
    assert Reached([0x71], 0) == Start;
  }

  lemma MoreErrorWords()
    ensures IsWord([0x31, 0x54], Invalid)
    ensures IsWord([0x33, 0x2e, 0x34, 0x65, 0x34], Invalid)
    ensures IsWord([0x7a], Invalid)
    ensures IsWord([0x33, 0x34, 0x2e, 0x30, 0x65, 0x2d, 0x54], Invalid)
    ensures IsWord([0x5e], Invalid)
  {
    assert Reached([0x31, 0x54], 2) == Invalid;
    assert Reached([0x31, 0x54], 1) == Int;
    assert Reached([0x33, 0x2e, 0x34, 0x65, 0x34], 5) == Invalid;
    assert Reached([0x33, 0x2e, 0x34, 0x65, 0x34], 4) == S2;
    assert Reached([0x7a], 1) == Invalid;
    assert Reached([0x7a], 0) == Start;
    assert Reached([0x33, 0x34, 0x2e, 0x30, 0x65, 0x2d, 0x54], 7) == Invalid;
    assert Reached([0x33, 0x34, 0x2e, 0x30, 0x65, 0x2d, 0x54], 6) == Exponent;
    assert Reached([0x5e], 1) == Invalid;
    assert Reached([0x5e], 0) == Start;
  }

  lemma ErrorPiecesRead(k: bv16)
    ensures Readable(ErrorPieces(k)) && Text(ErrorPieces(k)) == ErrorPattern(k)
  {
    ErrorWords();
    MoreErrorWords();
    NoWord();
    hide IsWord;
  }

  lemma NoWord()
    ensures IsWord([], Start)
  {
  }

  lemma PiecesOfRead(seed: bv16)
    ensures Readable(PiecesOf(seed)) && Text(PiecesOf(seed)) == Pattern(seed)
  {
    hide Readable, Text, IntPieces, FloatPieces, ScientificPieces, ErrorPieces;
    hide IntPattern, FloatPattern, ScientificPattern, ErrorPattern;
    var k := (seed >> 3) & 3;
    IntPiecesRead(k);
    FloatPiecesRead(k);
    ScientificPiecesRead(k);
    ErrorPiecesRead(k);
  }

  // ---- the whole block ----

  /** The end states of the words of the strings `from` + 1 to `k` after a seed. */
  function Found(seed: bv16, from: nat, k: nat): seq<State>
    requires from <= k
    decreases k - from
  {
    if from == k then [] else LastStates(PiecesOf(Later(seed, from + 1))) + Found(seed, from + 1, k)
  }

  lemma {:induction false} JoinedStands(seed: bv16, from: nat, k: nat)
    requires from < k
    ensures var t, n := Pattern(Later(seed, from + 1)), |Joined(seed, from)|;
      && n + |t| < |Joined(seed, k)| && |Joined(seed, from + 1)| == n + |t| + 1
      && Joined(seed, k)[n..n + |t|] == t && Joined(seed, k)[n + |t|] == COMMA
    decreases k
  {
    hide Pattern, Later;
    var t, n := Pattern(Later(seed, from + 1)), |Joined(seed, from)|;
    if from + 1 < k {
      JoinedStands(seed, from, k - 1);
      var u := Joined(seed, k - 1);
      assert Joined(seed, k)[..|u|] == u;
      assert Joined(seed, k)[n..n + |t|] == Joined(seed, k)[..|u|][n..n + |t|];
    }
  }

  /** The first scan of an initial block reads, string by string, a number of the string's
      kind -- except that -87e+832 is read as an invalid word and the number +832 -- or for
      an error string invalid words and the empty one in front of its comma. */
  lemma {:induction false} InitialRead(block: seq<Byte>, seed: bv16, k: nat, from: nat)
    requires IsInitial(block, seed, k) && from <= k && |Joined(seed, from)| <= |Joined(seed, k)| < |block|
    ensures EndStates(WordsOf(block, |Joined(seed, from)|)) == Found(seed, from, k)
    decreases k - from
  {
    hide *;
    var n := |Joined(seed, from)|;
    if from == k {
      NothingLeft(block, seed, k);
    } else {
      var x := PiecesOf(Later(seed, from + 1));
      StringStands(block, seed, k, from);
      PiecesOfRead(Later(seed, from + 1));
      PiecesRead(block, n, x);
      InitialRead(block, seed, k, from + 1);
      FoundNext(seed, from, k);
    }
  }

  lemma FoundNext(seed: bv16, from: nat, k: nat)
    requires from < k
    ensures Found(seed, from, k) == LastStates(PiecesOf(Later(seed, from + 1))) + Found(seed, from + 1, k)
  {
  }

  /** Every string stands in the block in front of its comma. */
  lemma StringStands(block: seq<Byte>, seed: bv16, k: nat, from: nat)
    requires IsInitial(block, seed, k) && from < k && |Joined(seed, k)| < |block|
    ensures var t, n := Pattern(Later(seed, from + 1)), |Joined(seed, from)|;
      && Stands(block, n, t) && block[n + |t|] == COMMA
      && |Joined(seed, from + 1)| == n + |t| + 1 <= |Joined(seed, k)|
  {
    hide Pattern, Later, Joined;
    JoinedStands(seed, from, k);
    SliceOfPrefix(block, Joined(seed, k), |Joined(seed, from)|, Pattern(Later(seed, from + 1)));
  }

  lemma SliceOfPrefix(block: seq<Byte>, u: seq<Byte>, n: nat, t: seq<Byte>)
    requires |u| <= |block| && block[..|u|] == u && n + |t| < |u| && u[n..n + |t|] == t
    ensures block[n..n + |t|] == t && block[n + |t|] == u[n + |t|]
  {
    assert block[n..n + |t|] == block[..|u|][n..n + |t|];
    assert block[n + |t|] == block[..|u|][n + |t|];
  }

  lemma NothingLeft(block: seq<Byte>, seed: bv16, k: nat)
    requires IsInitial(block, seed, k) && |Joined(seed, k)| < |block|
    ensures EndStates(WordsOf(block, |Joined(seed, k)|)) == [] == Found(seed, k, k)
  {
    hide Joined;
  }

  /** All of it, for every seed and every size. */
  lemma InitialBlockRead(block: seq<Byte>, seed: bv16, k: nat)
    requires IsInitial(block, seed, k) && |block| >= 2
    ensures EndStates(WordsOf(block, 0)) == Found(seed, 0, k)
  {
    hide *;
    JoinedNone(seed);
    JoinedSmaller(block, seed, k);
    InitialRead(block, seed, k, 0);
  }

  lemma JoinedSmaller(block: seq<Byte>, seed: bv16, k: nat)
    requires IsInitial(block, seed, k) && |block| >= 2
    ensures |Joined(seed, 0)| <= |Joined(seed, k)| < |block|
  {
  }
}
