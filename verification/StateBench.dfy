/** `core_state.c`: the benchmark that scans a block, corrupts it, scans it again and
    repairs it, and the block it starts from. */
module StateBench {
  import opened Arithmetic
  import opened NumberTokens
  import opened CoreState
  import opened TokenCounts
  import Crc

  // ---- corruption ----

  /** What one corruption pass does to a visited byte. */
  function Flip(b: Byte, key: Byte): Byte { if b == COMMA then b else b ^ key }

  predicate Visited(i: nat, n: nat, step: nat)
    requires step > 0
  {
    i < n && i % step == 0
  }

  /** Every `step`-th byte of the first `n` flipped. */
  function Corrupted(buf: seq<Byte>, n: nat, step: nat, key: Byte): (r: seq<Byte>)
    requires step > 0
    ensures |r| == |buf|
    ensures forall i :: 0 <= i < |buf| ==> r[i] == if Visited(i, n, step) then Flip(buf[i], key) else buf[i]
  {
    seq(|buf|, i requires 0 <= i < |buf| => if Visited(i, n, step) then Flip(buf[i], key) else buf[i])
  }

  /** The corruption loop, in place. */
  method Corrupt(mem: array<Byte>, n: nat, step: nat, key: Byte)
    requires step > 0 && n <= mem.Length
    modifies mem
    ensures mem[..] == Corrupted(old(mem[..]), n, step, key)
  {
    ghost var buf := mem[..];
    ghost var k := 0;
    var p := 0;
    while p < n
      invariant p == k * step
      invariant forall i :: 0 <= i < mem.Length ==>
                              mem[i] == if i < p && Visited(i, n, step) then Flip(buf[i], key) else buf[i]
    {
      if mem[p] != COMMA {
        mem[p] := mem[p] ^ key;
      }
      NextVisited(k, step);
      k := k + 1;
      p := p + step;
    }
  }

  /** Between two steps nothing is visited. */
  lemma NextVisited(k: nat, step: nat)
    requires step > 0
    ensures (k * step) % step == 0 && (k + 1) * step == k * step + step
    ensures forall i :: k * step < i < k * step + step ==> i % step != 0
  {
    forall i | k * step <= i < k * step + step
      ensures i % step == i - k * step
    {
      Remainder(i, k, step);
    }
  }

  lemma Remainder(i: nat, k: nat, step: nat)
    requires step > 0 && k * step <= i < k * step + step
    ensures i % step == i - k * step
  {
    DivisionUnique(i, step, k, i - k * step);
  }

  lemma XorTwice(b: Byte, k1: Byte, k2: Byte)
    ensures (b ^ k1) ^ k2 == b ^ (k1 ^ k2)
  {
  }

  lemma XorFixes(b: Byte, k: Byte)
    ensures b ^ k == b <==> k == 0
  {
  }

  lemma XorSelf(k1: Byte, k2: Byte)
    ensures k1 ^ k2 == 0 <==> k1 == k2
  {
  }

  /** Both keys are equal and do not turn the byte into a comma, or it is one. */
  predicate Kept(b: Byte, k1: Byte, k2: Byte) { b == COMMA || (k1 == k2 && b ^ k1 != COMMA) }

  lemma FlipTwice(b: Byte, k1: Byte, k2: Byte)
    ensures Flip(Flip(b, k1), k2) == b <==> Kept(b, k1, k2)
  {
    hide Flip;
    FlipTwiceBits(b, k1, k2);
  }

  lemma FlipTwiceBits(b: Byte, k1: Byte, k2: Byte)
    ensures Flip(Flip(b, k1), k2) == b <==> (b == COMMA || (k1 == k2 && b ^ k1 != COMMA))
  {
    XorTwice(b, k1, k2);
    XorFixes(b, k1 ^ k2);
    XorSelf(k1, k2);
  }

  /** The repair pass undoes the corruption exactly when both keys are the same and no
      visited byte was turned into a comma, which the repair would skip. */
  lemma RepairedIff(buf: seq<Byte>, n: nat, step: nat, k1: Byte, k2: Byte)
    requires step > 0 && n <= |buf|
    ensures Corrupted(Corrupted(buf, n, step, k1), n, step, k2) == buf <==>
            forall i :: 0 <= i < n && Visited(i, n, step) ==> Kept(buf[i], k1, k2)
  {
    hide Flip, Kept;
    var r := Corrupted(Corrupted(buf, n, step, k1), n, step, k2);
    forall i | 0 <= i < n && Visited(i, n, step)
      ensures r[i] == buf[i] <==> Kept(buf[i], k1, k2)
    {
      FlipTwice(buf[i], k1, k2);
    }
    if forall i :: 0 <= i < n && Visited(i, n, step) ==> r[i] == buf[i] {
      assert r == buf;
    }
  }

  // ---- the benchmark ----

  ghost predicate HasEnd(buf: seq<Byte>) {
    exists i :: 0 <= i < |buf| && buf[i] == NUL
  }

  /** Final and track counters as 32-bit words, state by state. */
  function CountBytes(finals: seq<nat>, tracks: seq<nat>, n: nat): seq<Byte>
    requires n <= 8 && |finals| == 8 && |tracks| == 8
  {
    if n == 0 then []
    else CountBytes(finals, tracks, n - 1) + (Word32(finals[n - 1]) + Word32(tracks[n - 1]))
  }

  function Word32(count: nat): seq<Byte> {
    Crc.LittleEndian32(Unsigned(count))
  }

  /** A counter as the 32-bit unsigned variable it is. */
  function Unsigned(count: nat): bv32 { (count % 0x1_0000_0000) as bv32 }

  function Zero8(): (z: seq<nat>)
    ensures |z| == 8
  {
    [0, 0, 0, 0, 0, 0, 0, 0]
  }

  /** The result of the benchmark on a block: the counters of the words of the block and of
      those of the corrupted block, folded into the checksum. */
  function BenchCrc(buf: seq<Byte>, n: nat, step: nat, key: Byte, crc: bv16): bv16
    requires step > 0
  {
    var words := WordsOf(buf, 0) + WordsOf(Corrupted(buf, n, step, key), 0);
    Crc.OfMessage(crc, CountBytes(FinalCounts(words), TrackCounts(words), 8))
  }

  /** Two scans with the same counters count the words of both blocks. */
  lemma BothScans(buf1: seq<Byte>, buf2: seq<Byte>)
    ensures var r1 := ScanAll(buf1, 0, Zero8()); var r2 := ScanAll(buf2, 0, r1.1);
      var words := WordsOf(buf1, 0) + WordsOf(buf2, 0);
      && Tallied(Tallied(Zero8(), r1.0), r2.0) == FinalCounts(words) && r2.1 == TrackCounts(words)
  {
    hide WordsOf, ScanAll, Ends, ToldAll, StateOf, CountOf;
    var r1 := ScanAll(buf1, 0, Zero8());
    ScanAllReads(buf1, 0, Zero8());
    ScanAllReads(buf2, 0, r1.1);
    forall s {
      CountsAppend(s, WordsOf(buf1, 0), WordsOf(buf2, 0));
    }
  }

  /** Four bytes, the least significant first, as one word. */
  function Assembled(m: seq<Byte>): bv32
    requires |m| == 4
  {
    (m[0] as bv32) | ((m[1] as bv32) << 8) | ((m[2] as bv32) << 16) | ((m[3] as bv32) << 24)
  }

  lemma Word32Assembles(count: nat)
    ensures |Word32(count)| == 4 && Assembled(Word32(count)) == Unsigned(count)
  {
    hide Unsigned;
  }

  /** The message that is checked: state by state its final and its track counter, each as
      four bytes. */
  lemma CountBytesAt(finals: seq<nat>, tracks: seq<nat>, i: nat)
    requires i < 8 && |finals| == 8 && |tracks| == 8
    ensures var m := CountBytes(finals, tracks, 8);
      && |m| == 64
      && Assembled(m[8 * i..8 * i + 4]) == (finals[i] % 0x1_0000_0000) as bv32
      && Assembled(m[8 * i + 4..8 * i + 8]) == (tracks[i] % 0x1_0000_0000) as bv32
  {
    CountWordsAt(finals, tracks, 8, i);
    assert Unsigned(finals[i]) == (finals[i] % 0x1_0000_0000) as bv32;
    assert Unsigned(tracks[i]) == (tracks[i] % 0x1_0000_0000) as bv32;
    hide *;
  }

  lemma {:induction false} CountWordsAt(finals: seq<nat>, tracks: seq<nat>, n: nat, i: nat)
    requires i < n <= 8 && |finals| == 8 && |tracks| == 8
    ensures var m := CountBytes(finals, tracks, n);
      && |m| == 8 * n
      && Assembled(m[8 * i..8 * i + 4]) == Unsigned(finals[i])
      && Assembled(m[8 * i + 4..8 * i + 8]) == Unsigned(tracks[i])
  {
    hide Assembled, Word32, Unsigned;
    Word32Assembles(finals[n - 1]);
    Word32Assembles(tracks[n - 1]);
    var m, u := CountBytes(finals, tracks, n), CountBytes(finals, tracks, n - 1);
    if n > 1 {
      CountWordsAt(finals, tracks, n - 1, if i < n - 1 then i else 0);
    } else {
      assert u == [];
    }
    if i < n - 1 {
      assert m[8 * i..8 * i + 4] == u[8 * i..8 * i + 4] && m[8 * i + 4..8 * i + 8] == u[8 * i + 4..8 * i + 8];
    } else {
      assert m[8 * i..8 * i + 4] == Word32(finals[i]) && m[8 * i + 4..8 * i + 8] == Word32(tracks[i]);
    }
  }

  method CountsCrc(finals: array<nat>, tracks: array<nat>, crc0: bv16) returns (crc: bv16)
    requires finals.Length == 8 && tracks.Length == 8
    ensures crc == Crc.OfMessage(crc0, CountBytes(finals[..], tracks[..], 8))
  {
    hide Crc.OfMessage, Crc.LittleEndian32, Unsigned;
    crc := crc0;
    Crc.OfMessageEmpty(crc0);
    for i := 0 to 8
      invariant crc == Crc.OfMessage(crc0, CountBytes(finals[..], tracks[..], i))
    {
      crc := Crc.CrcU32(Unsigned(finals[i]), crc);
      crc := Crc.CrcU32(Unsigned(tracks[i]), crc);
      ghost var before := CountBytes(finals[..], tracks[..], i);
      Crc.OfMessageAppend(crc0, before, Word32(finals[i]) + Word32(tracks[i]));
      Crc.OfMessageAppend(Crc.OfMessage(crc0, before), Word32(finals[i]), Word32(tracks[i]));
    }
  }

  method ClearCounts(finals: array<nat>, tracks: array<nat>)
    requires finals.Length == 8 && tracks.Length == 8
    modifies finals, tracks
    ensures finals[..] == tracks[..] == Zero8()
  {
    for i := 0 to 8
      invariant forall j :: 0 <= j < i ==> finals[j] == 0 && tracks[j] == 0
    {
      finals[i], tracks[i] := 0, 0;
    }
  }

  /** `core_bench_state`. Both scans need a zero ahead of them, before and after the
      corruption. */
  method CoreBenchState(blksize: nat, mem: array<Byte>, seed1: bv16, seed2: bv16, step: nat, crc0: bv16)
    returns (crc: bv16)
    requires 0 < step && blksize <= mem.Length
    requires HasEnd(mem[..]) && HasEnd(Corrupted(mem[..], blksize, step, Crc.Low(seed1)))
    modifies mem
    ensures crc == BenchCrc(old(mem[..]), blksize, step, Crc.Low(seed1), crc0)
    ensures mem[..] == Corrupted(Corrupted(old(mem[..]), blksize, step, Crc.Low(seed1)), blksize, step, Crc.Low(seed2))
  {
    hide ScanAll, WordsOf, FinalCounts, TrackCounts, Tallied, Zero8;
    hide CountBytes, Corrupted, Visited, Crc.Low, Crc.OfMessage;
    ghost var buf := mem[..];
    BothScans(buf, Corrupted(buf, blksize, step, Crc.Low(seed1)));
    var finals, tracks := new nat[8], new nat[8];
    ClearCounts(finals, tracks);
    ghost var stop1 :| 0 <= stop1 < mem.Length && mem[..][stop1] == NUL;
    ScanBlock(mem, finals, tracks, stop1);
    Corrupt(mem, blksize, step, Crc.Low(seed1));
    ghost var stop2 :| 0 <= stop2 < mem.Length && mem[..][stop2] == NUL;
    ScanBlock(mem, finals, tracks, stop2);
    Corrupt(mem, blksize, step, Crc.Low(seed2));
    crc := CountsCrc(finals, tracks, crc0);
  }

  // ---- the initial block ----

  function IntPattern(k: bv16): (p: seq<Byte>)
    ensures |p| == 4
  {
    if k == 0 then [0x35, 0x30, 0x31, 0x32]
    else if k == 1 then [0x31, 0x32, 0x33, 0x34]
    else if k == 2 then [0x2d, 0x38, 0x37, 0x34]
    else [0x2b, 0x31, 0x32, 0x32]
  }

  function FloatPattern(k: bv16): (p: seq<Byte>)
    ensures |p| == 8
  {
    if k == 0 then [0x33, 0x35, 0x2e, 0x35, 0x34, 0x34, 0x30, 0x30]
    else if k == 1 then [0x2e, 0x31, 0x32, 0x33, 0x34, 0x35, 0x30, 0x30]
    else if k == 2 then [0x2d, 0x31, 0x31, 0x30, 0x2e, 0x37, 0x30, 0x30]
    else [0x2b, 0x30, 0x2e, 0x36, 0x34, 0x34, 0x30, 0x30]
  }

  function ScientificPattern(k: bv16): (p: seq<Byte>)
    ensures |p| == 8
  {
    if k == 0 then [0x35, 0x2e, 0x35, 0x30, 0x30, 0x65, 0x2b, 0x33]
    else if k == 1 then [0x2d, 0x2e, 0x31, 0x32, 0x33, 0x65, 0x2d, 0x32]
    else if k == 2 then [0x2d, 0x38, 0x37, 0x65, 0x2b, 0x38, 0x33, 0x32]
    else [0x2b, 0x30, 0x2e, 0x36, 0x65, 0x2d, 0x31, 0x32]
  }

  function ErrorPattern(k: bv16): (p: seq<Byte>)
    ensures |p| == 8
  {
    if k == 0 then [0x54, 0x30, 0x2e, 0x33, 0x65, 0x2d, 0x31, 0x46]
    else if k == 1 then [0x2d, 0x54, 0x2e, 0x54, 0x2b, 0x2b, 0x54, 0x71]
    else if k == 2 then [0x31, 0x54, 0x33, 0x2e, 0x34, 0x65, 0x34, 0x7a]
    else [0x33, 0x34, 0x2e, 0x30, 0x65, 0x2d, 0x54, 0x5e]
  }

  /** The string that a seed selects. */
  function Pattern(seed: bv16): (p: seq<Byte>)
    ensures |p| == 4 || |p| == 8
  {
    var k := (seed >> 3) & 3;
    if seed & 7 <= 2 then IntPattern(k)
    else if seed & 7 <= 4 then FloatPattern(k)
    else if seed & 7 <= 6 then ScientificPattern(k)
    else ErrorPattern(k)
  }

  /** The 16-bit seed wraps around. */
  function Succ(seed: bv16): bv16 { seed + 1 }

  function Later(seed: bv16, k: nat): bv16 {
    if k == 0 then seed else Succ(Later(seed, k - 1))
  }

  /** The strings are selected by consecutive seeds. */
  lemma SeedsCountUp(seed: bv16, k: nat)
    ensures Later(seed, 0) == seed && Later(seed, k + 1) == Later(seed, k) + 1
  {
  }

  /** The first `k` strings after a seed, each followed by a comma. */
  function Joined(seed: bv16, k: nat): seq<Byte> {
    if k == 0 then [] else Joined(seed, k - 1) + Pattern(Later(seed, k)) + [COMMA]
  }

  /** As many strings as leave at least two bytes, then zeros. */
  ghost predicate IsInitial(block: seq<Byte>, seed: bv16, k: nat) {
    && |Joined(seed, k)| <= |block|
    && (k > 0 ==> |Joined(seed, k)| + 2 <= |block|)
    && |block| < |Joined(seed, k + 1)| + 2
    && block[..|Joined(seed, k)|] == Joined(seed, k)
    && forall i :: |Joined(seed, k)| <= i < |block| ==> block[i] == NUL
  }

  /** `core_init_state`. */
  method CoreInitState(size: nat, seed: bv16, mem: array<Byte>) returns (ghost k: nat)
    requires 0 < size <= mem.Length
    modifies mem
    ensures IsInitial(mem[..size], seed, k)
    ensures mem[size..] == old(mem[size..])
  {
    hide Pattern, Later, Joined;
    var total;
    total, k := CopyTokens(size, seed, mem);
    FillZeros(mem, total, size);
    assert mem[..size][..total] == mem[..total];
  }

  /** A string is copied only when the next round still has room for it. */
  method CopyTokens(size: nat, seed0: bv16, mem: array<Byte>) returns (total: nat, ghost k: nat)
    requires 0 < size <= mem.Length
    modifies mem
    ensures total == |Joined(seed0, k)| <= size && (k > 0 ==> total + 2 <= size)
    ensures size < |Joined(seed0, k + 1)| + 2
    ensures mem[..total] == Joined(seed0, k) && mem[size..] == old(mem[size..])
  {
    hide *;
    var seed := seed0;
    var buf: seq<Byte> := [];
    total, k := 0, 0;
    JoinedNone(seed0);
    while total + |buf| + 1 < size - 1
      invariant total == |Joined(seed0, k)| <= size && (k > 0 ==> total + 2 <= size)
      invariant mem[..total] == Joined(seed0, k) && mem[size..] == old(mem[size..])
      invariant if buf == [] then k == 0 && seed == seed0 else seed == Later(seed0, k + 1) && buf == Pattern(seed)
      decreases size - total, if buf == [] then 1 else 0
    {
      if 0 < |buf| {
        AppendToken(mem, total, buf, size);
        JoinedNext(seed0, k);
        total := total + |buf| + 1;
        k := k + 1;
      }
      NextSeed(seed0, k);
      seed := Succ(seed);
      buf := Pattern(seed);
    }
    JoinedNext(seed0, k);
  }

  lemma JoinedNone(seed: bv16)
    ensures Joined(seed, 0) == []
  {
  }

  method FillZeros(mem: array<Byte>, total0: nat, size: nat)
    requires total0 <= size <= mem.Length
    modifies mem
    ensures mem[..total0] == old(mem[..total0]) && mem[size..] == old(mem[size..])
    ensures forall i :: total0 <= i < size ==> mem[..size][i] == NUL
  {
    var total := total0;
    while total < size
      invariant total0 <= total <= size
      invariant mem[..total0] == old(mem[..total0]) && mem[size..] == old(mem[size..])
      invariant forall i :: total0 <= i < total ==> mem[i] == NUL
    {
      mem[total] := NUL;
      total := total + 1;
    }
  }

  lemma NextSeed(seed: bv16, k: nat)
    ensures Succ(Later(seed, k)) == Later(seed, k + 1) && Later(seed, 0) == seed
  {
  }

  lemma JoinedNext(seed: bv16, k: nat)
    ensures Joined(seed, k + 1) == Joined(seed, k) + Pattern(Later(seed, k + 1)) + [COMMA]
  {
  }

  /** The copy of one string and its comma. */
  method AppendToken(mem: array<Byte>, total: nat, buf: seq<Byte>, ghost size: nat)
    requires total + |buf| < size <= mem.Length
    modifies mem
    ensures mem[..total + |buf| + 1] == old(mem[..total]) + buf + [COMMA]
    ensures mem[size..] == old(mem[size..])
  {
    ghost var before := mem[..];
    for i := 0 to |buf|
      invariant forall j :: 0 <= j < mem.Length ==>
                              mem[j] == if total <= j < total + i then buf[j - total] else before[j]
    {
      mem[total + i] := buf[i];
    }
    mem[total + |buf|] := COMMA;
  }

  // ---- the benchmark on an initial block ----

  /** The characters of the built-in strings. */
  predicate PatternByte(b: Byte) {
    || 0x30 <= b <= 0x38
    || b == 0x2b || b == 0x2d || b == 0x2e
    || b == 0x65 || b == 0x54 || b == 0x46 || b == 0x71 || b == 0x7a || b == 0x5e
  }

  ghost predicate AllPattern(p: seq<Byte>) {
    forall i :: 0 <= i < |p| ==> PatternByte(p[i])
  }

  lemma IntPatternBytes(k: bv16)
    ensures AllPattern(IntPattern(k))
  {
  }

  lemma FloatPatternBytes(k: bv16)
    ensures AllPattern(FloatPattern(k))
  {
  }

  lemma ScientificPatternBytes(k: bv16)
    ensures AllPattern(ScientificPattern(k))
  {
  }

  lemma ErrorPatternBytes(k: bv16)
    ensures AllPattern(ErrorPattern(k))
  {
  }

  lemma PatternBytes(seed: bv16)
    ensures AllPattern(Pattern(seed))
  {
    hide IntPattern, FloatPattern, ScientificPattern, ErrorPattern, AllPattern;
    var k := (seed >> 3) & 3;
    IntPatternBytes(k);
    FloatPatternBytes(k);
    ScientificPatternBytes(k);
    ErrorPatternBytes(k);
  }

  lemma {:induction false} JoinedBytes(seed: bv16, k: nat)
    ensures forall i :: 0 <= i < |Joined(seed, k)| ==> PatternByte(Joined(seed, k)[i]) || Joined(seed, k)[i] == COMMA
  {
    hide Pattern, PatternByte, Later;
    if k > 0 {
      JoinedBytes(seed, k - 1);
      PatternBytes(Later(seed, k));
    }
  }

  /** Both scans stop inside an initial block: it ends in two zeros, of which a step of two
      or more corrupts at most one. */
  lemma InitialScansStop(block: seq<Byte>, seed: bv16, k: nat, step: nat, key: Byte)
    requires IsInitial(block, seed, k) && |block| >= 2 && step >= 2
    ensures HasEnd(block) && HasEnd(Corrupted(block, |block|, step, key))
  {
    hide Joined, Flip;
    JoinedNone(seed);
    var n := |block|;
    assert block[n - 1] == NUL && block[n - 2] == NUL;
    if Visited(n - 1, n, step) && Visited(n - 2, n, step) {
      Remainder(n - 1, (n - 2) / step, step);
      assert false;
    }
    assert !Visited(n - 1, n, step) || !Visited(n - 2, n, step);
  }

  /** With one key for both passes, no initial block is damaged when the key turns a comma
      into neither zero nor a character of the strings. */
  lemma InitialRepaired(block: seq<Byte>, seed: bv16, k: nat, step: nat, key: Byte)
    requires IsInitial(block, seed, k) && step > 0
    requires COMMA ^ key != NUL && !PatternByte(COMMA ^ key)
    ensures Corrupted(Corrupted(block, |block|, step, key), |block|, step, key) == block
  {
    hide Joined, PatternByte, Flip;
    JoinedBytes(seed, k);
    forall i | 0 <= i < |block| && Visited(i, |block|, step)
      ensures block[i] == COMMA || block[i] ^ key != COMMA
    {
      if i < |Joined(seed, k)| {
        assert block[i] == Joined(seed, k)[i];
      }
      XorMoves(block[i], key);
    }
    RepairedIff(block, |block|, step, key, key);
  }

  lemma XorMoves(b: Byte, key: Byte)
    ensures b ^ key == COMMA <==> b == COMMA ^ key
  {
  }

  /** The keys 0 and 0x15, the low bytes of the repository's performance and validation
      seeds, and 8, of its profile seeds, repair. */
  lemma ShippedKeys(key: Byte)
    requires key == 0 || key == 0x15 || key == 8
    ensures COMMA ^ key != NUL && !PatternByte(COMMA ^ key)
  {
  }

  // ---- the seed as the key ----

  /** The program builds the block from the first seed and corrupts it with the low byte of
      the same seed: it is restored if and only if every visited character of the strings
      is kept and, where zeros behind them are visited, both low bytes are equal and no
      comma themselves. */
  lemma ProgramRepairedIff(block: seq<Byte>, seed1: bv16, seed2: bv16, k: nat, step: nat)
    requires IsInitial(block, seed1, k) && step > 0
    ensures var n, m, key, key2 := |block|, |Joined(seed1, k)|, Crc.Low(seed1), Crc.Low(seed2);
      Corrupted(Corrupted(block, n, step, key), n, step, key2) == block
      <==> && (forall i :: 0 <= i < m && Visited(i, n, step) ==> Kept(Joined(seed1, k)[i], key, key2))
           && ((exists i :: m <= i < n && Visited(i, n, step)) ==> key == key2 != COMMA)
  {
    var n, m, key, key2 := |block|, |Joined(seed1, k)|, Crc.Low(seed1), Crc.Low(seed2);
    RepairedIff(block, n, step, key, key2);
    ZeroKept(key, key2);
    forall i | 0 <= i < n ensures block[i] == if i < m then Joined(seed1, k)[i] else NUL {
      InitialByte(block, seed1, k, i);
    }
    hide *;
  }

  lemma InitialByte(block: seq<Byte>, seed: bv16, k: nat, i: nat)
    requires IsInitial(block, seed, k) && i < |block|
    ensures block[i] == if i < |Joined(seed, k)| then Joined(seed, k)[i] else NUL
  {
    hide Joined;
    assert i < |Joined(seed, k)| ==> block[i] == block[..|Joined(seed, k)|][i];
  }

  lemma ZeroKept(k1: Byte, k2: Byte)
    ensures Kept(NUL, k1, k2) <==> k1 == k2 != COMMA
  {
  }

  lemma PatternLength(seed: bv16)
    ensures |Pattern(seed)| == if seed & 7 <= 2 then 4 else 8
  {
  }

  lemma JoinedLength(seed: bv16, k: nat)
    ensures |Joined(seed, k + 1)| == |Joined(seed, k)| + (if Later(seed, k + 1) & 7 <= 2 then 5 else 9)
  {
    PatternLength(Later(seed, k + 1));
  }

  lemma {:induction false} JoinedBound(seed: bv16, k: nat)
    ensures |Joined(seed, k)| <= 9 * k
  {
    hide Pattern, Later;
    if k > 0 {
      JoinedBound(seed, k - 1);
    }
  }

  lemma {:induction false} JoinedPrefix(seed: bv16, j: nat, k: nat)
    requires j <= k
    ensures Joined(seed, j) <= Joined(seed, k)
  {
    hide Pattern, Later;
    if j < k {
      JoinedPrefix(seed, j, k - 1);
    }
  }

  /** The strings that seed 0x19 selects: nine of them, and at place 68 the third character
      after the first of "35.54400". */
  lemma TenthString()
    ensures |Joined(0x19, 9)| == 65 && |Joined(0x19, 10)| == 74 && Joined(0x19, 10)[68] == 0x35
  {
    SeedsFrom19();
    hide Joined, Later, Succ;
    JoinedNone(0x19);
    JoinedLength(0x19, 0);
    JoinedLength(0x19, 1);
    JoinedLength(0x19, 2);
    JoinedLength(0x19, 3);
    JoinedLength(0x19, 4);
    JoinedLength(0x19, 5);
    JoinedLength(0x19, 6);
    JoinedLength(0x19, 7);
    JoinedLength(0x19, 8);
    JoinedNext(0x19, 9);
    assert Pattern(0x23)[3] == 0x35;
  }

  lemma SeedsFrom19()
    ensures Later(0x19, 1) == 0x1a && Later(0x19, 2) == 0x1b && Later(0x19, 3) == 0x1c
    ensures Later(0x19, 4) == 0x1d && Later(0x19, 5) == 0x1e && Later(0x19, 6) == 0x1f
    ensures Later(0x19, 7) == 0x20 && Later(0x19, 8) == 0x21 && Later(0x19, 9) == 0x22
    ensures Later(0x19, 10) == 0x23
  {
    assert Later(0x19, 0) == 0x19;
    assert Later(0x19, 1) == 0x1a && Later(0x19, 2) == 0x1b && Later(0x19, 3) == 0x1c;
    assert Later(0x19, 4) == 0x1d && Later(0x19, 5) == 0x1e && Later(0x19, 6) == 0x1f;
    assert Later(0x19, 7) == 0x20 && Later(0x19, 8) == 0x21 && Later(0x19, 9) == 0x22;
  }

  /** Seed 0x19 for both passes damages the block of 666 bytes that it builds, at the
      smallest period that `calc_func` uses: byte 68, a '5', becomes a comma. */
  lemma NotRepaired(block: seq<Byte>, k: nat)
    requires IsInitial(block, 0x19, k) && |block| == 666
    ensures Corrupted(Corrupted(block, 666, 0x22, Crc.Low(0x19)), 666, 0x22, Crc.Low(0x19)) != block
  {
    hide Joined, Pattern, Later;
    JoinedBound(0x19, k + 1);
    JoinedPrefix(0x19, 10, k);
    TenthString();
    assert block[68] == block[..|Joined(0x19, k)|][68] == Joined(0x19, 10)[68];
    assert Crc.Low(0x19) == 0x19 && block[68] ^ 0x19 == COMMA;
    assert Visited(68, 666, 0x22);
    RepairedIff(block, 666, 0x22, 0x19, 0x19);
  }

  // ---- set up once, run often ----

  /** One call of the benchmark, as the list asks for it. */
  datatype Call = Call(step: nat, crc: bv16)

  ghost predicate SafeKey(key: Byte) {
    COMMA ^ key != NUL && !PatternByte(COMMA ^ key)
  }

  /** The result of a call on a block: nothing else goes into it. */
  ghost predicate Answers(result: bv16, block: seq<Byte>, size: nat, call: Call, key: Byte) {
    call.step > 0 && result == BenchCrc(block, size, call.step, key, call.crc)
  }

  /** After the set-up, any number of calls with equal safe seeds and steps of two or more
      leave the block as it was, so that the result of each depends on nothing but its step
      and crc. */
  method SetUpAndBench(size: nat, mem: array<Byte>, seed1: bv16, seed2: bv16, calls: seq<Call>)
    returns (results: seq<bv16>, ghost k: nat)
    requires 2 <= size <= mem.Length && Crc.Low(seed1) == Crc.Low(seed2) && SafeKey(Crc.Low(seed1))
    requires forall c <- calls :: c.step >= 2
    modifies mem
    ensures IsInitial(mem[..size], seed1, k) && mem[size..] == old(mem[size..])
    ensures |results| == |calls|
    ensures forall j :: 0 <= j < |calls| ==> Answers(results[j], mem[..], size, calls[j], Crc.Low(seed1))
  {
    k := CoreInitState(size, seed1, mem);
    ghost var block := mem[..];
    results := BenchOften(size, mem, seed1, seed2, calls, k);
    assert mem[size..] == block[size..];
    assert mem[..size] == block[..size];
  }

  method BenchOften(size: nat, mem: array<Byte>, seed1: bv16, seed2: bv16, calls: seq<Call>, ghost k: nat)
    returns (results: seq<bv16>)
    requires 2 <= size <= mem.Length && Crc.Low(seed1) == Crc.Low(seed2) && SafeKey(Crc.Low(seed1))
    requires IsInitial(mem[..size], seed1, k) && forall c <- calls :: c.step >= 2
    modifies mem
    ensures mem[..] == old(mem[..]) && |results| == |calls|
    ensures forall j :: 0 <= j < |calls| ==> Answers(results[j], mem[..], size, calls[j], Crc.Low(seed1))
  {
    hide *;
    ghost var block := mem[..];
    results := [];
    for j := 0 to |calls|
      invariant mem[..] == block && |results| == j && mem[..size] == block[..size]
      invariant forall i :: 0 <= i < j ==> Answers(results[i], block, size, calls[i], Crc.Low(seed1))
    {
      assert calls[j] in calls;
      var crc := BenchSafely(size, mem, seed1, seed2, calls[j], k);
      results := results + [crc];
    }
  }

  /** Whatever lies behind the block, the scans stop and the second pass repairs. */
  lemma InitialInMemory(buf: seq<Byte>, size: nat, seed: bv16, k: nat, step: nat, key: Byte)
    requires 2 <= size <= |buf| && IsInitial(buf[..size], seed, k) && step >= 2 && SafeKey(key)
    ensures HasEnd(buf) && HasEnd(Corrupted(buf, size, step, key))
    ensures Corrupted(Corrupted(buf, size, step, key), size, step, key) == buf
  {
    var block := buf[..size];
    InitialScansStop(block, seed, k, step, key);
    InitialRepaired(block, seed, k, step, key);
    hide IsInitial, Visited, Flip;
    var r, c := Corrupted(buf, size, step, key), Corrupted(block, size, step, key);
    var i :| 0 <= i < size && block[i] == NUL;
    var j :| 0 <= j < size && c[j] == NUL;
    assert buf[i] == NUL && r[j] == NUL;
    NoneBehind(size, step);
    forall p | 0 <= p < |buf| ensures Corrupted(r, size, step, key)[p] == buf[p] {
      if p < size {
        assert r[p] == c[p] && Corrupted(c, size, step, key)[p] == block[p];
      }
    }
  }

  lemma NoneBehind(n: nat, step: nat)
    requires step > 0
    ensures forall p: nat :: p >= n ==> !Visited(p, n, step)
  {
  }

  /** One such call. */
  method BenchSafely(size: nat, mem: array<Byte>, seed1: bv16, seed2: bv16, call: Call, ghost k: nat)
    returns (crc: bv16)
    requires 2 <= size <= mem.Length && Crc.Low(seed1) == Crc.Low(seed2) && SafeKey(Crc.Low(seed1))
    requires IsInitial(mem[..size], seed1, k) && call.step >= 2
    modifies mem
    ensures mem[..] == old(mem[..])
    ensures Answers(crc, mem[..], size, call, Crc.Low(seed1))
  {
    ghost var block, key := mem[..], Crc.Low(seed1);
    assert mem[..size] == block[..size];
    InitialInMemory(block, size, seed1, k, call.step, key);
    hide BenchCrc, Corrupted, IsInitial, HasEnd, Crc.Low;
    crc := CoreBenchState(size, mem, seed1, seed2, call.step, call.crc);
  }
}
