/** Eight bytes in a 64-bit word: the zero-byte detector and the byte broadcast that the
    word-at-a-time string routines rest on. */
module Words {

  type Byte = bv8
  type Word = bv64

  const ONES: Word := 0x0101010101010101
  const HIGHS: Word := 0x8080808080808080

  function Low(w: Word): Byte { (w & 0xff) as Byte }

  function Down(w: Word): Word { w >> 8 }

  function Shifted(w: Word, i: nat): Word {
    if i == 0 then w else Down(Shifted(w, i - 1))
  }

  /** The eight bytes of a word, least significant first. */
  function ByteAt(w: Word, i: nat): Byte { Low(Shifted(w, i)) }

  function Pack(b0: Byte, b1: Byte, b2: Byte, b3: Byte, b4: Byte, b5: Byte, b6: Byte, b7: Byte): Word {
    (b0 as Word) | ((b1 as Word) << 8) | ((b2 as Word) << 16) | ((b3 as Word) << 24)
    | ((b4 as Word) << 32) | ((b5 as Word) << 40) | ((b6 as Word) << 48) | ((b7 as Word) << 56)
  }

  /** HASZERO. */
  predicate HasZero(x: Word) { (x - ONES) & !x & HIGHS != 0 }

  /** One byte in all eight places, by a multiplication. */
  function Broadcast(c: Byte): Word { ONES * (c as Word) }

  function Mix(x: Word, y: Word): Word { x ^ y }

  function Bytes(w: Word): (b: seq<Byte>)
    ensures |b| == 8
  {
    seq(8, i requires 0 <= i < 8 => ByteAt(w, i))
  }

  lemma PackDown(b0: Byte, b1: Byte, b2: Byte, b3: Byte, b4: Byte, b5: Byte, b6: Byte, b7: Byte)
    ensures Low(Pack(b0, b1, b2, b3, b4, b5, b6, b7)) == b0
    ensures Down(Pack(b0, b1, b2, b3, b4, b5, b6, b7)) == Pack(b1, b2, b3, b4, b5, b6, b7, 0)
  {
  }

  lemma PackedBytes(b0: Byte, b1: Byte, b2: Byte, b3: Byte, b4: Byte, b5: Byte, b6: Byte, b7: Byte)
    ensures var w := Pack(b0, b1, b2, b3, b4, b5, b6, b7);
      && ByteAt(w, 0) == b0 && ByteAt(w, 1) == b1 && ByteAt(w, 2) == b2 && ByteAt(w, 3) == b3
      && ByteAt(w, 4) == b4 && ByteAt(w, 5) == b5 && ByteAt(w, 6) == b6 && ByteAt(w, 7) == b7
  {
    hide Pack, Low, Down;
    var w := Pack(b0, b1, b2, b3, b4, b5, b6, b7);
    PackDown(b0, b1, b2, b3, b4, b5, b6, b7);
    PackDown(b1, b2, b3, b4, b5, b6, b7, 0);
    PackDown(b2, b3, b4, b5, b6, b7, 0, 0);
    PackDown(b3, b4, b5, b6, b7, 0, 0, 0);
    PackDown(b4, b5, b6, b7, 0, 0, 0, 0);
    PackDown(b5, b6, b7, 0, 0, 0, 0, 0);
    PackDown(b6, b7, 0, 0, 0, 0, 0, 0);
    PackDown(b7, 0, 0, 0, 0, 0, 0, 0);
    ShiftedSteps(w);
  }

  lemma ShiftedSteps(x: Word)
    ensures Shifted(x, 0) == x && Shifted(x, 1) == Down(x) && Shifted(x, 2) == Down(Shifted(x, 1))
    ensures Shifted(x, 3) == Down(Shifted(x, 2)) && Shifted(x, 4) == Down(Shifted(x, 3))
    ensures Shifted(x, 5) == Down(Shifted(x, 4)) && Shifted(x, 6) == Down(Shifted(x, 5))
    ensures Shifted(x, 7) == Down(Shifted(x, 6))
  {
    hide Down;
  }

  lemma UnpackedBits(x: Word)
    ensures var x1 := Down(x); var x2 := Down(x1); var x3 := Down(x2); var x4 := Down(x3);
      var x5 := Down(x4); var x6 := Down(x5); var x7 := Down(x6);
      x == Pack(Low(x), Low(x1), Low(x2), Low(x3), Low(x4), Low(x5), Low(x6), Low(x7))
  {
  }

  lemma Unpacked(x: Word)
    ensures x == Pack(ByteAt(x, 0), ByteAt(x, 1), ByteAt(x, 2), ByteAt(x, 3),
                      ByteAt(x, 4), ByteAt(x, 5), ByteAt(x, 6), ByteAt(x, 7))
  {
    hide Pack, Low, Down;
    ShiftedSteps(x);
    UnpackedBits(x);
  }

  lemma ZeroOfPacked(b0: Byte, b1: Byte, b2: Byte, b3: Byte, b4: Byte, b5: Byte, b6: Byte, b7: Byte)
    ensures HasZero(Pack(b0, b1, b2, b3, b4, b5, b6, b7)) <==>
            b0 == 0 || b1 == 0 || b2 == 0 || b3 == 0 || b4 == 0 || b5 == 0 || b6 == 0 || b7 == 0
  {
  }

  lemma BroadcastPacked(c: Byte)
    ensures Broadcast(c) == Pack(c, c, c, c, c, c, c, c)
  {
  }

  lemma BroadcastBytes(c: Byte, i: nat)
    requires i < 8
    ensures ByteAt(Broadcast(c), i) == c
  {
    hide Pack, Broadcast, ByteAt;
    BroadcastPacked(c);
    PackedBytes(c, c, c, c, c, c, c, c);
  }

  lemma MixLow(x: Word, y: Word)
    ensures Low(Mix(x, y)) == 0 <==> Low(x) == Low(y)
  {
  }

  lemma MixDown(x: Word, y: Word)
    ensures Down(Mix(x, y)) == Mix(Down(x), Down(y))
  {
  }

  lemma {:induction false} MixShifted(x: Word, y: Word, i: nat)
    ensures Shifted(Mix(x, y), i) == Mix(Shifted(x, i), Shifted(y, i))
  {
    hide Down, Mix;
    if i > 0 {
      MixShifted(x, y, i - 1);
      MixDown(Shifted(x, i - 1), Shifted(y, i - 1));
    }
  }

  lemma MixBytes(x: Word, y: Word, i: nat)
    ensures ByteAt(Mix(x, y), i) == 0 <==> ByteAt(x, i) == ByteAt(y, i)
  {
    hide Low, Mix, Shifted;
    MixShifted(x, y, i);
    MixLow(Shifted(x, i), Shifted(y, i));
  }

  /** The borrows of the subtraction notwithstanding, the mask is non-zero exactly when
      some byte is zero. */
  lemma ZeroDetected(x: Word)
    ensures HasZero(x) <==> 0 in Bytes(x)
  {
    hide HasZero, Pack, ByteAt;
    Unpacked(x);
    ZeroOfPacked(ByteAt(x, 0), ByteAt(x, 1), ByteAt(x, 2), ByteAt(x, 3),
                 ByteAt(x, 4), ByteAt(x, 5), ByteAt(x, 6), ByteAt(x, 7));
    var b := Bytes(x);
    assert b == [b[0], b[1], b[2], b[3], b[4], b[5], b[6], b[7]];
  }

  lemma ByteCancels(x: Word, c: Byte, i: nat)
    requires i < 8
    ensures ByteAt(Mix(x, Broadcast(c)), i) == 0 <==> ByteAt(x, i) == c
  {
    hide ByteAt, Broadcast, Mix;
    MixBytes(x, Broadcast(c), i);
    BroadcastBytes(c, i);
  }

  /** Mixing in a broadcast byte turns the zero detector into a detector of that byte. */
  lemma ByteDetected(x: Word, c: Byte)
    ensures HasZero(Mix(x, Broadcast(c))) <==> c in Bytes(x)
  {
    hide ByteAt, HasZero, Broadcast, Mix;
    var y := Mix(x, Broadcast(c));
    ZeroDetected(y);
    forall i | 0 <= i < 8
      ensures Bytes(y)[i] == 0 <==> Bytes(x)[i] == c
    {
      ByteCancels(x, c, i);
    }
    if 0 in Bytes(y) {
      var i :| 0 <= i < 8 && Bytes(y)[i] == 0;
      assert Bytes(x)[i] == c;
    }
    if c in Bytes(x) {
      var i :| 0 <= i < 8 && Bytes(x)[i] == c;
      assert Bytes(y)[i] == 0;
    }
  }

  // ---- memory: the index is the address ----

  predicate Aligned(p: nat) { p % 8 == 0 }

  lemma AlignedNext(p: nat)
    requires Aligned(p)
    ensures Aligned(p + 8)
  {
  }

  /** Where the aligned word of an address ends. */
  function WordEnd(z: nat): nat { z / 8 * 8 + 8 }

  lemma WordBounds(s: nat, z: nat)
    requires s <= z
    ensures Aligned(s) ==> s + 8 <= WordEnd(z)
    ensures z < WordEnd(z)
  {
  }

  /** A string from `s`, its terminator at `z`. */
  ghost predicate StringAt(m: seq<Byte>, s: nat, z: nat) {
    s <= z < |m| && m[z] == 0 && forall i :: s <= i < z ==> m[i] != 0
  }

  /** Membership in a stretch of memory, by address. */
  lemma InStretch(m: seq<Byte>, p: nat, c: Byte)
    requires p + 8 <= |m|
    ensures c in m[p..p + 8] <==> exists i :: p <= i < p + 8 && m[i] == c
  {
    forall i | p <= i < p + 8
      ensures m[i] == m[p..p + 8][i - p]
    {
    }
  }

  /** An aligned load. */
  method Load(mem: array<Byte>, p: nat) returns (w: Word)
    requires Aligned(p) && p + 8 <= mem.Length
    ensures Bytes(w) == mem[..][p..p + 8]
  {
    hide ByteAt, Pack;
    w := Pack(mem[p], mem[p + 1], mem[p + 2], mem[p + 3], mem[p + 4], mem[p + 5], mem[p + 6], mem[p + 7]);
    PackedBytes(mem[p], mem[p + 1], mem[p + 2], mem[p + 3], mem[p + 4], mem[p + 5], mem[p + 6], mem[p + 7]);
  }

  /** An aligned store. */
  method Store(mem: array<Byte>, p: nat, w: Word)
    requires Aligned(p) && p + 8 <= mem.Length
    modifies mem
    ensures forall i :: 0 <= i < mem.Length ==>
                          mem[i] == if p <= i < p + 8 then Bytes(w)[i - p] else old(mem[i])
  {
    hide ByteAt;
    for j := 0 to 8
      invariant forall i :: 0 <= i < mem.Length ==>
                              mem[i] == if p <= i < p + j then Bytes(w)[i - p] else old(mem[i])
    {
      mem[p + j] := ByteAt(w, j);
    }
  }
}
