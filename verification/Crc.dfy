/** The bit-serial 16-bit CRC of `core_util.c`: the shifting loops, and what the code
    can detect.  Bits travel least significant first, as the loops consume them. */
module Crc {

  type Byte = bv8

  predicate Odd(a: bv16) { (a & 1) == 1 }

  /** One turn of the loop of `crcu8`: feed one message bit into the register. */
  function Step(crc: bv16, bit: bool): bv16 {
    if Odd(crc) != bit then ((crc ^ 0x4002) >> 1) | 0x8000 else (crc >> 1) & 0x7fff
  }

  /** Feed a whole bit string. */
  function Feed(crc: bv16, bits: seq<bool>): bv16
    decreases |bits|
  {
    if bits == [] then crc else Feed(Step(crc, bits[0]), bits[1..])
  }

  /** The `n` low bits of a byte, least significant first. */
  function LowBits(n: nat, data: Byte): (bits: seq<bool>)
    ensures |bits| == n
  {
    if n == 0 then [] else [Odd8(data)] + LowBits(n - 1, Half8(data))
  }

  predicate Odd8(data: Byte) { (data & 1) == 1 }

  function Half8(data: Byte): Byte { data >> 1 }

  function Bits(m: seq<Byte>): (bits: seq<bool>)
    ensures |bits| == 8 * |m|
  {
    if m == [] then [] else LowBits(8, m[0]) + Bits(m[1..])
  }

  function U8(data: Byte, crc: bv16): bv16 {
    Feed(crc, LowBits(8, data))
  }

  function Low(v: bv16): Byte { (v & 0xff) as Byte }

  function High(v: bv16): Byte { (v >> 8) as Byte }

  function U16(newval: bv16, crc: bv16): bv16 {
    U8(High(newval), U8(Low(newval), crc))
  }

  /** The register after a whole message, from a given start value. */
  function OfMessage(crc: bv16, m: seq<Byte>): bv16 {
    Feed(crc, Bits(m))
  }

  // ---- the C functions ----

  /** The exclusive-or of the two low bits selects the branch of a turn. */
  predicate X16(data: Byte, crc: bv16)
    ensures X16(data, crc) <==> Odd(crc) != Odd8(data)
  {
    (data & 1) ^ ((crc & 1) as bv8) == 1
  }

  /** The register half of a turn: fold the generator back in, shift, set or clear the top. */
  method ShiftRegister(crc0: bv16, x16: bool) returns (crc: bv16)
    ensures crc == if x16 then (crc0 >> 1) ^ 0xa001 else crc0 >> 1
  {
    crc := crc0;
    var carry := x16;
    if x16 {
      crc := crc ^ 0x4002;
    }
    crc := crc >> 1;
    if carry {
      crc := crc | 0x8000;
    } else {
      crc := crc & 0x7fff;
    }
  }

  method CrcU8(data0: Byte, crc0: bv16) returns (crc: bv16)
    ensures crc == U8(data0, crc0)
  {
    hide Odd, Odd8, Half8, X16;
    var data := data0;
    crc := crc0;
    for i := 0 to 8
      invariant Feed(crc, LowBits(8 - i, data)) == U8(data0, crc0)
    {
      assert LowBits(8 - i, data)[1..] == LowBits(8 - i - 1, Half8(data));
      var x16 := X16(data, crc);
      data := Half8(data);
      crc := ShiftRegister(crc, x16);
    }
  }

  method CrcU16(newval: bv16, crc0: bv16) returns (crc: bv16)
    ensures crc == OfMessage(crc0, [Low(newval), High(newval)])
    ensures crc == U16(newval, crc0)
  {
    crc := CrcU8(Low(newval), crc0);
    crc := CrcU8(High(newval), crc);
    TwoBytes(Low(newval), High(newval), crc0);
  }

  method Crc16(newval: bv16, crc0: bv16) returns (crc: bv16)
    ensures crc == OfMessage(crc0, [Low(newval), High(newval)])
    ensures crc == U16(newval, crc0)
  {
    crc := CrcU16(newval, crc0);
  }

  /** The four bytes of a 32-bit value, least significant first. */
  function LittleEndian32(v: bv32): seq<Byte> {
    [(v & 0xff) as Byte, ((v >> 8) & 0xff) as Byte, ((v >> 16) & 0xff) as Byte, (v >> 24) as Byte]
  }

  method CrcU32(newval: bv32, crc0: bv16) returns (crc: bv16)
    ensures crc == OfMessage(crc0, LittleEndian32(newval))
  {
    var lo, hi := (newval & 0xffff) as bv16, (newval >> 16) as bv16;
    crc := Crc16(lo, crc0);
    crc := Crc16(hi, crc);
    OfMessageAppend(crc0, [Low(lo), High(lo)], [Low(hi), High(hi)]);
    assert [Low(lo), High(lo)] + [Low(hi), High(hi)] == LittleEndian32(newval);
  }

  // ---- a known value ----

  /** A byte shifted in, bit by bit. */
  function ShiftedIn(n: nat, data: Byte, crc: bv16): bv16 {
    if n == 0 then crc else ShiftedIn(n - 1, Half8(data), Step(crc, Odd8(data)))
  }

  lemma {:induction false} ByteShiftedIn(n: nat, data: Byte, crc: bv16)
    ensures Feed(crc, LowBits(n, data)) == ShiftedIn(n, data, crc)
  {
    hide Step, Odd8, Half8;
    if n > 0 {
      assert LowBits(n, data)[1..] == LowBits(n - 1, Half8(data));
      ByteShiftedIn(n - 1, Half8(data), Step(crc, Odd8(data)));
    }
  }

  lemma FirstDigits()
    ensures ShiftedIn(8, 0x31, 0x0000) == 0xd4c1
    ensures ShiftedIn(8, 0x32, 0xd4c1) == 0x4594
    ensures ShiftedIn(8, 0x33, 0x4594) == 0xba04
  {
    assert ShiftedIn(8, 0x31, 0x0000) == 0xd4c1;
    assert ShiftedIn(8, 0x32, 0xd4c1) == 0x4594;
    assert ShiftedIn(8, 0x33, 0x4594) == 0xba04;
  }

  lemma MiddleDigits()
    ensures ShiftedIn(8, 0x34, 0xba04) == 0x14ba
    ensures ShiftedIn(8, 0x35, 0x14ba) == 0xa455
    ensures ShiftedIn(8, 0x36, 0xa455) == 0x29e4
  {
    assert ShiftedIn(8, 0x34, 0xba04) == 0x14ba;
    assert ShiftedIn(8, 0x35, 0x14ba) == 0xa455;
    assert ShiftedIn(8, 0x36, 0xa455) == 0x29e4;
  }

  lemma LastDigits()
    ensures ShiftedIn(8, 0x37, 0x29e4) == 0x9d68
    ensures ShiftedIn(8, 0x38, 0x9d68) == 0x3c9d
    ensures ShiftedIn(8, 0x39, 0x3c9d) == 0xbb3d
  {
    assert ShiftedIn(8, 0x37, 0x29e4) == 0x9d68;
    assert ShiftedIn(8, 0x38, 0x9d68) == 0x3c9d;
    assert ShiftedIn(8, 0x39, 0x3c9d) == 0xbb3d;
  }

  lemma {:induction false} FeedByte(m: seq<Byte>, crc: bv16)
    requires m != []
    ensures OfMessage(crc, m) == OfMessage(ShiftedIn(8, m[0], crc), m[1..])
  {
    ByteShiftedIn(8, m[0], crc);
    FeedAppend(crc, LowBits(8, m[0]), Bits(m[1..]));
    hide ShiftedIn, LowBits, Step;
  }

  /** The check value of this family of codes: the crc of the text "123456789". */
  lemma CheckValue()
    ensures OfMessage(0, [0x31, 0x32, 0x33, 0x34, 0x35, 0x36, 0x37, 0x38, 0x39]) == 0xbb3d
  {
    FirstDigits();
    MiddleDigits();
    LastDigits();
    hide *;
    var m: seq<Byte> := [0x31, 0x32, 0x33, 0x34, 0x35, 0x36, 0x37, 0x38, 0x39];
    FeedByte(m[0..], 0x0000);
    assert m[0..][1..] == m[1..];
    FeedByte(m[1..], 0xd4c1);
    assert m[1..][1..] == m[2..];
    FeedByte(m[2..], 0x4594);
    assert m[2..][1..] == m[3..];
    FeedByte(m[3..], 0xba04);
    assert m[3..][1..] == m[4..];
    FeedByte(m[4..], 0x14ba);
    assert m[4..][1..] == m[5..];
    FeedByte(m[5..], 0xa455);
    assert m[5..][1..] == m[6..];
    FeedByte(m[6..], 0x29e4);
    assert m[6..][1..] == m[7..];
    FeedByte(m[7..], 0x9d68);
    assert m[7..][1..] == m[8..];
    FeedByte(m[8..], 0x3c9d);
    assert m[8..][1..] == m[9..];
    assert m[0..] == m && m[9..] == [];
    OfMessageEmpty(0xbb3d);
  }

  // ---- folding ----

  lemma {:induction false} FeedAppend(crc: bv16, a: seq<bool>, b: seq<bool>)
    ensures Feed(crc, a + b) == Feed(Feed(crc, a), b)
    decreases |a|
  {
    if a == [] {
      assert a + b == b;
    } else {
      assert (a + b)[1..] == a[1..] + b;
      FeedAppend(Step(crc, a[0]), a[1..], b);
    }
  }

  lemma {:induction false} BitsAppend(a: seq<Byte>, b: seq<Byte>)
    ensures Bits(a + b) == Bits(a) + Bits(b)
  {
    if a == [] {
      assert a + b == b;
    } else {
      assert (a + b)[1..] == a[1..] + b;
      BitsAppend(a[1..], b);
    }
  }

  lemma OfMessageEmpty(crc: bv16)
    ensures OfMessage(crc, []) == crc
  {
  }

  /** Message by message: the register carries everything the prefix contributed. */
  lemma OfMessageAppend(crc: bv16, a: seq<Byte>, b: seq<Byte>)
    ensures OfMessage(crc, a + b) == OfMessage(OfMessage(crc, a), b)
  {
    BitsAppend(a, b);
    FeedAppend(crc, Bits(a), Bits(b));
  }

  lemma TwoBytes(lo: Byte, hi: Byte, crc: bv16)
    ensures OfMessage(crc, [lo, hi]) == U8(hi, U8(lo, crc))
  {
    assert Bits([lo, hi]) == LowBits(8, lo) + LowBits(8, hi) by {
      assert [lo, hi][1..] == [hi] && [hi][1..] == [];
      assert Bits([hi]) == LowBits(8, hi) + Bits([]);
    }
    FeedAppend(crc, LowBits(8, lo), LowBits(8, hi));
  }

  // ---- linearity and injectivity ----

  function XorBits(a: seq<bool>, b: seq<bool>): (d: seq<bool>)
    requires |a| == |b|
    ensures |d| == |a| && forall i :: 0 <= i < |a| ==> d[i] == (a[i] != b[i])
  {
    seq(|a|, i requires 0 <= i < |a| => a[i] != b[i])
  }

  function Zeros(n: nat): (z: seq<bool>)
    ensures |z| == n && forall i :: 0 <= i < n ==> !z[i]
  {
    seq(n, _ => false)
  }

  function Xor(a: bv16, b: bv16): bv16 { a ^ b }

  function Shift(a: bv16): bv16 { a >> 1 }

  /** The register shifts, and a one leaving it folds back 0xA001. */
  lemma StepAsXor(c: bv16, b: bool)
    ensures Step(c, b) == if Odd(c) != b then Xor(Shift(c), 0xa001) else Shift(c)
  {
  }

  lemma XorShift(c: bv16, d: bv16)
    ensures Shift(Xor(c, d)) == Xor(Shift(c), Shift(d))
    ensures Odd(Xor(c, d)) == (Odd(c) != Odd(d))
  {
  }

  lemma XorAssociates(a: bv16, b: bv16, k: bv16)
    ensures Xor(Xor(a, b), k) == Xor(a, Xor(b, k))
  {
  }

  lemma XorCommutes(a: bv16, b: bv16)
    ensures Xor(a, b) == Xor(b, a)
  {
  }

  lemma XorZero(x: bv16, y: bv16)
    ensures Xor(x, x) == 0 && Xor(x, 0) == x && Xor(0, x) == x
    ensures Xor(x, y) == 0 <==> x == y
  {
  }

  lemma StepLinear(c: bv16, d: bv16, x: bool, y: bool)
    ensures Xor(Step(c, x), Step(d, y)) == Step(Xor(c, d), x != y)
  {
    hide *;
    StepAsXor(c, x);
    StepAsXor(d, y);
    StepAsXor(Xor(c, d), x != y);
    XorShift(c, d);
    var s, t, k := Shift(c), Shift(d), 0xa001;
    XorAssociates(s, t, k);
    XorAssociates(s, k, t);
    XorCommutes(t, k);
    XorAssociates(s, k, Xor(t, k));
    XorAssociates(k, k, t);
    XorZero(k, t);
    XorZero(t, t);
  }

  /** The register is linear over exclusive-or of start value and message. */
  lemma {:induction false} FeedLinear(c: bv16, d: bv16, a: seq<bool>, b: seq<bool>)
    requires |a| == |b|
    ensures Xor(Feed(c, a), Feed(d, b)) == Feed(Xor(c, d), XorBits(a, b))
    decreases |a|
  {
    hide Step, Xor;
    if a != [] {
      StepLinear(c, d, a[0], b[0]);
      FeedLinear(Step(c, a[0]), Step(d, b[0]), a[1..], b[1..]);
      assert XorBits(a, b)[1..] == XorBits(a[1..], b[1..]);
    }
  }

  lemma StepZeroInjective(c: bv16)
    ensures Step(c, false) == 0 <==> c == 0
  {
  }

  lemma {:induction false} ZerosInjective(c: bv16, n: nat)
    ensures Feed(c, Zeros(n)) == 0 <==> c == 0
    decreases n
  {
    if n > 0 {
      StepZeroInjective(c);
      assert Zeros(n)[1..] == Zeros(n - 1);
      ZerosInjective(Step(c, false), n - 1);
    }
  }

  /** A short bit string as a register value. */
  function Push(b: bool, v: bv16): bv16 { (if b then 1 else 0) | (v << 1) }

  function Word(w: seq<bool>): bv16
    decreases |w|
  {
    if w == [] then 0 else Push(w[0], Word(w[1..]))
  }

  predicate Fits(v: bv16, n: nat)
    requires n <= 16
  {
    v & (0xffff << n) == 0
  }

  lemma {:induction false} WordFits(w: seq<bool>)
    requires |w| <= 15
    ensures Fits(Word(w), |w|)
    decreases |w|
  {
    if w == [] {
      assert Word(w) == 0;
    } else {
      hide Fits, Push;
      WordFits(w[1..]);
      PushFits(Word(w[1..]), w[0], |w| - 1);
    }
  }

  lemma PushFits(v: bv16, b: bool, n: nat)
    requires n <= 14 && Fits(v, n)
    ensures Fits(Push(b, v), n + 1)
  {
    if n == 0 {} else if n == 1 {} else if n == 2 {} else if n == 3 {} else if n == 4 {}
    else if n == 5 {} else if n == 6 {} else if n == 7 {} else if n == 8 {} else if n == 9 {}
    else if n == 10 {} else if n == 11 {} else if n == 12 {} else if n == 13 {} else {}
  }

  predicate TopClear(v: bv16) { v & 0x8000 == 0 }

  lemma FitsTopClear(v: bv16, n: nat)
    requires n <= 15 && Fits(v, n)
    ensures TopClear(v)
  {
    if n == 0 {} else if n == 1 {} else if n == 2 {} else if n == 3 {} else if n == 4 {}
    else if n == 5 {} else if n == 6 {} else if n == 7 {} else if n == 8 {} else if n == 9 {}
    else if n == 10 {} else if n == 11 {} else if n == 12 {} else if n == 13 {} else if n == 14 {} else {}
  }

  lemma StepAbsorbs(c: bv16, b: bool, v: bv16)
    requires TopClear(v)
    ensures Step(Xor(c, Push(b, v)), false) == Xor(Step(c, b), v)
  {
    hide *;
    var s, k := Shift(c), 0xa001;
    StepAsXor(Xor(c, Push(b, v)), false);
    StepAsXor(c, b);
    XorShift(c, Push(b, v));
    PushParts(b, v);
    XorAssociates(s, v, k);
    XorCommutes(v, k);
    XorAssociates(s, k, v);
  }

  lemma PushParts(b: bool, v: bv16)
    requires TopClear(v)
    ensures Odd(Push(b, v)) == b && Shift(Push(b, v)) == v
  {
  }

  lemma WordTopClear(w: seq<bool>)
    requires |w| <= 15
    ensures TopClear(Word(w))
  {
    hide Fits, TopClear, Push;
    WordFits(w);
    FitsTopClear(Word(w), |w|);
  }

  /** Feeding up to 16 bits is the same as xoring them in at once and shifting. */
  lemma {:induction false} FeedIsXorThenShift(c: bv16, w: seq<bool>)
    requires |w| <= 16
    ensures Feed(c, w) == Feed(Xor(c, Word(w)), Zeros(|w|))
    decreases |w|
  {
    hide Step, Push, TopClear, Xor;
    if w == [] {
      XorZero(c, c);
    } else {
      WordTopClear(w[1..]);
      StepAbsorbs(c, w[0], Word(w[1..]));
      FeedIsXorThenShift(Step(c, w[0]), w[1..]);
      assert Zeros(|w|)[1..] == Zeros(|w| - 1);
    }
  }

  lemma {:induction false} WordInjective(w: seq<bool>)
    requires |w| <= 16
    ensures Word(w) == 0 <==> w == Zeros(|w|)
    decreases |w|
  {
    hide Push, TopClear;
    if w != [] {
      WordInjective(w[1..]);
      WordTopClear(w[1..]);
      PushKeepsNonZero(Word(w[1..]), w[0]);
      assert w == Zeros(|w|) <==> (!w[0] && w[1..] == Zeros(|w| - 1)) by {
        assert w == [w[0]] + w[1..];
        assert Zeros(|w|) == [false] + Zeros(|w| - 1);
      }
    }
  }

  lemma PushKeepsNonZero(v: bv16, b: bool)
    requires TopClear(v)
    ensures Push(b, v) == 0 <==> v == 0 && !b
  {
  }

  /** From the zero register, 16 bits or fewer leave zero only if all are zero. */
  lemma ShortFeedInjective(w: seq<bool>)
    requires |w| <= 16
    ensures Feed(0, w) == 0 <==> w == Zeros(|w|)
  {
    hide Step, Push, Xor;
    FeedIsXorThenShift(0, w);
    XorZero(Word(w), 0);
    ZerosInjective(Word(w), |w|);
    WordInjective(w);
  }

  // ---- error detection ----

  /** The two messages agree on every bit outside `[p, p + width)`. */
  ghost predicate DifferWithin(a: seq<Byte>, b: seq<Byte>, p: nat, width: nat) {
    && |a| == |b|
    && forall i :: 0 <= i < 8 * |a| && !(p <= i < p + width) ==> Bits(a)[i] == Bits(b)[i]
  }

  /** `x` has no bits at or above position `n`. */
  predicate ByteFits(n: nat, x: Byte) {
    if n == 0 then x == 0 else ByteFits(n - 1, x >> 1)
  }

  lemma ByteFits8(x: Byte)
    ensures ByteFits(8, x)
  {
    var x4 := (((x >> 1) >> 1) >> 1) >> 1;
    assert ByteFits(4, x4) by {
      assert ByteFits(2, (x4 >> 1) >> 1) == ByteFits(0, (((x4 >> 1) >> 1) >> 1) >> 1);
    }
    assert ByteFits(6, (x >> 1) >> 1) == ByteFits(4, x4);
  }

  lemma SameByte(x: Byte, y: Byte)
    requires x >> 1 == y >> 1 && ((x & 1) == 1) == ((y & 1) == 1)
    ensures x == y
  {
  }

  lemma {:induction false} LowBitsInjective(n: nat, x: Byte, y: Byte)
    requires ByteFits(n, x) && ByteFits(n, y)
    requires LowBits(n, x) == LowBits(n, y)
    ensures x == y
  {
    if n > 0 {
      assert LowBits(n, x)[0] == LowBits(n, y)[0];
      assert LowBits(n - 1, Half8(x)) == LowBits(n, x)[1..];
      assert LowBits(n - 1, Half8(y)) == LowBits(n, y)[1..];
      LowBitsInjective(n - 1, x >> 1, y >> 1);
      SameByte(x, y);
    }
  }

  lemma {:induction false} BitsInjective(a: seq<Byte>, b: seq<Byte>)
    requires |a| == |b| && Bits(a) == Bits(b)
    ensures a == b
  {
    if a != [] {
      assert LowBits(8, a[0]) == Bits(a)[..8] && LowBits(8, b[0]) == Bits(b)[..8];
      assert Bits(a[1..]) == Bits(a)[8..] && Bits(b[1..]) == Bits(b)[8..];
      ByteFits8(a[0]);
      ByteFits8(b[0]);
      LowBitsInjective(8, a[0], b[0]);
      BitsInjective(a[1..], b[1..]);
      assert a == [a[0]] + a[1..] && b == [b[0]] + b[1..];
    }
  }

  /** Two messages collide exactly when the window of differing bits feeds the zero
      register back to zero. */
  lemma CollideByWindow(crc: bv16, a: seq<Byte>, b: seq<Byte>, p: nat, q: nat)
    requires |a| == |b| && p <= q <= 8 * |a| && DifferWithin(a, b, p, q - p)
    ensures OfMessage(crc, a) == OfMessage(crc, b)
       <==> Feed(0, XorBits(Bits(a), Bits(b))[p..q]) == 0
  {
    var d := XorBits(Bits(a), Bits(b));
    var w := d[p..q];
    hide Step, Xor, LowBits;
    FeedLinear(crc, crc, Bits(a), Bits(b));
    XorZero(crc, crc);
    XorZero(OfMessage(crc, a), OfMessage(crc, b));
    assert d == Zeros(p) + w + Zeros(|d| - q);
    FeedAppend(0, Zeros(p) + w, Zeros(|d| - q));
    FeedAppend(0, Zeros(p), w);
    ZerosInjective(0, p);
    ZerosInjective(Feed(0, w), |d| - q);
  }

  /** Every burst error of at most 16 bits is detected, in messages of any length. */
  lemma BurstDetected(crc: bv16, a: seq<Byte>, b: seq<Byte>, p: nat)
    requires DifferWithin(a, b, p, 16) && a != b
    ensures OfMessage(crc, a) != OfMessage(crc, b)
  {
    var n := 8 * |a|;
    var lo := if p <= n then p else n;
    var hi := if p + 16 <= n then p + 16 else n;
    CollideByWindow(crc, a, b, lo, hi);
    var w := XorBits(Bits(a), Bits(b))[lo..hi];
    ShortFeedInjective(w);
    if w == Zeros(|w|) {
      assert forall i :: lo <= i < hi ==> !XorBits(Bits(a), Bits(b))[i] by {
        forall i | lo <= i < hi ensures !XorBits(Bits(a), Bits(b))[i] {
          assert w[i - lo] == XorBits(Bits(a), Bits(b))[i];
        }
      }
      assert Bits(a) == Bits(b);
      BitsInjective(a, b);
    }
  }

  /** The generator polynomial x^16 + x^15 + x^2 + 1 as transmitted bits. */
  const GENERATOR: seq<bool> := [true, true] + Zeros(12) + [true, false, true]

  lemma GeneratorPrefix()
    ensures |GENERATOR| == 17 && GENERATOR[16]
    ensures Feed(0, GENERATOR[..16]) == 1
  {
    var g := GENERATOR[..16];
    assert g == [true, true] + Zeros(12) + [true, false];
    FeedAppend(0, [true, true] + Zeros(12), [true, false]);
    FeedAppend(0, [true, true], Zeros(12));
    assert Feed(0, [true, true]) == Feed(Step(Step(0, true), true), []) by {
      assert [true, true][1..] == [true] && [true][1..] == [];
    }
    var c := Step(Step(0, true), true);
    FeedZeros12(c);
    var d := Feed(c, Zeros(12));
    assert Feed(d, [true, false]) == Step(Step(d, true), false) by {
      assert [true, false][1..] == [false] && [false][1..] == [];
    }
  }

  lemma FeedZeros4(c: bv16)
    ensures Feed(c, Zeros(4)) == Step(Step(Step(Step(c, false), false), false), false)
  {
    assert Zeros(4)[1..] == Zeros(3) && Zeros(3)[1..] == Zeros(2) && Zeros(2)[1..] == Zeros(1) && Zeros(1)[1..] == [];
  }

  lemma FeedZeros12(c: bv16)
    ensures Feed(c, Zeros(12)) ==
      var c4 := Step(Step(Step(Step(c, false), false), false), false);
      var c8 := Step(Step(Step(Step(c4, false), false), false), false);
      Step(Step(Step(Step(c8, false), false), false), false)
  {
    assert Zeros(12) == Zeros(4) + Zeros(4) + Zeros(4);
    FeedAppend(c, Zeros(4) + Zeros(4), Zeros(4));
    FeedAppend(c, Zeros(4), Zeros(4));
    FeedZeros4(c);
    FeedZeros4(Feed(c, Zeros(4)));
    FeedZeros4(Feed(Feed(c, Zeros(4)), Zeros(4)));
  }

  lemma StepToZero(c: bv16, b: bool)
    ensures Step(c, b) == 0 <==> (c == 0 && !b) || (c == 1 && b)
  {
  }

  lemma SeventeenBits(w: seq<bool>)
    requires |w| == 17
    ensures Feed(0, w) == 0 <==> w == Zeros(17) || w == GENERATOR
  {
    hide Step, Xor, Push;
    var u := w[..16];
    assert w == u + [w[16]];
    FeedAppend(0, u, [w[16]]);
    assert Feed(Feed(0, u), [w[16]]) == Step(Feed(0, u), w[16]);
    StepToZero(Feed(0, u), w[16]);
    ShortFeedInjective(u);
    GeneratorPrefix();
    var g := GENERATOR[..16];
    FeedLinear(0, 0, u, g);
    XorZero(Feed(0, u), Feed(0, g));
    XorZero(0, 0);
    ShortFeedInjective(XorBits(u, g));
    assert XorBits(u, g) == Zeros(16) <==> u == g by {
      if XorBits(u, g) == Zeros(16) {
        assert forall i :: 0 <= i < 16 ==> XorBits(u, g)[i] == Zeros(16)[i];
      }
    }
    assert GENERATOR == g + [true];
    assert Zeros(17) == Zeros(16) + [false];
  }

  /** Sixteen is sharp, and 17 bits fail in one way only: messages that agree outside a
      17-bit window collide iff they are equal or differ there by the generator itself. */
  lemma SeventeenBitBurst(crc: bv16, a: seq<Byte>, b: seq<Byte>, p: nat)
    requires DifferWithin(a, b, p, 17) && p + 17 <= 8 * |a|
    ensures OfMessage(crc, a) == OfMessage(crc, b)
       <==> a == b || XorBits(Bits(a), Bits(b))[p..p + 17] == GENERATOR
  {
    var d := XorBits(Bits(a), Bits(b));
    var w := d[p..p + 17];
    CollideByWindow(crc, a, b, p, p + 17);
    SeventeenBits(w);
    if w == Zeros(17) {
      forall i | 0 <= i < |d| ensures !d[i] {
        if p <= i < p + 17 {
          assert w[i - p] == d[i];
        }
      }
      assert Bits(a) == Bits(b);
      BitsInjective(a, b);
    }
    if a == b {
      assert w == Zeros(17);
    }
  }

  // ---- parity ----

  function Parity(bits: seq<bool>): bool
    decreases |bits|
  {
    if bits == [] then false else bits[0] != Parity(bits[1..])
  }

  predicate Bit(v: bv16, i: nat)
    requires i < 16
  {
    ((v >> i) & 1) == 1
  }

  /** Parity of the low `n` bits of a register. */
  function ParityOf(v: bv16, n: nat): bool
    requires n <= 16
  {
    n > 0 && (Bit(v, n - 1) != ParityOf(v, n - 1))
  }

  function Parity16(v: bv16): bool { ParityOf(v, 16) }

  /** Which register bits one step changes: the generator taps 0, 13 and 15. */
  lemma StepBit(c: bv16, b: bool, i: nat)
    requires i < 16
    ensures Bit(Step(c, b), i) ==
      ((i < 15 && Bit(c, i + 1)) != ((i == 0 || i == 13 || i == 15) && Bit(c, 0) != b))
  {
    hide Step, Bit;
    if i < 8 {
      StepBitLow(c, b, i);
    } else {
      StepBitHigh(c, b, i);
    }
  }

  lemma StepBitLow(c: bv16, b: bool, i: nat)
    requires i < 8
    ensures Bit(Step(c, b), i) == (Bit(c, i + 1) != (i == 0 && Bit(c, 0) != b))
  {
    if i == 0 {} else if i == 1 {} else if i == 2 {} else if i == 3 {} else if i == 4 {}
    else if i == 5 {} else if i == 6 {} else {}
  }

  lemma StepBitHigh(c: bv16, b: bool, i: nat)
    requires 8 <= i < 16
    ensures Bit(Step(c, b), i) == ((i < 15 && Bit(c, i + 1)) != ((i == 13 || i == 15) && Bit(c, 0) != b))
  {
    if i == 8 {} else if i == 9 {} else if i == 10 {} else if i == 11 {} else if i == 12 {}
    else if i == 13 {} else if i == 14 {} else {}
  }

  lemma {:induction false} StepParityUpTo(c: bv16, b: bool, n: nat)
    requires n <= 15
    ensures ParityOf(Step(c, b), n)
         == (((ParityOf(c, n + 1) != Bit(c, 0)) != (n > 0 && Bit(c, 0) != b)) != (n > 13 && Bit(c, 0) != b))
    decreases n
  {
    hide Step, Bit;
    if n > 0 {
      StepParityUpTo(c, b, n - 1);
      StepBit(c, b, n - 1);
    } else {
      assert ParityOf(c, 1) == (Bit(c, 0) != ParityOf(c, 0));
    }
  }

  lemma StepParity(c: bv16, b: bool)
    ensures Parity16(Step(c, b)) == (Parity16(c) != b)
  {
    hide Step, Bit;
    StepParityUpTo(c, b, 15);
    StepBit(c, b, 15);
  }

  lemma {:induction false} ZeroParity(n: nat)
    requires n <= 16
    ensures !ParityOf(0, n)
  {
    if n > 0 {
      ZeroParity(n - 1);
    }
  }

  /** The register's parity is the parity of everything fed in so far. */
  lemma {:induction false} FeedParity(c: bv16, bits: seq<bool>)
    ensures Parity16(Feed(c, bits)) == (Parity16(c) != Parity(bits))
    decreases |bits|
  {
    hide Step, Parity16;
    if bits != [] {
      StepParity(c, bits[0]);
      FeedParity(Step(c, bits[0]), bits[1..]);
    }
  }

  /** Hence any error that flips an odd number of bits is detected, wherever they lie. */
  lemma OddErrorDetected(crc: bv16, a: seq<Byte>, b: seq<Byte>)
    requires |a| == |b| && Parity(XorBits(Bits(a), Bits(b)))
    ensures OfMessage(crc, a) != OfMessage(crc, b)
  {
    ZeroParity(16);
    hide Step, Xor, LowBits, Parity16;
    FeedLinear(crc, crc, Bits(a), Bits(b));
    XorZero(crc, crc);
    FeedParity(0, XorBits(Bits(a), Bits(b)));
    XorZero(OfMessage(crc, a), OfMessage(crc, b));
  }
}
