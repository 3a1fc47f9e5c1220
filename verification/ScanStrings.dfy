/** `string_opt.c`: the word-at-a-time and bitmap string scans, against the first-index
    specification of the C library. Each string has a memory of its own, and that of the
    scanned string may end right after the aligned word that holds its terminator. */
module ScanStrings {
  import opened Words
  import opened Options

  // ---- specification ----

  /** The characters of a string. */
  ghost function Members(m: seq<Byte>, a: nat, z: nat): set<Byte>
    requires a <= z <= |m|
  {
    set i | a <= i < z :: m[i]
  }

  /** `e` is the first address from `s` on that holds a member or the terminator. */
  ghost predicate FirstIn(m: seq<Byte>, s: nat, e: nat, chars: set<Byte>) {
    s <= e < |m| && (m[e] == 0 || m[e] in chars) && Outside(m, s, e, chars)
  }

  /** Every byte from `s` up to `e` is a non-member, and not the terminator. */
  ghost predicate Outside(m: seq<Byte>, s: nat, e: nat, chars: set<Byte>) {
    s <= e <= |m| && forall i :: s <= i < e ==> m[i] != 0 && m[i] !in chars
  }

  /** `e` is the first address from `s` on that holds a non-member. */
  ghost predicate FirstNotIn(m: seq<Byte>, s: nat, e: nat, chars: set<Byte>) {
    s <= e < |m| && m[e] !in chars && forall i :: s <= i < e ==> m[i] in chars
  }

  lemma FirstUnique(m: seq<Byte>, s: nat, e1: nat, e2: nat, chars: set<Byte>)
    ensures FirstIn(m, s, e1, chars) && FirstIn(m, s, e2, chars) ==> e1 == e2
    ensures FirstNotIn(m, s, e1, chars) && FirstNotIn(m, s, e2, chars) ==> e1 == e2
  {
  }

  lemma OneMember(m: seq<Byte>, a: nat)
    requires a < |m|
    ensures Members(m, a, a + 1) == {m[a]}
  {
    assert m[a] in Members(m, a, a + 1);
  }

  lemma TwoMembers(m: seq<Byte>, a: nat)
    requires a + 1 < |m|
    ensures Members(m, a, a + 2) == {m[a], m[a + 1]}
  {
    assert m[a] in Members(m, a, a + 2) && m[a + 1] in Members(m, a, a + 2);
  }

  lemma OneMoreMember(m: seq<Byte>, a: nat, p: nat)
    requires a <= p < |m|
    ensures Members(m, a, p + 1) == Members(m, a, p) + {m[p]}
  {
    assert m[p] in Members(m, a, p + 1);
  }

  // ---- the bitmap ----

  function Bit(c: Byte): Word { 1 << (c & 63) }

  function SlotOf(c: Byte): nat
    ensures SlotOf(c) < 4
  {
    if c < 64 then 0 else if c < 128 then 1 else if c < 192 then 2 else 3
  }

  predicate HasBit(w: Word, c: Byte) { (w >> (c & 63)) & 1 == 1 }

  function WithBit(w: Word, c: Byte): Word { w | Bit(c) }

  predicate Has(bs: seq<Word>, c: Byte)
    requires |bs| == 4
  {
    HasBit(bs[SlotOf(c)], c)
  }

  lemma BitOr(w: Word, x: Word, b: Byte)
    ensures HasBit(w | x, b) <==> HasBit(w, b) || HasBit(x, b)
  {
  }

  lemma BitIs(c: Byte, b: Byte)
    ensures HasBit(Bit(c), b) <==> c & 63 == b & 63
  {
  }

  lemma SlotAndPlace(c: Byte, b: Byte)
    ensures c == b <==> c & 63 == b & 63 && SlotOf(c) == SlotOf(b)
  {
  }

  lemma BitSet(w: Word, c: Byte, b: Byte)
    requires SlotOf(b) == SlotOf(c)
    ensures HasBit(WithBit(w, c), b) <==> HasBit(w, b) || b == c
  {
    hide HasBit, Bit, SlotOf;
    BitOr(w, Bit(c), b);
    BitIs(c, b);
    SlotAndPlace(c, b);
  }

  lemma SlotIsShift(c: Byte)
    ensures SlotOf(c) == (c >> 6) as nat
  {
  }

  lemma BitClear(c: Byte)
    ensures !HasBit(0, c)
  {
  }

  method ByteSetBuild(mem: array<Byte>, chars: nat, ghost z: nat, bs: array<Word>)
    requires bs.Length == 4 && mem as object != bs && StringAt(mem[..], chars, z)
    modifies bs
    ensures forall c :: Has(bs[..], c) <==> c in Members(mem[..], chars, z)
  {
    hide HasBit, SlotOf, WithBit;
    bs[0], bs[1], bs[2], bs[3] := 0, 0, 0, 0;
    EmptySet(bs[..]);
    ghost var m := mem[..];
    var p := chars;
    while mem[p] != 0
      invariant chars <= p <= z && mem[..] == m
      invariant forall c :: Has(bs[..], c) <==> c in Members(m, chars, p)
      decreases z - p
    {
      ghost var before := bs[..];
      bs[SlotOf(mem[p])] := WithBit(bs[SlotOf(mem[p])], mem[p]);
      InsertOne(before, bs[..], mem[p]);
      OneMoreMember(m, chars, p);
      p := p + 1;
    }
  }

  lemma EmptySet(bs: seq<Word>)
    requires bs == [0, 0, 0, 0]
    ensures forall c :: !Has(bs, c)
  {
    hide HasBit, SlotOf;
    forall c ensures !Has(bs, c) { BitClear(c); }
  }

  lemma InsertOne(bs: seq<Word>, bs1: seq<Word>, b: Byte)
    requires |bs| == 4 && bs1 == bs[SlotOf(b) := WithBit(bs[SlotOf(b)], b)]
    ensures forall c :: Has(bs1, c) <==> Has(bs, c) || c == b
  {
    hide HasBit, SlotOf, WithBit;
    forall c
      ensures Has(bs1, c) <==> Has(bs, c) || c == b
    {
      if SlotOf(c) == SlotOf(b) {
        BitSet(bs[SlotOf(b)], b, c);
      }
    }
  }

  // ---- strcspn ----

  /** A word with neither the terminator nor a member is skipped. */
  lemma SkipWord(m: seq<Byte>, s0: nat, s: nat, z: nat, chars: set<Byte>)
    requires StringAt(m, s0, z) && s <= z && s + 8 <= |m| && Outside(m, s0, s, chars)
    requires 0 !in m[s..s + 8] && forall c :: c in chars ==> c !in m[s..s + 8]
    ensures s + 8 <= z && Outside(m, s0, s + 8, chars)
  {
    forall i | s <= i < s + 8
      ensures m[i] in m[s..s + 8]
    {
      assert m[s..s + 8][i - s] == m[i];
    }
  }

  method StrCspnOne(mem: array<Byte>, s0: nat, c: Byte, ghost z: nat) returns (s: nat)
    requires StringAt(mem[..], s0, z) && WordEnd(z) <= mem.Length
    ensures FirstIn(mem[..], s0, s, {c})
  {
    hide HasZero, Bytes, Mix, Broadcast, WordEnd, Aligned;
    var k := Broadcast(c);
    s := s0;
    while !Aligned(s)
      invariant s <= z && Outside(mem[..], s0, s, {c})
      decreases z - s
    {
      if mem[s] == 0 || mem[s] == c { return; }
      s := s + 1;
    }
    WordBounds(s, z);
    while true
      invariant s <= z && Aligned(s) && s + 8 <= mem.Length && Outside(mem[..], s0, s, {c})
      decreases z - s
    {
      var x := Load(mem, s);
      if HasZero(x) || HasZero(Mix(x, k)) { break; }
      ZeroDetected(x);
      ByteDetected(x, c);
      SkipWord(mem[..], s0, s, z, {c});
      AlignedNext(s);
      s := s + 8;
      WordBounds(s, z);
    }
    while mem[s] != 0 && mem[s] != c
      invariant s <= z && Outside(mem[..], s0, s, {c})
      decreases z - s
    {
      s := s + 1;
    }
  }

  method StrCspnTwo(mem: array<Byte>, s0: nat, c1: Byte, c2: Byte, ghost z: nat) returns (s: nat)
    requires StringAt(mem[..], s0, z) && WordEnd(z) <= mem.Length
    ensures FirstIn(mem[..], s0, s, {c1, c2})
  {
    hide HasZero, Bytes, Mix, Broadcast, WordEnd, Aligned;
    var k1, k2 := Broadcast(c1), Broadcast(c2);
    s := s0;
    while !Aligned(s)
      invariant s <= z && Outside(mem[..], s0, s, {c1, c2})
      decreases z - s
    {
      var c := mem[s];
      if c == 0 || c == c1 || c == c2 { return; }
      s := s + 1;
    }
    WordBounds(s, z);
    while true
      invariant s <= z && Aligned(s) && s + 8 <= mem.Length && Outside(mem[..], s0, s, {c1, c2})
      decreases z - s
    {
      var x := Load(mem, s);
      if HasZero(x) || HasZero(Mix(x, k1)) || HasZero(Mix(x, k2)) { break; }
      ZeroDetected(x);
      ByteDetected(x, c1);
      ByteDetected(x, c2);
      SkipWord(mem[..], s0, s, z, {c1, c2});
      AlignedNext(s);
      s := s + 8;
      WordBounds(s, z);
    }
    while true
      invariant s <= z && Outside(mem[..], s0, s, {c1, c2})
      decreases z - s
    {
      var c := mem[s];
      if c == 0 || c == c1 || c == c2 { return; }
      s := s + 1;
    }
  }

  /** `strcspn`: the length of the prefix without a rejected character. */
  method StrCspn(mem: array<Byte>, s: nat, rmem: array<Byte>, reject: nat, ghost z: nat, ghost zr: nat)
    returns (r: nat)
    requires StringAt(mem[..], s, z) && StringAt(rmem[..], reject, zr)
    requires reject < zr <= reject + 2 ==> WordEnd(z) <= mem.Length
    ensures FirstIn(mem[..], s, s + r, Members(rmem[..], reject, zr))
  {
    hide Has, WordEnd, Members;
    if rmem[reject] == 0 {
      var e := End(mem, s, z);
      NoMember(rmem[..], reject);
      return e - s;
    }
    if rmem[reject + 1] == 0 {
      var e := StrCspnOne(mem, s, rmem[reject], z);
      OneMember(rmem[..], reject);
      return e - s;
    }
    if rmem[reject + 2] == 0 {
      var e := StrCspnTwo(mem, s, rmem[reject], rmem[reject + 1], z);
      TwoMembers(rmem[..], reject);
      return e - s;
    }
    r := StrCspnMany(mem, s, rmem, reject, z, zr);
  }

  lemma NoMember(m: seq<Byte>, a: nat)
    requires a <= |m|
    ensures Members(m, a, a) == {}
  {
  }

  method End(mem: array<Byte>, s: nat, ghost z: nat) returns (e: nat)
    requires StringAt(mem[..], s, z)
    ensures e == z
  {
    e := s;
    while mem[e] != 0
      invariant s <= e <= z
      decreases z - e
    {
      e := e + 1;
    }
  }

  /** The bitmap path of `strcspn`. */
  method StrCspnMany(mem: array<Byte>, s: nat, rmem: array<Byte>, reject: nat, ghost z: nat, ghost zr: nat)
    returns (r: nat)
    requires StringAt(mem[..], s, z) && StringAt(rmem[..], reject, zr)
    ensures FirstIn(mem[..], s, s + r, Members(rmem[..], reject, zr))
  {
    hide Has, Members;
    ghost var m := mem[..];
    ghost var chars := Members(rmem[..], reject, zr);
    var bs := new Word[4];
    ByteSetBuild(rmem, reject, zr, bs);
    var p := s;
    while mem[p] != 0 && !Has(bs[..], mem[p])
      invariant p <= z && mem[..] == m && Outside(m, s, p, chars)
      invariant forall c :: Has(bs[..], c) <==> c in chars
      decreases z - p
    {
      p := p + 1;
    }
    return p - s;
  }

  // ---- strchr ----

  /** `strchr`: the first occurrence of the character, the terminator included. */
  method StrChr(mem: array<Byte>, s0: nat, c_in: bv32, ghost z: nat) returns (r: Option<nat>)
    requires StringAt(mem[..], s0, z) && (c_in & 0xff != 0 ==> WordEnd(z) <= mem.Length)
    ensures var c := (c_in & 0xff) as Byte;
      match r
      case Some(e) => s0 <= e <= z && mem[e] == c && forall i :: s0 <= i < e ==> mem[i] != c
      case None => forall i :: s0 <= i <= z ==> mem[i] != c
  {
    var c := (c_in & 0xff) as Byte;
    if c == 0 {
      var e := End(mem, s0, z);
      return Some(e);
    }
    r := StrChrByte(mem, s0, c, z);
  }

  method StrChrByte(mem: array<Byte>, s0: nat, c: Byte, ghost z: nat) returns (r: Option<nat>)
    requires StringAt(mem[..], s0, z) && WordEnd(z) <= mem.Length && c != 0
    ensures match r
      case Some(e) => s0 <= e <= z && mem[e] == c && forall i :: s0 <= i < e ==> mem[i] != c
      case None => forall i :: s0 <= i <= z ==> mem[i] != c
  {
    hide HasZero, Bytes, Mix, Broadcast, WordEnd, Aligned;
    var s := s0;
    while !Aligned(s)
      invariant s <= z && Outside(mem[..], s0, s, {c})
      decreases z - s
    {
      if mem[s] == c { return Some(s); }
      if mem[s] == 0 { return None; }
      s := s + 1;
    }
    var k := Broadcast(c);
    WordBounds(s, z);
    while true
      invariant s <= z && Aligned(s) && s + 8 <= mem.Length && Outside(mem[..], s0, s, {c})
      decreases z - s
    {
      var x := Load(mem, s);
      if HasZero(x) || HasZero(Mix(x, k)) { break; }
      ZeroDetected(x);
      ByteDetected(x, c);
      SkipWord(mem[..], s0, s, z, {c});
      AlignedNext(s);
      s := s + 8;
      WordBounds(s, z);
    }
    while true
      invariant s <= z && Outside(mem[..], s0, s, {c})
      decreases z - s
    {
      if mem[s] == c { return Some(s); }
      if mem[s] == 0 { return None; }
      s := s + 1;
    }
  }

  // ---- strspn ----

  /** The bitmap path of `strspn`. */
  method StrSpnMany(mem: array<Byte>, s: nat, amem: array<Byte>, accept: nat, ghost z: nat, ghost za: nat)
    returns (r: nat)
    requires StringAt(mem[..], s, z) && StringAt(amem[..], accept, za)
    ensures FirstNotIn(mem[..], s, s + r, Members(amem[..], accept, za))
  {
    hide Has, Members;
    ghost var m := mem[..];
    ghost var chars := Members(amem[..], accept, za);
    NoTerminatorIn(amem[..], accept, za);
    var bs := new Word[4];
    ByteSetBuild(amem, accept, za, bs);
    var p := s;
    while mem[p] != 0 && Has(bs[..], mem[p])
      invariant s <= p <= z && mem[..] == m
      invariant forall i :: s <= i < p ==> m[i] in chars
      invariant forall c :: Has(bs[..], c) <==> c in chars
      decreases z - p
    {
      p := p + 1;
    }
    return p - s;
  }

  lemma NoTerminatorIn(m: seq<Byte>, a: nat, z: nat)
    requires StringAt(m, a, z)
    ensures 0 !in Members(m, a, z)
  {
  }

  /** The byte loop before the first aligned address. */
  function ToAlignment(m: seq<Byte>, s: nat, c: Byte): nat
    decreases if s < |m| then |m| - s else 0
  {
    if Aligned(s) || s >= |m| || m[s] != c then s else ToAlignment(m, s + 1, c)
  }

  /** The word loop as the source has it: it goes on while no byte of the word is `c`, and
      looks for no terminator. */
  function WordWith(m: seq<Byte>, p: nat, c: Byte): Option<nat>
    decreases if p < |m| then |m| - p else 0
  {
    if p + 8 > |m| then None
    else if c in m[p..p + 8] then Some(p)
    else WordWith(m, p + 8, c)
  }

  function RunEnd(m: seq<Byte>, p: nat, c: Byte): Option<nat>
    decreases if p < |m| then |m| - p else 0
  {
    if p >= |m| then None else if m[p] != c then Some(p) else RunEnd(m, p + 1, c)
  }

  /** `strspn` for one accepted character, as it is written; None when it leaves memory. */
  function SpanAsWritten(m: seq<Byte>, s: nat, c: Byte): Option<nat> {
    var p := ToAlignment(m, s, c);
    if !Aligned(p) then (if p >= s then Some(p - s) else None)
    else
      match WordWith(m, p, c)
      case None => None
      case Some(q) =>
        match RunEnd(m, q, c)
        case None => None
        case Some(e) => if e >= s then Some(e - s) else None
  }

  method StrSpnOne(mem: array<Byte>, s0: nat, c: Byte, ghost z: nat) returns (r: Option<nat>)
    requires StringAt(mem[..], s0, z) && c != 0
    ensures r == SpanAsWritten(mem[..], s0, c)
  {
    hide ToAlignment, WordWith, RunEnd, Aligned;
    var s := s0;
    s := SpanToAlignment(mem, s, c, z);
    if !Aligned(s) { return Some(s - s0); }
    var w := SpanWords(mem, s, c);
    if w.None? { return None; }
    var e := SpanRun(mem, w.value, c);
    if e.None? { return None; }
    return Some(e.value - s0);
  }

  method SpanToAlignment(mem: array<Byte>, s0: nat, c: Byte, ghost z: nat) returns (s: nat)
    requires StringAt(mem[..], s0, z) && c != 0
    ensures s0 <= s == ToAlignment(mem[..], s0, c)
  {
    s := s0;
    while !Aligned(s)
      invariant s0 <= s <= z && ToAlignment(mem[..], s0, c) == ToAlignment(mem[..], s, c)
      decreases z - s
    {
      if mem[s] != c { return; }
      s := s + 1;
    }
  }

  method SpanWords(mem: array<Byte>, p: nat, c: Byte) returns (w: Option<nat>)
    requires Aligned(p)
    ensures w == WordWith(mem[..], p, c) && (w.Some? ==> w.value >= p)
  {
    hide HasZero, Bytes, Mix, Broadcast, Aligned;
    var k := Broadcast(c);
    var s := p;
    while true
      invariant p <= s && Aligned(s) && WordWith(mem[..], p, c) == WordWith(mem[..], s, c)
      decreases mem.Length - s
    {
      if s + 8 > mem.Length { return None; }
      var x := Load(mem, s);
      ByteDetected(x, c);
      if HasZero(Mix(x, k)) { return Some(s); }
      AlignedNext(s);
      s := s + 8;
    }
  }

  method SpanRun(mem: array<Byte>, q: nat, c: Byte) returns (e: Option<nat>)
    ensures e == RunEnd(mem[..], q, c) && (e.Some? ==> e.value >= q)
  {
    var s := q;
    while true
      invariant q <= s && RunEnd(mem[..], q, c) == RunEnd(mem[..], s, c)
      decreases mem.Length - s
    {
      if s >= mem.Length { return None; }
      if mem[s] != c { return Some(s); }
      s := s + 1;
    }
  }

  /** The first aligned address from `s` on. */
  function AlignUp(s: nat): nat { (s + 7) / 8 * 8 }

  lemma AlignUpFacts(s: nat)
    ensures if Aligned(s) then AlignUp(s) == s else s < AlignUp(s) == AlignUp(s + 1)
  {
  }

  lemma {:induction false} AlignmentReached(m: seq<Byte>, s: nat, c: Byte, e: nat)
    requires FirstNotIn(m, s, e, {c})
    ensures ToAlignment(m, s, c) == if e < AlignUp(s) then e else AlignUp(s)
    decreases e - s
  {
    hide Aligned, AlignUp;
    AlignUpFacts(s);
    if !Aligned(s) && m[s] == c {
      AlignmentReached(m, s + 1, c, e);
    }
  }

  lemma {:induction false} RunEndIs(m: seq<Byte>, p: nat, c: Byte, e: nat)
    requires FirstNotIn(m, p, e, {c})
    ensures RunEnd(m, p, c) == Some(e)
    decreases e - p
  {
    if m[p] == c {
      RunEndIs(m, p + 1, c, e);
    }
  }

  lemma {:induction false} WordWithAfter(m: seq<Byte>, p: nat, c: Byte)
    ensures WordWith(m, p, c).Some? ==> WordWith(m, p, c).value >= p
    decreases if p < |m| then |m| - p else 0
  {
    if p + 8 <= |m| && c !in m[p..p + 8] {
      WordWithAfter(m, p + 8, c);
    }
  }

  lemma {:induction false} RunEndAfter(m: seq<Byte>, p: nat, c: Byte)
    ensures RunEnd(m, p, c).Some? ==> RunEnd(m, p, c).value >= p
    decreases if p < |m| then |m| - p else 0
  {
    if p < |m| && m[p] == c {
      RunEndAfter(m, p + 1, c);
    }
  }

  /** `strspn` with one accepted character is right exactly when a mismatch comes before
      the first aligned address, or the first aligned word holds the character. In every
      other case it leaves memory or returns too much. */
  lemma SpanOneRightIff(m: seq<Byte>, s: nat, z: nat, c: Byte, e: nat)
    requires StringAt(m, s, z) && WordEnd(z) <= |m| && c != 0
    requires FirstNotIn(m, s, e, {c})
    ensures e <= z
    ensures var r := SpanAsWritten(m, s, c);
      && (r == Some(e - s) <==> e < AlignUp(s) || c in m[AlignUp(s)..AlignUp(s) + 8])
      && (r != Some(e - s) && r.Some? ==> r.value > e - s)
  {
    hide ToAlignment, RunEnd;
    var a := AlignUp(s);
    AlignmentReached(m, s, c, e);
    if e >= a {
      if c in m[a..a + 8] {
        RunEndIs(m, a, c, e);
      } else {
        assert m[a] == m[a..a + 8][0];
        assert e == a;
        WordWithAfter(m, a + 8, c);
        if WordWith(m, a, c).Some? {
          RunEndAfter(m, WordWith(m, a, c).value, c);
        }
      }
    }
  }

  /** Aligned memory "b", zeros, then an "a": the span of "a" in "b" is given as 9. */
  lemma SpanOneWrong(m: seq<Byte>)
    requires |m| == 16 && m[0] == 0x62 && m[8] == 0x61
    requires forall i :: 1 <= i < 16 && i != 8 ==> m[i] == 0
    ensures StringAt(m, 0, 1) && FirstNotIn(m, 0, 0, {0x61})
    ensures SpanAsWritten(m, 0, 0x61) == Some(9)
  {
    assert 0x61 !in m[0..8];
    assert m[8] == m[8..16][0];
    assert WordWith(m, 8, 0x61) == Some(8);
    assert RunEnd(m, 8, 0x61) == Some(9) by {
      RunEndIs(m, 8, 0x61, 9);
    }
  }

  /** `strspn`: right for no accepted character and for two or more; for exactly one see
      SpanOneRightIff. */
  method StrSpn(mem: array<Byte>, s: nat, amem: array<Byte>, accept: nat, ghost z: nat, ghost za: nat)
    returns (r: Option<nat>)
    requires StringAt(mem[..], s, z) && StringAt(amem[..], accept, za)
    ensures if za == accept + 1 then r == SpanAsWritten(mem[..], s, amem[accept])
            else r.Some? && FirstNotIn(mem[..], s, s + r.value, Members(amem[..], accept, za))
  {
    hide Members, SpanAsWritten;
    if amem[accept] == 0 {
      NoMember(amem[..], accept);
      return Some(0);
    }
    if amem[accept + 1] == 0 {
      r := StrSpnOne(mem, s, amem[accept], z);
      return;
    }
    var n := StrSpnMany(mem, s, amem, accept, z, za);
    return Some(n);
  }
}
