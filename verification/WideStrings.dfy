/** `string_ww.c`: the word-wide string functions. Each meets the contract of its byte-loop
    form. The memory of a string may end right after the aligned word that holds its
    terminator, so no load from it goes further than that. */
module WideStrings {
  import opened Words
  import opened ByteStrings

  /** Both addresses have the same place in their aligned words. */
  predicate SameAlignment(a: nat, b: nat) { a % 8 == b % 8 }

  lemma AlignedTogether(dst: nat, src: nat, k: nat)
    requires SameAlignment(dst, src) && Aligned(src + k)
    ensures Aligned(dst + k)
  {
  }

  lemma StringBounds(m: seq<Byte>, s: nat, z: nat)
    requires StringAt(m, s, z)
    ensures s <= z < |m|
  {
  }

  // ---- strcpy ----

  /** The byte loop up to the first aligned address or past the terminator. */
  method CopyToAlignment(dmem: array<Byte>, dst: nat, smem: array<Byte>, src: nat,
                         ghost dm: seq<Byte>, ghost sm: seq<Byte>, ghost z: nat)
    returns (d: nat, s: nat, ghost k: nat)
    requires StringAt(sm, src, z) && Copying(dmem, dst, smem, src, dm, sm, 0, z - src + 1)
    modifies dmem
    ensures Copying(dmem, dst, smem, src, dm, sm, k, z - src + 1)
    ensures k <= z - src + 1 && d == dst + k && s == src + k
    ensures Aligned(s) || k == z - src + 1
  {
    hide Copying, Aligned;
    ghost var n := z - src + 1;
    d, s, k := dst, src, 0;
    while !Aligned(s)
      invariant k < n && d == dst + k && s == src + k
      invariant Copying(dmem, dst, smem, src, dm, sm, k, n)
      decreases n - k
    {
      var c := CopyByte(dmem, d, smem, s, dst, src, dm, sm, k, n);
      d, s, k := d + 1, s + 1, k + 1;
      if c == 0 { break; }
    }
  }

  /** One stored word is eight more bytes copied. */
  lemma WordCopied(d1: seq<Byte>, d2: seq<Byte>, dm: seq<Byte>, dst: nat, s1: seq<Byte>, sm: seq<Byte>, src: nat,
                   k: nat, w: Word)
    requires dst + k + 8 <= |dm| && src + k + 8 <= |sm| == |s1|
    requires d1 == Copied(dm, dst, sm, src, k) && Bytes(w) == s1[src + k..src + k + 8]
    requires Held(s1, sm, src + k, src + k + 8)
    requires |d2| == |d1|
    requires forall i :: 0 <= i < |d2| ==>
      d2[i] == if dst + k <= i < dst + k + 8 then Bytes(w)[i - (dst + k)] else d1[i]
    ensures d2 == Copied(dm, dst, sm, src, k + 8)
  {
    hide Bytes;
  }

  /** `*dw++ = *sw++` */
  method CopyWord(dmem: array<Byte>, d: nat, smem: array<Byte>, s: nat, w: Word, ghost dst: nat, ghost src: nat,
                  ghost dm: seq<Byte>, ghost sm: seq<Byte>, ghost k: nat, ghost n: nat)
    requires Copying(dmem, dst, smem, src, dm, sm, k, n) && k + 8 <= n && d == dst + k && s == src + k
    requires Aligned(d) && s + 8 <= smem.Length && Bytes(w) == smem[..][s..s + 8]
    modifies dmem
    ensures Copying(dmem, dst, smem, src, dm, sm, k + 8, n)
  {
    hide Bytes, Copied, Aligned;
    ghost var d1, s1 := dmem[..], smem[..];
    Store(dmem, d, w);
    WordCopied(d1, dmem[..], dm, dst, s1, sm, src, k, w);
  }

  /** A word of the source without a zero byte lies before the terminator. */
  lemma NoTerminator(s1: seq<Byte>, sm: seq<Byte>, src: nat, s: nat, z: nat, w: Word)
    requires StringAt(sm, src, z) && src <= s <= z && s + 8 <= |s1| && Held(s1, sm, src, z + 1)
    requires Bytes(w) == s1[s..s + 8] && !HasZero(w)
    ensures s + 8 <= z
  {
    hide Bytes, HasZero;
    ZeroDetected(w);
    InStretch(s1, s, 0);
    assert s1[z] == sm[z];
  }

  /** The word loop, up to the word that holds the terminator. */
  method CopyWords(dmem: array<Byte>, d0: nat, smem: array<Byte>, s0: nat, ghost dst: nat, ghost src: nat,
                   ghost dm: seq<Byte>, ghost sm: seq<Byte>, ghost k0: nat, ghost z: nat)
    returns (d: nat, s: nat, ghost k: nat)
    requires StringAt(sm, src, z) && k0 <= z - src && d0 == dst + k0 && s0 == src + k0
    requires Copying(dmem, dst, smem, src, dm, sm, k0, z - src + 1)
    requires Aligned(d0) && Aligned(s0) && WordEnd(z) <= smem.Length
    modifies dmem
    ensures Copying(dmem, dst, smem, src, dm, sm, k, z - src + 1)
    ensures k <= z - src && d == dst + k && s == src + k
  {
    hide HasZero, Bytes, WordEnd, Copied, StringAt, Aligned, Copying;
    StringBounds(sm, src, z);
    ghost var n := z - src + 1;
    d, s, k := d0, s0, k0;
    WordBounds(s, z);
    var w := Load(smem, s);
    while !HasZero(w)
      invariant k <= z - src && d == dst + k && s == src + k && Aligned(s) && Aligned(d)
      invariant s + 8 <= smem.Length && Bytes(w) == smem[..][s..s + 8]
      invariant Copying(dmem, dst, smem, src, dm, sm, k, n)
      decreases n - k
    {
      SourceHeld(dmem, dst, smem, src, dm, sm, k, n);
      NoTerminator(smem[..], sm, src, s, z, w);
      CopyWord(dmem, d, smem, s, w, dst, src, dm, sm, k, n);
      AlignedNext(d);
      AlignedNext(s);
      d, s, k := d + 8, s + 8, k + 8;
      WordBounds(s, z);
      w := Load(smem, s);
    }
  }

  lemma SourceHeld(dmem: array<Byte>, dst: nat, smem: array<Byte>, src: nat,
                   dm: seq<Byte>, sm: seq<Byte>, k: nat, n: nat)
    requires Copying(dmem, dst, smem, src, dm, sm, k, n)
    ensures Held(smem[..], sm, src, src + n)
  {
  }

  method StrCpy(dmem: array<Byte>, dst: nat, smem: array<Byte>, src: nat, ghost z: nat) returns (r: nat)
    requires StringAt(smem[..], src, z)
    requires dst + (z - src) < dmem.Length && Apart(dmem, dst, smem, src, z - src + 1)
    requires SameAlignment(dst, src) ==> WordEnd(z) <= smem.Length
    modifies dmem
    ensures r == dst && dmem[..] == Copied(old(dmem[..]), dst, old(smem[..]), src, z - src + 1)
  {
    if SameAlignment(dst, src) {
      CopySameAlignment(dmem, dst, smem, src, z);
      return dst;
    }
    r := ByteStrings.StrCpy(dmem, dst, smem, src, z);
  }

  /** The word-wide branch of `strcpy`. */
  method CopySameAlignment(dmem: array<Byte>, dst: nat, smem: array<Byte>, src: nat, ghost z: nat)
    requires StringAt(smem[..], src, z)
    requires dst + (z - src) < dmem.Length && Apart(dmem, dst, smem, src, z - src + 1)
    requires SameAlignment(dst, src) && WordEnd(z) <= smem.Length
    modifies dmem
    ensures dmem[..] == Copied(old(dmem[..]), dst, old(smem[..]), src, z - src + 1)
  {
    ghost var dm, sm, n := dmem[..], smem[..], z - src + 1;
    StringBounds(sm, src, z);
    CopyingStarts(dmem, dst, smem, src, n);
    hide *;
    var d, s;
    ghost var k;
    d, s, k := CopyToAlignment(dmem, dst, smem, src, dm, sm, z);
    CopyingBounds(dmem, dst, smem, src, dm, sm, k, n);
    LastCopied(dm, dst, sm, src, k, z);
    if Aligned(s) && (d == dst || dmem[d - 1] != 0) {
      AlignedTogether(dst, src, k);
      d, s, k := CopyWords(dmem, d, smem, s, dst, src, dm, sm, k, z);
      CopyToEnd(dmem, d, smem, s, dst, src, dm, sm, k, z);
      CopyingBounds(dmem, dst, smem, src, dm, sm, n, n);
    }
  }

  /** The last byte written tells whether the terminator was copied. */
  lemma LastCopied(dm: seq<Byte>, dst: nat, sm: seq<Byte>, src: nat, k: nat, z: nat)
    requires StringAt(sm, src, z) && k <= z - src + 1 && dst + (z - src) < |dm|
    ensures k > 0 ==> (Copied(dm, dst, sm, src, k)[dst + k - 1] == 0 <==> k == z - src + 1)
  {
  }

  // ---- strcmp ----

  /** The byte loop of `strcmp` up to aligned addresses, or to where the strings differ or
      end. */
  method CompareToAlignment(m1: array<Byte>, s1: nat, m2: array<Byte>, s2: nat, ghost z1: nat, ghost z2: nat)
    returns (p1: nat, p2: nat, found: bool)
    requires StringAt(m1[..], s1, z1) && StringAt(m2[..], s2, z2) && SameAlignment(s2, s1)
    ensures s1 <= p1 <= z1 && s2 <= p2 <= z2
    ensures Compare(m1[..], s1, m2[..], s2) == Compare(m1[..], p1, m2[..], p2)
    ensures if found then m1[p1] == 0 || m1[p1] != m2[p2] else Aligned(p1) && Aligned(p2)
  {
    hide Compare, Aligned;
    p1, p2 := s1, s2;
    while !Aligned(p1)
      invariant s1 <= p1 <= z1 && s2 <= p2 <= z2 && p1 - s1 == p2 - s2
      invariant Compare(m1[..], s1, m2[..], s2) == Compare(m1[..], p1, m2[..], p2)
      decreases z1 - p1
    {
      if m1[p1] == 0 || m1[p1] != m2[p2] {
        return p1, p2, true;
      }
      CompareUnfolds(m1[..], p1, m2[..], p2);
      p1, p2 := p1 + 1, p2 + 1;
    }
    AlignedTogether(s2, s1, p1 - s1);
    found := false;
  }

  /** The word loop of `strcmp`: equal words without a terminator are skipped. */
  method CompareWords(m1: array<Byte>, s1: nat, m2: array<Byte>, s2: nat, ghost z1: nat, ghost z2: nat)
    returns (p1: nat, p2: nat)
    requires StringAt(m1[..], s1, z1) && StringAt(m2[..], s2, z2)
    requires Aligned(s1) && Aligned(s2) && WordEnd(z1) <= m1.Length && WordEnd(z2) <= m2.Length
    ensures s1 <= p1 <= z1 && s2 <= p2 <= z2
    ensures Compare(m1[..], s1, m2[..], s2) == Compare(m1[..], p1, m2[..], p2)
  {
    hide WordEnd, HasZero, Bytes, Compare, Aligned;
    p1, p2 := s1, s2;
    WordBounds(p1, z1);
    WordBounds(p2, z2);
    var w1 := Load(m1, p1);
    var w2 := Load(m2, p2);
    while w1 == w2 && !HasZero(w1)
      invariant s1 <= p1 <= z1 && s2 <= p2 <= z2 && Aligned(p1) && Aligned(p2)
      invariant p1 + 8 <= m1.Length && p2 + 8 <= m2.Length
      invariant Bytes(w1) == m1[..][p1..p1 + 8] && Bytes(w2) == m2[..][p2..p2 + 8]
      invariant Compare(m1[..], s1, m2[..], s2) == Compare(m1[..], p1, m2[..], p2)
      decreases z1 - p1
    {
      EqualWords(m1[..], p1, m2[..], p2, z1, z2, w1, w2);
      AlignedNext(p1);
      AlignedNext(p2);
      p1, p2 := p1 + 8, p2 + 8;
      WordBounds(p1, z1);
      WordBounds(p2, z2);
      w1 := Load(m1, p1);
      w2 := Load(m2, p2);
    }
  }

  lemma EqualWords(m1: seq<Byte>, p1: nat, m2: seq<Byte>, p2: nat, z1: nat, z2: nat, w1: Word, w2: Word)
    requires p1 <= z1 < |m1| && m1[z1] == 0 && p2 <= z2 < |m2| && m2[z2] == 0
    requires p1 + 8 <= |m1| && p2 + 8 <= |m2|
    requires Bytes(w1) == m1[p1..p1 + 8] && Bytes(w2) == m2[p2..p2 + 8] && w1 == w2 && !HasZero(w1)
    ensures p1 + 8 <= z1 && p2 + 8 <= z2
    ensures Compare(m1, p1, m2, p2) == Compare(m1, p1 + 8, m2, p2 + 8)
  {
    hide HasZero, Bytes, Compare;
    ZeroDetected(w1);
    InStretch(m1, p1, 0);
    InStretch(m2, p2, 0);
    SkipBytes(m1, p1, m2, p2, 8);
  }

  lemma {:induction false} SkipBytes(m1: seq<Byte>, p1: nat, m2: seq<Byte>, p2: nat, n: nat)
    requires p1 + n <= |m1| && p2 + n <= |m2|
    requires m1[p1..p1 + n] == m2[p2..p2 + n] && 0 !in m1[p1..p1 + n]
    ensures Compare(m1, p1, m2, p2) == Compare(m1, p1 + n, m2, p2 + n)
    decreases n
  {
    if n > 0 {
      var a, b := m1[p1..p1 + n], m2[p2..p2 + n];
      assert m1[p1] == a[0] == b[0] == m2[p2] && m1[p1] in a;
      assert m1[p1 + 1..p1 + n] == a[1..] && m2[p2 + 1..p2 + n] == b[1..];
      SkipBytes(m1, p1 + 1, m2, p2 + 1, n - 1);
    }
  }

  method StrCmp(m1: array<Byte>, s1: nat, m2: array<Byte>, s2: nat, ghost z1: nat, ghost z2: nat) returns (r: int)
    requires StringAt(m1[..], s1, z1) && StringAt(m2[..], s2, z2)
    requires SameAlignment(s2, s1) ==> WordEnd(z1) <= m1.Length && WordEnd(z2) <= m2.Length
    ensures r == Compare(m1[..], s1, m2[..], s2)
  {
    hide WordEnd, Compare, Aligned, SameAlignment;
    var p1, p2 := s1, s2;
    if SameAlignment(s2, s1) {
      var found;
      p1, p2, found := CompareToAlignment(m1, s1, m2, s2, z1, z2);
      if found {
        CompareUnfolds(m1[..], p1, m2[..], p2);
        return m1[p1] as int - m2[p2] as int;
      }
      p1, p2 := CompareWords(m1, p1, m2, p2, z1, z2);
    }
    r := ByteStrings.StrCmp(m1, p1, m2, p2, z1, z2);
  }

  // ---- memcpy ----

  method MemCpy(dmem: array<Byte>, dst: nat, smem: array<Byte>, src: nat, n: nat) returns (r: nat)
    requires dst + n <= dmem.Length && src + n <= smem.Length && Apart(dmem, dst, smem, src, n)
    modifies dmem
    ensures r == dst && dmem[..] == Copied(old(dmem[..]), dst, old(smem[..]), src, n)
  {
    ghost var dm, sm, k := dmem[..], smem[..], 0;
    CopyingStarts(dmem, dst, smem, src, n);
    hide *;
    var d, s, left := dst, src, n;
    if SameAlignment(dst, src) {
      d, s, left, k := CopyBytesToAlignment(dmem, dst, smem, src, n, dm, sm);
      if left > 0 {
        AlignedTogether(dst, src, k);
      }
      d, s, left, k := CopyWholeWords(dmem, d, smem, s, left, dst, src, dm, sm, k);
    }
    CopyCount(dmem, d, smem, s, left, dst, src, dm, sm, k);
    CopyingBounds(dmem, dst, smem, src, dm, sm, n, n);
    return dst;
  }

  method CopyBytesToAlignment(dmem: array<Byte>, dst: nat, smem: array<Byte>, src: nat, n: nat,
                              ghost dm: seq<Byte>, ghost sm: seq<Byte>)
    returns (d: nat, s: nat, left: nat, ghost k: nat)
    requires Copying(dmem, dst, smem, src, dm, sm, 0, n)
    modifies dmem
    ensures Copying(dmem, dst, smem, src, dm, sm, k, n)
    ensures k + left == n && d == dst + k && s == src + k && (Aligned(s) || left == 0)
  {
    hide Copying, Aligned;
    d, s, left, k := dst, src, n, 0;
    while !Aligned(s) && left > 0
      invariant k + left == n && d == dst + k && s == src + k
      invariant Copying(dmem, dst, smem, src, dm, sm, k, n)
      decreases left
    {
      var _ := CopyByte(dmem, d, smem, s, dst, src, dm, sm, k, n);
      d, s, left, k := d + 1, s + 1, left - 1, k + 1;
    }
  }

  method CopyWholeWords(dmem: array<Byte>, d0: nat, smem: array<Byte>, s0: nat, left0: nat,
                        ghost dst: nat, ghost src: nat, ghost dm: seq<Byte>, ghost sm: seq<Byte>, ghost k0: nat)
    returns (d: nat, s: nat, left: nat, ghost k: nat)
    requires Copying(dmem, dst, smem, src, dm, sm, k0, k0 + left0) && d0 == dst + k0 && s0 == src + k0
    requires left0 > 0 ==> Aligned(d0) && Aligned(s0)
    modifies dmem
    ensures Copying(dmem, dst, smem, src, dm, sm, k, k0 + left0)
    ensures left < 8 && k + left == k0 + left0 && d == dst + k && s == src + k
  {
    hide Bytes, Copied, Copying, Aligned;
    ghost var n := k0 + left0;
    d, s, left, k := d0, s0, left0, k0;
    CopyingBounds(dmem, dst, smem, src, dm, sm, k, n);
    while left >= 8
      invariant k + left == n && d == dst + k && s == src + k
      invariant left > 0 ==> Aligned(s) && Aligned(d)
      invariant Copying(dmem, dst, smem, src, dm, sm, k, n)
    {
      var w := Load(smem, s);
      CopyWord(dmem, d, smem, s, w, dst, src, dm, sm, k, n);
      AlignedNext(d);
      AlignedNext(s);
      d, s, left, k := d + 8, s + 8, left - 8, k + 8;
    }
  }
}
