/** `string_bare.c`: the byte-loop string functions, and what they compute. Each string lies
    in a stretch of memory of its own, an array with the index as the address; two stretches
    may be the same array. */
module ByteStrings {
  import opened Words

  /** Memory `d` after `n` bytes were copied to `dst` from `src` of memory `s`. */
  function Copied(d: seq<Byte>, dst: nat, s: seq<Byte>, src: nat, n: nat): (r: seq<Byte>)
    requires dst + n <= |d| && src + n <= |s|
    ensures |r| == |d|
    ensures forall i :: 0 <= i < |d| ==> r[i] == if dst <= i < dst + n then s[src + (i - dst)] else d[i]
  {
    seq(|d|, i requires 0 <= i < |d| => if dst <= i < dst + n then s[src + (i - dst)] else d[i])
  }

  /** Source and destination do not overlap. */
  ghost predicate Apart(dmem: array<Byte>, dst: nat, smem: array<Byte>, src: nat, n: nat) {
    dmem == smem ==> dst + n <= src || src + n <= dst
  }

  /** Memory holds from `lo` to `hi` what it held. */
  ghost predicate Held(now: seq<Byte>, before: seq<Byte>, lo: nat, hi: nat) {
    |now| == |before| && lo <= hi <= |now| && forall i :: lo <= i < hi ==> now[i] == before[i]
  }

  lemma NoneCopied(d: seq<Byte>, dst: nat, s: seq<Byte>, src: nat)
    requires dst <= |d| && src <= |s|
    ensures Copied(d, dst, s, src, 0) == d
  {
  }

  /** `k` of `n` bytes are copied, from memories that were `dm` and `sm` before; the source
      still holds what it held. */
  ghost predicate Copying(dmem: array<Byte>, dst: nat, smem: array<Byte>, src: nat,
                          dm: seq<Byte>, sm: seq<Byte>, k: nat, n: nat)
    reads dmem, smem
  {
    && k <= n && dst + n <= dmem.Length == |dm| && src + n <= smem.Length == |sm|
    && Apart(dmem, dst, smem, src, n)
    && dmem[..] == Copied(dm, dst, sm, src, k) && Held(smem[..], sm, src, src + n)
  }

  lemma CopyingStarts(dmem: array<Byte>, dst: nat, smem: array<Byte>, src: nat, n: nat)
    requires dst + n <= dmem.Length && src + n <= smem.Length && Apart(dmem, dst, smem, src, n)
    ensures Copying(dmem, dst, smem, src, dmem[..], smem[..], 0, n)
  {
    NoneCopied(dmem[..], dst, smem[..], src);
  }

  lemma CopyingBounds(dmem: array<Byte>, dst: nat, smem: array<Byte>, src: nat,
                      dm: seq<Byte>, sm: seq<Byte>, k: nat, n: nat)
    requires Copying(dmem, dst, smem, src, dm, sm, k, n)
    ensures k <= n && dst + n <= dmem.Length == |dm| && src + n <= smem.Length == |sm|
    ensures dmem[..] == Copied(dm, dst, sm, src, k)
  {
  }

  /** `*d++ = *s++` */
  method CopyByte(dmem: array<Byte>, d: nat, smem: array<Byte>, s: nat, ghost dst: nat, ghost src: nat,
                  ghost dm: seq<Byte>, ghost sm: seq<Byte>, ghost k: nat, ghost n: nat) returns (c: Byte)
    requires Copying(dmem, dst, smem, src, dm, sm, k, n) && k < n && d == dst + k && s == src + k
    modifies dmem
    ensures Copying(dmem, dst, smem, src, dm, sm, k + 1, n) && s < |sm| && c == sm[s]
  {
    c := smem[s];
    dmem[d] := c;
  }

  /** `while ((*d++ = *s++) != 0);` from byte `k0` on; the terminator of the source is at `z`. */
  method CopyToEnd(dmem: array<Byte>, d0: nat, smem: array<Byte>, s0: nat, ghost dst: nat, ghost src: nat,
                   ghost dm: seq<Byte>, ghost sm: seq<Byte>, ghost k0: nat, ghost z: nat)
    requires StringAt(sm, src, z) && k0 <= z - src && d0 == dst + k0 && s0 == src + k0
    requires Copying(dmem, dst, smem, src, dm, sm, k0, z - src + 1)
    modifies dmem
    ensures Copying(dmem, dst, smem, src, dm, sm, z - src + 1, z - src + 1)
  {
    hide Copying;
    ghost var n := z - src + 1;
    var last := CopyByte(dmem, d0, smem, s0, dst, src, dm, sm, k0, n);
    ghost var k := k0 + 1;
    var d, s := d0 + 1, s0 + 1;
    while last != 0
      invariant k0 < k <= n && d == dst + k && s == src + k
      invariant Copying(dmem, dst, smem, src, dm, sm, k, n)
      invariant last == sm[s - 1]
      decreases n - k
    {
      last := CopyByte(dmem, d, smem, s, dst, src, dm, sm, k, n);
      d, s, k := d + 1, s + 1, k + 1;
    }
  }

  /** `while (n--) *d++ = *s++;` from byte `k0` on. */
  method CopyCount(dmem: array<Byte>, d0: nat, smem: array<Byte>, s0: nat, left0: nat, ghost dst: nat, ghost src: nat,
                   ghost dm: seq<Byte>, ghost sm: seq<Byte>, ghost k0: nat)
    requires Copying(dmem, dst, smem, src, dm, sm, k0, k0 + left0) && d0 == dst + k0 && s0 == src + k0
    modifies dmem
    ensures Copying(dmem, dst, smem, src, dm, sm, k0 + left0, k0 + left0)
  {
    hide Copying;
    ghost var n, k := k0 + left0, k0;
    var d, s, left := d0, s0, left0;
    while left > 0
      invariant 0 <= left <= left0 && k == n - left && d == dst + k && s == src + k
      invariant Copying(dmem, dst, smem, src, dm, sm, k, n)
    {
      left := left - 1;
      var _ := CopyByte(dmem, d, smem, s, dst, src, dm, sm, k, n);
      d, s, k := d + 1, s + 1, k + 1;
    }
  }

  method StrCpy(dmem: array<Byte>, dst: nat, smem: array<Byte>, src: nat, ghost z: nat) returns (r: nat)
    requires StringAt(smem[..], src, z)
    requires dst + (z - src) < dmem.Length && Apart(dmem, dst, smem, src, z - src + 1)
    modifies dmem
    ensures r == dst && dmem[..] == Copied(old(dmem[..]), dst, old(smem[..]), src, z - src + 1)
  {
    hide Copied, Apart, Copying;
    ghost var dm, sm, n := dmem[..], smem[..], z - src + 1;
    CopyingStarts(dmem, dst, smem, src, n);
    CopyToEnd(dmem, dst, smem, src, dst, src, dm, sm, 0, z);
    CopyingBounds(dmem, dst, smem, src, dm, sm, n, n);
    return dst;
  }

  method MemCpy(dmem: array<Byte>, dst: nat, smem: array<Byte>, src: nat, n: nat) returns (r: nat)
    requires dst + n <= dmem.Length && src + n <= smem.Length && Apart(dmem, dst, smem, src, n)
    modifies dmem
    ensures r == dst && dmem[..] == Copied(old(dmem[..]), dst, old(smem[..]), src, n)
  {
    hide Copied, Apart, Copying;
    ghost var dm, sm := dmem[..], smem[..];
    CopyingStarts(dmem, dst, smem, src, n);
    CopyCount(dmem, dst, smem, src, n, dst, src, dm, sm, 0);
    CopyingBounds(dmem, dst, smem, src, dm, sm, n, n);
    return dst;
  }

  // ---- strcmp ----

  /** The value of `strcmp`: the difference of the first two bytes that differ or end a
      string. */
  function Compare(m1: seq<Byte>, s1: nat, m2: seq<Byte>, s2: nat): int
    decreases if s1 < |m1| then |m1| - s1 else 0
  {
    if s1 >= |m1| || s2 >= |m2| then 0
    else if m1[s1] == 0 || m1[s1] != m2[s2] then m1[s1] as int - m2[s2] as int
    else Compare(m1, s1 + 1, m2, s2 + 1)
  }

  lemma CompareUnfolds(m1: seq<Byte>, s1: nat, m2: seq<Byte>, s2: nat)
    requires s1 < |m1| && s2 < |m2|
    ensures Compare(m1, s1, m2, s2) == if m1[s1] == 0 || m1[s1] != m2[s2] then m1[s1] as int - m2[s2] as int
                                       else Compare(m1, s1 + 1, m2, s2 + 1)
  {
  }

  method StrCmp(m1: array<Byte>, s1: nat, m2: array<Byte>, s2: nat, ghost z1: nat, ghost z2: nat) returns (r: int)
    requires StringAt(m1[..], s1, z1) && StringAt(m2[..], s2, z2)
    ensures r == Compare(m1[..], s1, m2[..], s2)
  {
    hide Compare;
    var p1, p2 := s1, s2;
    while m1[p1] != 0 && m1[p1] == m2[p2]
      invariant s1 <= p1 <= z1 && s2 <= p2 <= z2
      invariant Compare(m1[..], s1, m2[..], s2) == Compare(m1[..], p1, m2[..], p2)
      decreases z1 - p1
    {
      CompareUnfolds(m1[..], p1, m2[..], p2);
      p1, p2 := p1 + 1, p2 + 1;
    }
    CompareUnfolds(m1[..], p1, m2[..], p2);
    return m1[p1] as int - m2[p2] as int;
  }

  /** Before every other byte string that it does not start, comes the one with the
      smaller byte where they first differ. */
  ghost predicate Precedes(a: seq<Byte>, b: seq<Byte>) {
    if a == [] then b != []
    else b != [] && (a[0] < b[0] || (a[0] == b[0] && Precedes(a[1..], b[1..])))
  }

  lemma Difference(a: Byte, b: Byte)
    ensures a as int - b as int == 0 <==> a == b
    ensures a as int - b as int < 0 <==> a < b
  {
  }

  /** Zero for equal strings only, negative exactly when the first precedes the second. */
  lemma {:induction false} CompareOrders(m1: seq<Byte>, s1: nat, m2: seq<Byte>, s2: nat, z1: nat, z2: nat)
    requires StringAt(m1, s1, z1) && StringAt(m2, s2, z2)
    ensures Compare(m1, s1, m2, s2) == 0 <==> m1[s1..z1] == m2[s2..z2]
    ensures Compare(m1, s1, m2, s2) < 0 <==> Precedes(m1[s1..z1], m2[s2..z2])
    decreases z1 - s1
  {
    Peel(m1, s1, z1);
    Peel(m2, s2, z2);
    Difference(m1[s1], m2[s2]);
    if s1 < z1 && s2 < z2 && m1[s1] == m2[s2] {
      CompareOrders(m1, s1 + 1, m2, s2 + 1, z1, z2);
    }
  }

  lemma Peel(m: seq<Byte>, s: nat, z: nat)
    requires StringAt(m, s, z)
    ensures s == z ==> m[s..z] == []
    ensures s < z ==> StringAt(m, s + 1, z) && m[s..z] == [m[s]] + m[s + 1..z] && m[s..z][1..] == m[s + 1..z]
  {
  }
}
