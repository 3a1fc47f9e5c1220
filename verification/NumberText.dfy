/** The integer printer of `ee_printf.c` and the integer parser of `core_util.c`. */
module NumberText {
  import opened Arithmetic
  import opened Options

  /** The bits of `type`. */
  datatype Flags = Flags(zeropad: bool, sign: bool, plus: bool, space: bool, left: bool, hexPrep: bool, upper: bool)

  // ---- digits ----

  function DigitChar(d: nat, upper: bool): char
    requires d < 36
  {
    if d < 10 then ('0' as int + d) as char
    else if upper then ('A' as int + (d - 10)) as char
    else ('a' as int + (d - 10)) as char
  }

  /** The two alphabets. */
  lemma DigitAlphabet(d: nat, upper: bool)
    requires d < 36
    ensures DigitChar(d, upper)
         == (if upper then "0123456789ABCDEFGHIJKLMNOPQRSTUVWXYZ" else "0123456789abcdefghijklmnopqrstuvwxyz")[d]
  {
  }

  function DigitValue(c: char): nat {
    if '0' <= c <= '9' then c as int - '0' as int
    else if 'a' <= c <= 'z' then c as int - 'a' as int + 10
    else if 'A' <= c <= 'Z' then c as int - 'A' as int + 10
    else 0
  }

  lemma CharValue(d: nat, upper: bool)
    requires d < 36
    ensures DigitValue(DigitChar(d, upper)) == d
  {
  }

  function Quotient(u: nat, base: nat): (q: nat)
    requires base >= 2
    ensures 2 * q <= u && (u >= base ==> 0 < q)
  {
    MulMonotone(2, base, u / base);
    u / base
  }

  function Remainder(u: nat, base: nat): (r: nat)
    requires base >= 2
    ensures r < base && r <= u
  {
    u % base
  }

  lemma Division(u: nat, base: nat)
    requires base >= 2
    ensures Quotient(u, base) * base + Remainder(u, base) == u
    ensures u < base ==> Quotient(u, base) == 0 && Remainder(u, base) == u
  {
    if u < base {
      DivisionUnique(u, base, 0, u);
    }
  }

  /** The digits of `u`, most significant first. */
  function Digits(u: nat, base: nat, upper: bool): (ds: seq<char>)
    requires 2 <= base <= 36
    ensures |ds| >= 1
  {
    if u < base then [DigitChar(u, upper)]
    else Digits(Quotient(u, base), base, upper) + [DigitChar(Remainder(u, base), upper)]
  }

  function Value(ds: seq<char>, base: nat): nat {
    if ds == [] then 0 else Value(ds[..|ds| - 1], base) * base + DigitValue(ds[|ds| - 1])
  }

  lemma ValueOfLast(ds: seq<char>, c: char, base: nat)
    ensures Value(ds + [c], base) == Value(ds, base) * base + DigitValue(c)
  {
    assert (ds + [c])[..|ds + [c]| - 1] == ds;
  }

  lemma {:induction false} ValueOfDigits(u: nat, base: nat, upper: bool)
    requires 2 <= base <= 36
    ensures Value(Digits(u, base, upper), base) == u
  {
    hide DigitChar, DigitValue, Quotient, Remainder, Value;
    if u >= base {
      ValueOfDigits(Quotient(u, base), base, upper);
      ValueOfLast(Digits(Quotient(u, base), base, upper), DigitChar(Remainder(u, base), upper), base);
      CharValue(Remainder(u, base), upper);
      Division(u, base);
    } else {
      CharValue(u, upper);
      OneDigit(DigitChar(u, upper), base);
    }
  }

  lemma OneDigit(c: char, base: nat)
    ensures Value([c], base) == DigitValue(c)
  {
    ValueOfLast([], c, base);
    assert [] + [c] == [c];
  }

  /** A number below 2^k has at most k digits, whatever the base. */
  lemma {:induction false} DigitCount(u: nat, base: nat, upper: bool, k: nat)
    requires 2 <= base <= 36 && k >= 1 && u < Pow2(k)
    ensures |Digits(u, base, upper)| <= k
  {
    hide DigitChar, Quotient, Remainder;
    if u >= base && k > 1 {
      DigitCount(Quotient(u, base), base, upper, k - 1);
    }
  }

  /** No digit is lost to a leading zero. */
  lemma {:induction false} NoLeadingZero(u: nat, base: nat, upper: bool)
    requires 2 <= base <= 36 && u > 0
    ensures DigitValue(Digits(u, base, upper)[0]) > 0
  {
    hide DigitChar, DigitValue, Quotient, Remainder;
    if u >= base {
      NoLeadingZero(Quotient(u, base), base, upper);
    } else {
      CharValue(u, upper);
    }
  }

  // ---- layout ----

  function Repeat(c: char, n: int): (s: seq<char>)
    ensures |s| == (if n < 0 then 0 else n)
    ensures forall i :: 0 <= i < |s| ==> s[i] == c
  {
    seq(if n < 0 then 0 else n, _ => c)
  }

  function Max(a: int, b: int): int { if a > b then a else b }

  /** The unsigned 64-bit number that is printed. */
  function Magnitude(num: int, f: Flags): nat
    requires -0x8000_0000_0000_0000 <= num < 0x8000_0000_0000_0000
  {
    if num >= 0 then num else if f.sign then -num else num + 0x1_0000_0000_0000_0000
  }

  function SignText(num: int, f: Flags): (s: seq<char>)
    ensures |s| <= 1
  {
    if !f.sign then [] else if num < 0 then ['-'] else if f.plus then ['+'] else if f.space then [' '] else []
  }

  function PrefixText(base: nat, f: Flags): (s: seq<char>)
    ensures |s| <= 2
  {
    if !f.hexPrep then [] else if base == 8 then ['0'] else if base == 16 then ['0', 'x'] else []
  }

  /** Where the padding goes: in front, between prefix and digits, or to the end. */
  function Arranged(head: seq<char>, zeros: seq<char>, ds: seq<char>, pad: int, f: Flags): seq<char> {
    (if !f.left && !f.zeropad then Repeat(' ', pad) else [])
    + head
    + (if !f.left && f.zeropad then Repeat('0', pad) else [])
    + zeros + ds
    + (if f.left then Repeat(' ', pad) else [])
  }

  /** What is printed: sign and prefix, the digits extended with zeros to the precision,
      and what is left of the field as padding. */
  function Layout(num: int, base: nat, size: int, precision: int, f: Flags): seq<char>
    requires -0x8000_0000_0000_0000 <= num < 0x8000_0000_0000_0000 && 2 <= base <= 36
  {
    var head := SignText(num, f) + PrefixText(base, f);
    var ds := Digits(Magnitude(num, f), base, f.upper);
    Arranged(head, Repeat('0', precision - |ds|), ds, size - |head| - Max(precision, |ds|), f)
  }

  /** Without width and precision: a sign if the number is signed, "0" or "0x" if asked for,
      and the digits. */
  lemma BareLayout(num: int, base: nat, f: Flags)
    requires -0x8000_0000_0000_0000 <= num < 0x8000_0000_0000_0000 && 2 <= base <= 36
    ensures Layout(num, base, 0, 0, f)
         == (if f.sign && num < 0 then "-" else if f.sign && f.plus then "+" else if f.sign && f.space then " " else "")
          + (if f.hexPrep && base == 8 then "0" else if f.hexPrep && base == 16 then "0x" else "")
          + Digits(if num < 0 && f.sign then -num else if num < 0 then num + 0x1_0000_0000_0000_0000 else num,
                   base, f.upper)
  {
    hide Digits;
    var head := SignText(num, f) + PrefixText(base, f);
    var ds := Digits(Magnitude(num, f), base, f.upper);
    NothingAround(head, ds, 0 - |head| - Max(0, |ds|), f);
    assert Repeat('0', 0 - |ds|) == [];
  }

  lemma NothingAround(head: seq<char>, ds: seq<char>, pad: int, f: Flags)
    requires pad <= 0
    ensures Arranged(head, [], ds, pad, f) == head + ds
  {
    assert Repeat(' ', pad) == [] && Repeat('0', pad) == [];
  }

  lemma LayoutLength(num: int, base: nat, size: int, precision: int, f: Flags)
    requires -0x8000_0000_0000_0000 <= num < 0x8000_0000_0000_0000 && 2 <= base <= 36
    ensures |Layout(num, base, size, precision, f)|
         == Max(size, |SignText(num, f)| + |PrefixText(base, f)|
                      + Max(precision, |Digits(Magnitude(num, f), base, f.upper)|))
  {
    hide Digits;
  }

  // ---- number ----

  /** `while (size-- > 0) *str++ = c;` */
  method Fill(out: array<char>, p: nat, size0: int, c: char) returns (q: nat, size: int)
    requires p + Max(size0, 0) <= out.Length
    modifies out
    ensures q == p + Max(size0, 0) && size == (if size0 > 0 then -1 else size0 - 1)
    ensures out[..q] == old(out[..p]) + Repeat(c, size0)
    ensures forall i :: q <= i < out.Length ==> out[i] == old(out[i])
  {
    q, size := p, size0;
    while size > 0
      invariant p <= q && q - p == size0 - size
      invariant size0 > 0 ==> 0 <= size <= size0
      invariant size0 <= 0 ==> size == size0
      invariant forall i :: 0 <= i < out.Length ==> out[i] == if p <= i < q then c else old(out[i])
    {
      size := size - 1;
      out[q] := c;
      q := q + 1;
    }
    size := size - 1;
  }

  method Put(out: array<char>, p: nat, c: char) returns (q: nat)
    requires p < out.Length
    modifies out
    ensures q == p + 1 && out[..q] == old(out[..p]) + [c]
    ensures forall i :: q <= i < out.Length ==> out[i] == old(out[i])
  {
    out[p] := c;
    q := p + 1;
  }

  function HeadText(sign: char, base: nat, f: Flags): seq<char> {
    (if sign == '\0' then [] else [sign]) + PrefixText(base, f)
  }

  /** The sign and the prefix. */
  method PutHead(out: array<char>, p: nat, sign: char, base: nat, f: Flags) returns (q: nat)
    requires p + |HeadText(sign, base, f)| <= out.Length
    modifies out
    ensures q == p + |HeadText(sign, base, f)| && out[..q] == old(out[..p]) + HeadText(sign, base, f)
    ensures forall i :: q <= i < out.Length ==> out[i] == old(out[i])
  {
    q := p;
    if sign != '\0' {
      q := Put(out, q, sign);
    }
    if f.hexPrep {
      if base == 8 {
        q := Put(out, q, '0');
      } else if base == 16 {
        q := Put(out, q, '0');
        q := Put(out, q, 'x');
      }
    }
  }

  /** `while (i-- > 0) *str++ = tmp[i];` */
  method PutReversed(out: array<char>, p: nat, tmp: array<char>, n: nat, ghost ds: seq<char>) returns (q: nat)
    requires n == |ds| <= tmp.Length && p + n <= out.Length && out != tmp
    requires forall k :: 0 <= k < n ==> tmp[k] == ds[n - 1 - k]
    modifies out
    ensures q == p + n && out[..q] == old(out[..p]) + ds
    ensures forall i :: q <= i < out.Length ==> out[i] == old(out[i])
  {
    q := p;
    var i := n;
    while i > 0
      invariant 0 <= i <= n && q == p + (n - i)
      invariant forall k :: 0 <= k < n ==> tmp[k] == ds[n - 1 - k]
      invariant forall j :: 0 <= j < out.Length ==> out[j] == if p <= j < q then ds[j - p] else old(out[j])
    {
      i := i - 1;
      assert tmp[i] == ds[n - 1 - i];
      out[q] := tmp[i];
      q := q + 1;
    }
  }

  method SignAndSize(num0: int, base: int, size0: int, f: Flags) returns (sign: char, num: nat, size: int)
    requires -0x8000_0000_0000_0000 <= num0 < 0x8000_0000_0000_0000 && 2 <= base
    ensures num == Magnitude(num0, f)
    ensures HeadText(sign, base, f) == SignText(num0, f) + PrefixText(base, f)
    ensures size == size0 - |SignText(num0, f)| - |PrefixText(base, f)|
  {
    sign, size := '\0', size0;
    if f.sign {
      if num0 < 0 {
        sign, size := '-', size - 1;
      } else if f.plus {
        sign, size := '+', size - 1;
      } else if f.space {
        sign, size := ' ', size - 1;
      }
    }
    if f.hexPrep {
      if base == 16 {
        size := size - 2;
      } else if base == 8 {
        size := size - 1;
      }
    }
    num := if num0 >= 0 then num0 else if f.sign then -num0 else num0 + 0x1_0000_0000_0000_0000;
  }

  /** The digits, least significant first, as the division loop produces them: 66 places
      are enough. */
  method DigitLoop(num: nat, base: nat, upper: bool) returns (tmp: array<char>, i: nat)
    requires 2 <= base <= 36 && num < Pow2(64)
    ensures fresh(tmp) && tmp.Length == 66 && i == |Digits(num, base, upper)| <= 64
    ensures forall k :: 0 <= k < i ==> tmp[k] == Digits(num, base, upper)[i - 1 - k]
  {
    hide DigitChar, Quotient, Remainder, Pow2;
    tmp := new char[66];
    i := 0;
    ghost var ds := Digits(num, base, upper);
    DigitCount(num, base, upper, 64);
    if num == 0 {
      ZeroDigit(upper);
      tmp[0] := '0';
      i := 1;
    } else {
      var left := num;
      while left != 0
        invariant 0 <= i <= |ds|
        invariant Remaining(ds, i, left, base, upper)
        invariant forall k :: 0 <= k < i ==> tmp[k] == ds[|ds| - 1 - k]
        decreases left
      {
        NextDigit(ds, i, left, base, upper);
        tmp[i] := DigitChar(Remainder(left, base), upper);
        left := Quotient(left, base);
        i := i + 1;
      }
    }
  }

  lemma ZeroDigit(upper: bool)
    ensures DigitChar(0, upper) == '0'
  {
  }

  /** All but the last `i` digits are those of what is left. */
  ghost predicate Remaining(ds: seq<char>, i: nat, left: nat, base: nat, upper: bool)
    requires 2 <= base <= 36
  {
    i <= |ds| && ds[..|ds| - i] == if left == 0 then [] else Digits(left, base, upper)
  }

  lemma NextDigit(ds: seq<char>, i: nat, left: nat, base: nat, upper: bool)
    requires 2 <= base <= 36 && left != 0 && Remaining(ds, i, left, base, upper)
    ensures i < |ds| && ds[|ds| - 1 - i] == DigitChar(Remainder(left, base), upper)
    ensures Remaining(ds, i + 1, Quotient(left, base), base, upper)
  {
    hide DigitChar, Quotient, Remainder;
    var now := Digits(left, base, upper);
    Division(left, base);
    assert ds[|ds| - 1 - i] == now[|now| - 1];
    assert ds[..|ds| - (i + 1)] == now[..|now| - 1];
  }

  /** `number`: None, and nothing written, for a base out of range; otherwise the layout is
      written at `start` and the position behind it returned. */
  method Number(out: array<char>, start: nat, num0: int, base: int, size0: int, precision0: int, f: Flags)
    returns (end: Option<nat>)
    requires -0x8000_0000_0000_0000 <= num0 < 0x8000_0000_0000_0000
    requires 2 <= base <= 36 ==> start + |Layout(num0, base, size0, precision0, f)| <= out.Length
    modifies out
    ensures end == if 2 <= base <= 36 then Some(start + |Layout(num0, base, size0, precision0, f)|) else None
    ensures end.None? ==> out[..] == old(out[..])
    ensures end.Some? ==> out[..end.value] == old(out[..start]) + Layout(num0, base, size0, precision0, f)
    ensures end.Some? ==> forall i :: end.value <= i < out.Length ==> out[i] == old(out[i])
  {
    hide Digits, Pow2, Arranged;
    if base < 2 || base > 36 { return None; }
    var sign, num, size := SignAndSize(num0, base, size0, f);
    MagnitudeFits(num0, f);
    var tmp, i := DigitLoop(num, base, f.upper);
    var precision := if i > precision0 then i else precision0;
    size := size - precision;
    assert Repeat('0', precision - i) == Repeat('0', precision0 - i);
    var p := PutNumber(out, start, tmp, i, sign, base, size, precision, f, Digits(num, base, f.upper));
    return Some(p);
  }

  lemma MagnitudeFits(num: int, f: Flags)
    requires -0x8000_0000_0000_0000 <= num < 0x8000_0000_0000_0000
    ensures Magnitude(num, f) < Pow2(64)
  {
    hide Pow2;
    WordPowers();
  }

  /** The writing loops of `number`, after sign, prefix and digits are known. */
  method PutNumber(out: array<char>, start: nat, tmp: array<char>, i: nat, sign: char, base: nat, size0: int,
                   precision: int, f: Flags, ghost ds: seq<char>) returns (p: nat)
    requires out != tmp && i == |ds| <= tmp.Length && i <= precision
    requires forall k :: 0 <= k < i ==> tmp[k] == ds[i - 1 - k]
    requires start + |Arranged(HeadText(sign, base, f), Repeat('0', precision - i), ds, size0, f)| <= out.Length
    modifies out
    ensures var text := Arranged(HeadText(sign, base, f), Repeat('0', precision - i), ds, size0, f);
      && p == start + |text|
      && out[..p] == old(out[..start]) + text
    ensures forall j :: p <= j < out.Length ==> out[j] == old(out[j])
  {
    hide HeadText, Repeat;
    var size, left := size0, 0;
    ghost var before := out[..start];
    ghost var lead := if !f.left && !f.zeropad then Repeat(' ', size0) else [];
    ghost var middle := if !f.left && f.zeropad then Repeat('0', size0) else [];
    ghost var tail := if f.left then Repeat(' ', size0) else [];
    p := start;
    if !f.zeropad && !f.left {
      p, size := Fill(out, p, size, ' ');
    }
    assert out[..p] == before + lead;
    p := PutHead(out, p, sign, base, f);
    p, size := PutMiddle(out, p, size, f, middle);
    p, left := Fill(out, p, precision - i, '0');
    p := PutReversed(out, p, tmp, i, ds);
    p, size := Fill(out, p, size, ' ');
    Regroup(before, lead, HeadText(sign, base, f), middle, Repeat('0', precision - i), ds, tail);
  }

  /** `if (!(type & LEFT)) while (size-- > 0) *str++ = c;` */
  method PutMiddle(out: array<char>, p: nat, size0: int, f: Flags, ghost middle: seq<char>) returns (q: nat, size: int)
    requires if f.left then middle == []
             else if f.zeropad then middle == Repeat('0', size0)
             else middle == [] && size0 <= 0
    requires p + |middle| <= out.Length
    modifies out
    ensures q == p + |middle| && out[..q] == old(out[..p]) + middle
    ensures if f.left then size == size0 else size < 0
    ensures forall i :: q <= i < out.Length ==> out[i] == old(out[i])
  {
    q, size := p, size0;
    if !f.left {
      q, size := Fill(out, p, size0, if f.zeropad then '0' else ' ');
    }
  }

  lemma Regroup(b: seq<char>, x1: seq<char>, x2: seq<char>, x3: seq<char>, x4: seq<char>, x5: seq<char>, x6: seq<char>)
    ensures b + x1 + x2 + x3 + x4 + x5 + x6 == b + (x1 + x2 + x3 + x4 + x5 + x6)
  {
    Regroup3(b, x1, x2, x3);
    Regroup3(b, x1 + x2 + x3, x4, x5);
    assert b + (x1 + x2 + x3) + x4 + x5 + x6 == b + (x1 + x2 + x3 + x4 + x5) + x6;
    Regroup3(b, x1 + x2 + x3 + x4 + x5, x6, []);
    assert b + (x1 + x2 + x3 + x4 + x5) + x6 + [] == b + (x1 + x2 + x3 + x4 + x5) + x6;
    assert x1 + x2 + x3 + x4 + x5 + x6 + [] == x1 + x2 + x3 + x4 + x5 + x6;
  }

  lemma Regroup3(b: seq<char>, x: seq<char>, y: seq<char>, z: seq<char>)
    ensures b + x + y + z == b + (x + y + z)
  {
  }
}
