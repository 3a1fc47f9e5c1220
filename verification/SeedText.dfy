/** `parseval` of `core_util.c`, and which printed numbers it reads back. */
module SeedText {
  import opened NumberText

  // ---- 32-bit arithmetic ----

  const RANGE := 0x1_0000_0000

  /** The value that a signed 32-bit variable keeps. */
  function Wrap(x: int): (w: int)
    ensures -0x8000_0000 <= w < 0x8000_0000
  {
    (x + 0x8000_0000) % RANGE - 0x8000_0000
  }

  lemma WrapOffset(x: int) returns (q: int)
    ensures Wrap(x) == x + q * RANGE
  {
    q := -((x + 0x8000_0000) / RANGE);
  }

  lemma WrapMultiple(x: int, q: int)
    ensures Wrap(x + q * RANGE) == Wrap(x)
  {
  }

  lemma WrapSmall(x: int)
    requires -0x8000_0000 <= x < 0x8000_0000
    ensures Wrap(x) == x
  {
  }

  /** Wrapping after every step or once at the end comes to the same. */
  lemma WrapTimes(x: int, k: int)
    ensures Wrap(Wrap(x) * k) == Wrap(x * k)
  {
    hide Wrap;
    var q := WrapOffset(x);
    assert (x + q * RANGE) * k == x * k + (q * k) * RANGE;
    WrapMultiple(x * k, q * k);
  }

  lemma WrapPlus(x: int, d: int)
    ensures Wrap(Wrap(x) + d) == Wrap(x + d)
  {
    hide Wrap;
    var q := WrapOffset(x);
    WrapMultiple(x + d, q);
  }

  // ---- what is parsed ----

  function At(text: seq<char>, i: nat): char { if i < |text| then text[i] else '\0' }

  predicate IsDigit(c: char, hex: bool) { '0' <= c <= '9' || (hex && 'a' <= c <= 'f') }

  lemma DigitCharacters(c: char, hex: bool)
    ensures IsDigit(c, hex) <==> c in "0123456789" || (hex && c in "abcdef")
  {
  }

  function DigitsEnd(text: seq<char>, p: nat, hex: bool): (e: nat)
    requires p <= |text|
    ensures p <= e <= |text|
    decreases |text| - p
  {
    if p < |text| && IsDigit(text[p], hex) then DigitsEnd(text, p + 1, hex) else p
  }

  function Scale(c: char): int { if c == 'K' then 1024 else if c == 'M' then 1024 * 1024 else 1 }

  function BaseOf(hex: bool): nat { if hex then 16 else 10 }

  /** Where the digits start, and whether they are hexadecimal. */
  function AfterSign(text: seq<char>): nat { if At(text, 0) == '-' then 1 else 0 }

  predicate IsHex(text: seq<char>) {
    At(text, AfterSign(text)) == '0' && At(text, AfterSign(text) + 1) == 'x'
  }

  function FirstDigit(text: seq<char>): (p: nat)
    ensures p <= |text|
  {
    AfterSign(text) + (if IsHex(text) then 2 else 0)
  }

  /** The number a text stands for: sign, digits and a unit of 2^10 or 2^20. */
  function Exact(text: seq<char>): int {
    var p, hex := FirstDigit(text), IsHex(text);
    var e := DigitsEnd(text, p, hex);
    Value(text[p..e], BaseOf(hex)) * Scale(At(text, e)) * (if At(text, 0) == '-' then -1 else 1)
  }

  // ---- parseval ----

  ghost predicate Terminated(text: seq<char>, z: nat) {
    z < |text| && text[z] == '\0' && forall i :: 0 <= i < z ==> text[i] != '\0'
  }

  /** `parseval`: the number, reduced to 32 bits. */
  method ParseVal(text: seq<char>, ghost z: nat) returns (retval: int)
    requires Terminated(text, z)
    ensures retval == Wrap(Exact(text))
  {
    hide Wrap, Value, DigitsEnd, DigitValue;
    var p, neg, hexmode := 0, 1, false;
    if text[0] == '-' {
      neg, p := -1, 1;
    }
    if text[p] == '0' && text[p + 1] == 'x' {
      hexmode, p := true, p + 2;
    }
    assert p == FirstDigit(text) && hexmode == IsHex(text) && p <= z;
    ghost var start := p;
    retval, p := ParseDigits(text, p, hexmode, z);
    ghost var v := Value(text[start..p], BaseOf(hexmode));
    WrapTimes(v, Scale(text[p]));
    if text[p] == 'K' {
      retval := Wrap(retval * 1024);
    }
    if text[p] == 'M' {
      retval := Wrap(retval * (1024 * 1024));
    }
    WrapOnce(v);
    WrapTimes(v * Scale(text[p]), neg);
    retval := Wrap(retval * neg);
  }

  lemma WrapOnce(x: int)
    ensures Wrap(Wrap(x) * 1) == Wrap(x)
  {
  }

  /** The digit loops. */
  method ParseDigits(text: seq<char>, start: nat, hexmode: bool, ghost z: nat) returns (retval: int, p: nat)
    requires Terminated(text, z) && start <= z
    ensures p == DigitsEnd(text, start, hexmode) <= z
    ensures retval == Wrap(Value(text[start..p], BaseOf(hexmode)))
  {
    hide Wrap, Value;
    retval, p := 0, start;
    NoDigits(text, start, BaseOf(hexmode));
    while IsDigit(text[p], hexmode)
      invariant start <= p <= z && DigitsEnd(text, start, hexmode) == DigitsEnd(text, p, hexmode)
      invariant retval == Wrap(Value(text[start..p], BaseOf(hexmode)))
      decreases z - p
    {
      var digit := text[p] as int - '0' as int;
      if digit > 9 {
        digit := 10 + text[p] as int - 'a' as int;
      }
      DigitStep(text, start, p, BaseOf(hexmode));
      ghost var v := Value(text[start..p], BaseOf(hexmode));
      WrapTimes(v, BaseOf(hexmode));
      WrapPlus(v * BaseOf(hexmode), digit);
      retval := Wrap(retval * BaseOf(hexmode));
      retval := Wrap(retval + digit);
      p := p + 1;
    }
  }

  lemma NoDigits(text: seq<char>, start: nat, base: nat)
    requires start <= |text|
    ensures Wrap(Value(text[start..start], base)) == 0
  {
  }

  lemma DigitStep(text: seq<char>, start: nat, p: nat, base: nat)
    requires start <= p < |text|
    ensures Value(text[start..p + 1], base) == Value(text[start..p], base) * base + DigitValue(text[p])
  {
    assert text[start..p + 1] == text[start..p] + [text[p]];
    ValueOfLast(text[start..p], text[p], base);
  }

  // ---- round trip ----

  ghost predicate AllDigits(s: seq<char>, hex: bool) {
    forall i :: 0 <= i < |s| ==> IsDigit(s[i], hex)
  }

  lemma {:induction false} DigitsAreDigits(u: nat, hex: bool, upper: bool)
    requires !(hex && upper)
    ensures AllDigits(Digits(u, BaseOf(hex), upper), hex)
  {
    hide Quotient, Remainder, DigitChar;
    if u >= BaseOf(hex) {
      DigitsAreDigits(Quotient(u, BaseOf(hex)), hex, upper);
      OneIsDigit(Remainder(u, BaseOf(hex)), hex, upper);
    } else {
      OneIsDigit(u, hex, upper);
    }
  }

  lemma OneIsDigit(d: nat, hex: bool, upper: bool)
    requires d < BaseOf(hex) && !(hex && upper)
    ensures IsDigit(DigitChar(d, upper), hex)
  {
  }

  lemma OneMoreZero(n: int)
    ensures n > 0 ==> Repeat('0', n) == Repeat('0', n - 1) + ['0']
    ensures n <= 0 ==> Repeat('0', n) == []
  {
  }

  lemma ValueOfNothing(base: nat)
    ensures Value([], base) == 0 && DigitValue('0') == 0
  {
  }

  lemma {:induction false} ZerosOnly(n: int, base: nat)
    ensures Value(Repeat('0', n), base) == 0
    decreases n
  {
    hide *;
    OneMoreZero(n);
    ValueOfNothing(base);
    if n > 0 {
      ZerosOnly(n - 1, base);
      ValueOfLast(Repeat('0', n - 1), '0', base);
    }
  }

  lemma {:induction false} ZerosAreNothing(n: int, ds: seq<char>, base: nat)
    ensures Value(Repeat('0', n) + ds, base) == Value(ds, base)
    decreases |ds|
  {
    hide *;
    var zeros := Repeat('0', n);
    if ds == [] {
      ZerosOnly(n, base);
      ValueOfNothing(base);
      assert zeros + ds == zeros;
    } else {
      var ds1, c := ds[..|ds| - 1], ds[|ds| - 1];
      ZerosAreNothing(n, ds1, base);
      assert zeros + ds == (zeros + ds1) + [c] && ds == ds1 + [c];
      ValueOfLast(zeros + ds1, c, base);
      ValueOfLast(ds1, c, base);
    }
  }

  lemma {:induction false} DigitsEndAfter(text: seq<char>, p: nat, n: nat, hex: bool)
    requires p + n <= |text| && AllDigits(text[p..p + n], hex)
    requires !IsDigit(At(text, p + n), hex)
    ensures DigitsEnd(text, p, hex) == p + n
    decreases n
  {
    if n > 0 {
      assert text[p] == text[p..p + n][0];
      assert text[p + 1..p + 1 + (n - 1)] == text[p..p + n][1..];
      DigitsEndAfter(text, p + 1, n - 1, hex);
    }
  }

  /** A text of an optional minus sign, an optional prefix and digits stands for them, and
      for 2^10 or 2^20 times as much with a K or an M behind. */
  lemma ExactOfParts(minus: bool, hex: bool, run: seq<char>, tail: seq<char>)
    requires run != [] && AllDigits(run, hex) && tail != [] && !IsDigit(tail[0], hex) && tail[0] != 'x'
    ensures var text := (if minus then "-" else []) + (if hex then "0x" else []) + run + tail;
      Exact(text) == Value(run, BaseOf(hex))
                     * (if tail[0] == 'K' then 0x400 else if tail[0] == 'M' then 0x10_0000 else 1)
                     * (if minus then -1 else 1)
  {
    hide Value;
    var head := (if minus then "-" else []) + (if hex then "0x" else []);
    var text := head + run + tail;
    assert At(text, |head|) == run[0];
    assert At(text, |head| + 1) == if |run| > 1 then run[1] else tail[0];
    assert IsHex(text) == hex && FirstDigit(text) == |head|;
    assert text[|head|..|head| + |run|] == run;
    assert At(text, |head| + |run|) == tail[0];
    DigitsEndAfter(text, |head|, |run|, hex);
  }

  /** A number with a unit: what `parseval` makes of printed digits and the K or M, or any
      other character that is no digit, behind them. */
  lemma UnitsRead(u: nat, minus: bool, hex: bool, unit: char, rest: seq<char>)
    requires !IsDigit(unit, hex) && unit != 'x'
    ensures var text := (if minus then "-" else []) + (if hex then "0x" else [])
                        + Digits(u, if hex then 16 else 10, false) + ([unit] + rest);
      Wrap(Exact(text)) == Wrap((if minus then -1 else 1) * u
                                * (if unit == 'K' then 0x400 else if unit == 'M' then 0x10_0000 else 1))
  {
    hide Digits, Value, Exact, Wrap;
    var ds := Digits(u, BaseOf(hex), false);
    DigitsAreDigits(u, hex, false);
    ValueOfDigits(u, BaseOf(hex), false);
    ExactOfParts(minus, hex, ds, [unit] + rest);
    SignLast(u, if unit == 'K' then 0x400 else if unit == 'M' then 0x10_0000 else 1, minus);
  }

  lemma SignLast(u: int, k: int, minus: bool)
    ensures u * k * (if minus then -1 else 1) == (if minus then -1 else 1) * u * k
  {
  }

  /** A text with another first character stands for nothing. */
  lemma ExactOfOther(text: seq<char>)
    requires text != [] && (text[0] == ' ' || text[0] == '+')
    ensures Exact(text) == 0
  {
    assert text[0..0] == [];
  }

  /** No blank and no plus comes in front of the digits. */
  predicate Clean(num: int, base: nat, size: int, precision: int, f: Flags)
    requires -0x8000_0000_0000_0000 <= num < 0x8000_0000_0000_0000 && 2 <= base <= 36
  {
    && SignText(num, f) != ['+'] && SignText(num, f) != [' ']
    && (f.left || f.zeropad || size <= |SignText(num, f)| + |PrefixText(base, f)|
                                       + Max(precision, |Digits(Magnitude(num, f), base, f.upper)|))
  }

  /** What stands behind head of a layout: zeros and digits, then blanks and the terminator. */
  lemma CleanParts(head: seq<char>, zeros: int, ds: seq<char>, pad: int, f: Flags)
    returns (run: seq<char>, tail: seq<char>, n: int)
    requires f.left || f.zeropad || pad <= 0
    ensures Arranged(head, Repeat('0', zeros), ds, pad, f) + ['\0'] == head + run + tail
    ensures run == Repeat('0', n) + ds
    ensures tail != [] && (tail[0] == ' ' || tail[0] == '\0')
  {
    var middle := if !f.left && f.zeropad then Repeat('0', pad) else [];
    var after := if f.left then Repeat(' ', pad) else [];
    n := |middle| + |Repeat('0', zeros)|;
    run := Repeat('0', n) + ds;
    tail := after + ['\0'];
    assert Repeat('0', n) == middle + Repeat('0', zeros);
    assert (if !f.left && !f.zeropad then Repeat(' ', pad) else []) + head == head;
    Joined(head, middle, Repeat('0', zeros), ds, after);
  }

  lemma Joined(head: seq<char>, x: seq<char>, y: seq<char>, z: seq<char>, after: seq<char>)
    ensures head + x + y + z + after + ['\0'] == head + ((x + y) + z) + (after + ['\0'])
  {
    Regroup3(head, x, y, z);
    Regroup3(head + (x + y + z), after, ['\0'], []);
  }

  lemma RunDigits(u: nat, hex: bool, upper: bool, n: int)
    requires !(hex && upper)
    ensures var run := Repeat('0', n) + Digits(u, BaseOf(hex), upper);
      run != [] && AllDigits(run, hex) && Value(run, BaseOf(hex)) == u
  {
    hide Value, Digits;
    DigitsAreDigits(u, hex, upper);
    ValueOfDigits(u, BaseOf(hex), upper);
    ZerosAreNothing(n, Digits(u, BaseOf(hex), upper), BaseOf(hex));
  }

  /** Decimal, signed: what `number` prints is read back exactly when nothing but a minus
      comes in front of the digits; the number zero is always read back. */
  lemma DecimalRoundTrip(num: int, size: int, precision: int, f: Flags)
    requires -0x8000_0000 < num < 0x8000_0000 && f.sign
    ensures Wrap(Exact(Layout(num, 10, size, precision, f) + ['\0'])) == num
       <==> num == 0 || Clean(num, 10, size, precision, f)
  {
    hide Digits, Value, Exact, Arranged, Wrap;
    var head := SignText(num, f) + PrefixText(10, f);
    var ds := Digits(Magnitude(num, f), 10, f.upper);
    var pad := size - |head| - Max(precision, |ds|);
    var text := Layout(num, 10, size, precision, f) + ['\0'];
    if Clean(num, 10, size, precision, f) {
      var run, tail, n := CleanParts(head, precision - |ds|, ds, pad, f);
      RunDigits(Magnitude(num, f), false, f.upper, n);
      ExactOfParts(num < 0, false, run, tail);
      assert head == (if num < 0 then "-" else []) + [];
      WrapSmall(num);
    } else {
      UncleanStarts(head, precision - |ds|, ds, pad, f);
      ExactOfOther(text);
      WrapSmall(0);
    }
  }

  lemma UncleanStarts(head: seq<char>, zeros: int, ds: seq<char>, pad: int, f: Flags)
    requires (!f.left && !f.zeropad && pad > 0) || (head != [] && (head[0] == ' ' || head[0] == '+'))
    ensures var text := Arranged(head, Repeat('0', zeros), ds, pad, f) + ['\0'];
      text[0] == ' ' || text[0] == '+'
  {
  }

  /** Lower-case hexadecimal with prefix: the same. */
  lemma HexRoundTrip(num: int, size: int, precision: int, f: Flags)
    requires 0 <= num < 0x8000_0000 && !f.sign && f.hexPrep && !f.upper
    ensures Wrap(Exact(Layout(num, 16, size, precision, f) + ['\0'])) == num
       <==> num == 0 || Clean(num, 16, size, precision, f)
  {
    hide Digits, Value, Exact, Arranged, Wrap;
    var head := SignText(num, f) + PrefixText(16, f);
    var ds := Digits(Magnitude(num, f), 16, false);
    var pad := size - |head| - Max(precision, |ds|);
    var text := Layout(num, 16, size, precision, f) + ['\0'];
    if Clean(num, 16, size, precision, f) {
      var run, tail, n := CleanParts(head, precision - |ds|, ds, pad, f);
      RunDigits(Magnitude(num, f), true, false, n);
      ExactOfParts(false, true, run, tail);
      assert head == [] + "0x";
      WrapSmall(num);
    } else {
      UncleanStarts(head, precision - |ds|, ds, pad, f);
      ExactOfOther(text);
      WrapSmall(0);
    }
  }
}
