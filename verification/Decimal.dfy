/** print_int and atoi of kernel/src/libc.cpp: what is printed parses back. */
module Decimal {

  const INT_MAX: int := 0x7FFF_FFFF

  function Digit(n: nat): char
    requires n < 10
  {
    ('0' as int + n) as char
  }

  predicate IsDigit(c: char) { '0' <= c <= '9' }

  function ValueOf(c: char): nat
    requires IsDigit(c)
  {
    c as int - '0' as int
  }

  predicate IsBlank(c: char) { c == ' ' || c == '\t' || c == '\n' }

  // ---- Printing ---------------------------------------------------------------------------------

  /** The decimal digits of a number, most significant first. */
  function Digits(n: nat): (s: string)
    ensures |s| >= 1 && forall i :: 0 <= i < |s| ==> IsDigit(s[i])
  {
    if n < 10 then [Digit(n)] else Digits(n / 10) + [Digit(n % 10)]
  }

  function Repeat(c: char, n: int): (s: string)
    ensures |s| == (if n < 0 then 0 else n) && forall i :: 0 <= i < |s| ==> s[i] == c
  {
    seq(if n < 0 then 0 else n, _ => c)
  }

  function Sign(negative: bool): string { if negative then "-" else "" }

  /** What print_int emits. */
  function Printed(val: int, width: int, pad: char, left: bool): string {
    var digits, sign := Digits(if val < 0 then -val else val), Sign(val < 0);
    var fill := width - |digits| - |sign|;
    (if !left && pad == ' ' then Repeat(' ', fill) else "") + sign
    + (if !left && pad == '0' then Repeat('0', fill) else "") + digits
    + (if left then Repeat(' ', fill) else "")
  }

  /** A number in a field: sign and digits, as wide as asked for if they are shorter, filled up with
      blanks before or after them or with zeros between them. */
  ghost predicate LaidOut(s: string, val: int, width: int, pad: char, left: bool) {
    var n: nat, sign := if val < 0 then -val else val, if val < 0 then "-" else "";
    var digits := Digits(n);
    var plain := |sign| + |digits|;
    && |s| == (if width > plain then width else plain)
    && (if left then s[..plain] == sign + digits && forall i :: plain <= i < |s| ==> s[i] == ' '
        else
          && s[|s| - |digits|..] == digits
          && (pad == ' ' ==> s[|s| - plain..] == sign + digits && forall i :: 0 <= i < |s| - plain ==> s[i] == ' ')
          && (pad == '0' ==> s[..|sign|] == sign && forall i :: |sign| <= i < |s| - |digits| ==> s[i] == '0'))
  }

  lemma PrintedLaidOut(val: int, width: int, pad: char, left: bool)
    requires left || pad == ' ' || pad == '0'
    ensures LaidOut(Printed(val, width, pad, left), val, width, pad, left)
  {
    hide Digits;
  }

  /** The digit loop of print_uint_core for base 10: least significant digit first. */
  method ReversedDigits(val: nat) returns (buf: string)
    ensures |buf| == |Digits(val)| && forall i :: 0 <= i < |buf| ==> buf[i] == Digits(val)[|buf| - 1 - i]
  {
    if val == 0 { return "0"; }
    buf := "";
    var v := val;
    while v > 0
      invariant v > 0 || buf != ""
      invariant Digits(val) == (if v > 0 then Digits(v) else "") + Reversed(buf)
    {
      DigitsStep(v, buf);
      buf := buf + [Digit(v % 10)];
      v := v / 10;
    }
    ReversedAt(buf);
  }

  function Reversed(s: string): (r: string)
    ensures |r| == |s|
  {
    if s == "" then "" else [s[|s| - 1]] + Reversed(s[..|s| - 1])
  }

  lemma DigitsStep(v: nat, buf: string)
    requires v > 0
    ensures Digits(v) + Reversed(buf) == (if v / 10 > 0 then Digits(v / 10) else "") + Reversed(buf + [Digit(v % 10)])
  {
    var more := buf + [Digit(v % 10)];
    assert more[..|more| - 1] == buf;
    assert Reversed(more) == [Digit(v % 10)] + Reversed(buf);
  }

  lemma {:induction false} ReversedAt(s: string)
    ensures forall i :: 0 <= i < |s| ==> Reversed(s)[i] == s[|s| - 1 - i]
    decreases |s|
  {
    if s != "" { ReversedAt(s[..|s| - 1]); }
  }

  /** print_int through print_uint_core. */
  method PrintInt(val: int, width: int, pad: char, left: bool) returns (out: string)
    ensures out == Printed(val, width, pad, left)
    ensures left || pad == ' ' || pad == '0' ==> LaidOut(out, val, width, pad, left)
  {
    hide Digits, Repeat, LaidOut;
    if left || pad == ' ' || pad == '0' { PrintedLaidOut(val, width, pad, left); }
    var negative := val < 0;
    var uval: nat := if negative then -val else val;
    var buf := ReversedDigits(uval);
    var fill := width - |buf| - if negative then 1 else 0;
    out := "";
    if !left && pad == ' ' { out := Repeat(' ', fill); }
    if negative { out := out + "-"; }
    if !left && pad == '0' { out := out + Repeat('0', fill); }
    out := AppendReversed(out, buf, Digits(uval));
    if left { out := out + Repeat(' ', fill); }
  }

  method AppendReversed(front: string, buf: string, ghost digits: string) returns (out: string)
    requires |buf| == |digits| && forall i :: 0 <= i < |buf| ==> buf[i] == digits[|buf| - 1 - i]
    ensures out == front + digits
  {
    out := front;
    var j := |buf| - 1;
    while j >= 0
      invariant -1 <= j < |buf|
      invariant out == front + digits[..|buf| - 1 - j]
    {
      out := out + [buf[j]];
      j := j - 1;
    }
    assert digits[..|buf|] == digits;
  }

  // ---- Parsing ----------------------------------------------------------------------------------

  /** A 32-bit signed result: arithmetic wraps. */
  function Wrap(n: int): (r: int)
    ensures -0x8000_0000 <= r <= INT_MAX && (n - r) % 0x1_0000_0000 == 0
  {
    var m := n % 0x1_0000_0000;
    if m > INT_MAX then m - 0x1_0000_0000 else m
  }

  /** The digit loop of atoi. */
  function Accumulate(s: string, res: int): int {
    if s == "" || !IsDigit(s[0]) then res else Accumulate(s[1..], Wrap(res * 10 + ValueOf(s[0])))
  }

  function SkipBlanks(s: string): string { if s != "" && IsBlank(s[0]) then SkipBlanks(s[1..]) else s }

  function Atoi(s: string): int {
    var t := SkipBlanks(s);
    if t != "" && t[0] == '-' then Wrap(-Accumulate(t[1..], 0))
    else if t != "" && t[0] == '+' then Accumulate(t[1..], 0)
    else Accumulate(t, 0)
  }

  lemma WrapSmall(n: int)
    requires -INT_MAX - 1 <= n <= INT_MAX
    ensures Wrap(n) == n
  {
  }

  /** atoi: a C string ends at its NUL, which is neither blank, sign nor digit. */
  method ParseInt(s: string) returns (r: int)
    ensures r == Atoi(s)
  {
    hide Wrap, Accumulate;
    var i := 0;
    while i < |s| && IsBlank(s[i])
      invariant 0 <= i <= |s| && SkipBlanks(s) == SkipBlanks(s[i..])
    {
      assert s[i..][1..] == s[i + 1..];
      i := i + 1;
    }
    var t := s[i..];
    assert SkipBlanks(s) == t;
    if t != "" && t[0] == '-' {
      var n := ReadDigits(t[1..]);
      return Wrap(-n);
    } else if t != "" && t[0] == '+' {
      r := ReadDigits(t[1..]);
    } else {
      r := ReadDigits(t);
    }
  }

  method ReadDigits(s: string) returns (res: int)
    ensures res == Accumulate(s, 0)
  {
    hide Wrap;
    res := 0;
    var i := 0;
    while i < |s| && IsDigit(s[i])
      invariant 0 <= i <= |s| && Accumulate(s, 0) == Accumulate(s[i..], res)
    {
      assert s[i..][1..] == s[i + 1..];
      res := Wrap(res * 10 + ValueOf(s[i]));
      i := i + 1;
    }
  }

  // ---- The round trip ---------------------------------------------------------------------------

  lemma {:induction false} SkipAll(n: int, s: string)
    requires s == "" || !IsBlank(s[0])
    ensures SkipBlanks(Repeat(' ', n) + s) == s
    decreases if n < 0 then 0 else n
  {
    if n > 0 {
      assert (Repeat(' ', n) + s)[1..] == Repeat(' ', n - 1) + s;
      SkipAll(n - 1, s);
    } else {
      assert Repeat(' ', n) + s == s;
    }
  }

  lemma {:induction false} ZerosAddNothing(n: int, s: string)
    ensures Accumulate(Repeat('0', n) + s, 0) == Accumulate(s, 0)
    decreases if n < 0 then 0 else n
  {
    if n > 0 {
      assert (Repeat('0', n) + s)[1..] == Repeat('0', n - 1) + s;
      ZerosAddNothing(n - 1, s);
    } else {
      assert Repeat('0', n) + s == s;
    }
  }

  /** The number a string of digits stands for. */
  function Number(s: string): nat
    requires forall i :: 0 <= i < |s| ==> IsDigit(s[i])
  {
    if s == "" then 0 else 10 * Number(s[..|s| - 1]) + ValueOf(s[|s| - 1])
  }

  /** The digits printed for n stand for n, without leading zeros. */
  lemma {:induction false} DigitsAre(n: nat)
    ensures Number(Digits(n)) == n && (n > 0 ==> Digits(n)[0] != '0') && (n == 0 ==> Digits(n) == "0")
  {
    if n >= 10 {
      DigitsAre(n / 10);
      assert Digits(n)[..|Digits(n)| - 1] == Digits(n / 10);
    } else {
      assert Digits(n)[..0] == "";
    }
  }

  lemma WrapTimesTen(a: int, d: int)
    ensures Wrap(Wrap(a) * 10 + d) == Wrap(a * 10 + d)
  {
    WrapSame(Wrap(a) * 10 + d, a * 10 + d, 10 * ((Wrap(a) - a) / 0x1_0000_0000));
  }

  /** Numbers a multiple of 2^32 apart wrap to the same. */
  lemma WrapSame(a: int, b: int, k: int)
    requires a == b + 0x1_0000_0000 * k
    ensures Wrap(a) == Wrap(b)
  {
    assert a % 0x1_0000_0000 == b % 0x1_0000_0000;
  }

  /** After a string of digits the accumulator holds its number, wrapped. */
  lemma {:induction false} DigitsSplit(s: string, rest: string)
    requires forall i :: 0 <= i < |s| ==> IsDigit(s[i])
    ensures Accumulate(s + rest, 0) == Accumulate(rest, Wrap(Number(s)))
    decreases |s|
  {
    hide Wrap;
    WrapSmall(0);
    if s == "" {
      assert s + rest == rest;
    } else {
      var n := |s| - 1;
      var last := [s[n]] + rest;
      DigitsSplit(s[..n], last);
      assert s + rest == s[..n] + last && last[1..] == rest;
      WrapTimesTen(Number(s[..n]), ValueOf(s[n]));
    }
  }

  predicate Blanks(s: string) { forall i :: 0 <= i < |s| ==> s[i] == ' ' || s[i] == '\t' || s[i] == '\n' }

  /** The rest of the string does not belong to the number. */
  predicate Stops(sign: string, digits: string, rest: string) {
    && (rest != "" ==> !IsDigit(rest[0]))
    && (rest != "" && digits == "" && sign == "" ==> !(rest[0] in {' ', '\t', '\n', '+', '-'}))
  }

  lemma {:induction false} SkipsBlanks(b: string, s: string)
    requires Blanks(b) && (s != "" ==> !IsBlank(s[0]))
    ensures SkipBlanks(b + s) == s
    decreases |b|
  {
    if b == "" {
      assert b + s == s;
    } else {
      assert (b + s)[1..] == b[1..] + s;
      SkipsBlanks(b[1..], s);
    }
  }

  lemma AccumulateStops(rest: string, res: int)
    requires rest != "" ==> !IsDigit(rest[0])
    ensures Accumulate(rest, res) == res
  {
  }

  /** What atoi returns for every string: blanks, a sign or none, digits, and a rest it does not look
      at stand for the number of the digits with its sign, wrapped to 32 bits. */
  lemma AtoiReads(blanks: string, sign: string, digits: string, rest: string)
    requires Blanks(blanks) && (sign == "" || sign == "+" || sign == "-") && Stops(sign, digits, rest)
    requires forall i :: 0 <= i < |digits| ==> IsDigit(digits[i])
    ensures var n: int := Number(digits); Atoi(blanks + (sign + (digits + rest))) == Wrap(if sign == "-" then -n else n)
  {
    hide Wrap, SkipBlanks, Number, Accumulate;
    var number := digits + rest;
    var body := sign + number;
    SkipsBlanks(blanks, body);
    DigitsSplit(digits, rest);
    AccumulateStops(rest, Wrap(Number(digits)));
    assert sign != "" ==> body[0] == sign[0] && body[1..] == number;
    assert sign == "" ==> body == number;
    WrapNegated(Number(digits));
  }

  lemma WrapNegated(n: int)
    ensures Wrap(-Wrap(n)) == Wrap(-n)
  {
    WrapSame(-Wrap(n), -n, (n - Wrap(n)) / 0x1_0000_0000);
  }

  /** Every string is of that form. */
  lemma {:induction false} AtoiCovers(s: string) returns (blanks: string, sign: string, digits: string, rest: string)
    ensures s == blanks + (sign + (digits + rest)) && Blanks(blanks) && (sign == "" || sign == "+" || sign == "-")
    ensures (forall i :: 0 <= i < |digits| ==> IsDigit(digits[i])) && Stops(sign, digits, rest)
    decreases |s|
  {
    if s != "" && IsBlank(s[0]) {
      blanks, sign, digits, rest := AtoiCovers(s[1..]);
      assert s == [s[0]] + s[1..];
      blanks := [s[0]] + blanks;
    } else {
      blanks, sign := "", if s != "" && (s[0] == '+' || s[0] == '-') then s[..1] else "";
      digits, rest := DigitsOf(s[|sign|..]);
    }
  }

  lemma {:induction false} DigitsOf(s: string) returns (digits: string, rest: string)
    ensures s == digits + rest && (forall i :: 0 <= i < |digits| ==> IsDigit(digits[i])) && (rest != "" ==> !IsDigit(rest[0]))
    decreases |s|
  {
    if s == "" || !IsDigit(s[0]) {
      digits, rest := "", s;
    } else {
      digits, rest := DigitsOf(s[1..]);
      assert s == [s[0]] + s[1..];
      digits := [s[0]] + digits;
    }
  }

  lemma DigitsRead(n: nat, rest: string)
    requires rest == "" || !IsDigit(rest[0])
    ensures Accumulate(Digits(n) + rest, 0) == Wrap(n)
  {
    DigitsSplit(Digits(n), rest);
    DigitsAre(n);
  }

  /** Every 32-bit int, printed with any width, padding and justification, parses back to itself;
      for the smallest the last digit wraps, and so does its negation. */
  lemma PrintThenParse(val: int, width: int, pad: char, left: bool)
    requires -INT_MAX - 1 <= val <= INT_MAX && (pad == ' ' || pad == '0')
    ensures Atoi(Printed(val, width, pad, left)) == val
  {
    hide Digits, Accumulate, Repeat, SkipBlanks;
    var n: nat, sign := if val < 0 then -val else val, Sign(val < 0);
    var fill := width - |Digits(n)| - |sign|;
    var zeros, tail := if !left && pad == '0' then fill else 0, if left then Repeat(' ', fill) else "";
    var blanks := if !left && pad == ' ' then fill else 0;
    var number := Repeat('0', zeros) + (Digits(n) + tail);
    DigitsRead(n, tail);
    ZerosAddNothing(zeros, Digits(n) + tail);
    NumberStarts(zeros, n, tail);
    PrintedShape(val, width, pad, left);
    ParseSigned(val, blanks, number);
  }

  lemma NumberStarts(zeros: int, n: nat, tail: string)
    ensures var number := Repeat('0', zeros) + (Digits(n) + tail); number != "" && IsDigit(number[0])
  {
    hide Digits;
  }

  lemma PrintedShape(val: int, width: int, pad: char, left: bool)
    requires pad == ' ' || pad == '0'
    ensures var n: nat := if val < 0 then -val else val;
            var fill := width - |Digits(n)| - |Sign(val < 0)|;
            var zeros, tail := if !left && pad == '0' then fill else 0, if left then Repeat(' ', fill) else "";
            var blanks := if !left && pad == ' ' then fill else 0;
            Printed(val, width, pad, left) == Repeat(' ', blanks) + (Sign(val < 0) + (Repeat('0', zeros) + (Digits(n) + tail)))
  {
    hide Digits;
  }

  lemma ParseSigned(val: int, blanks: int, number: string)
    requires -INT_MAX - 1 <= val <= INT_MAX && number != "" && IsDigit(number[0])
    requires Accumulate(number, 0) == Wrap(if val < 0 then -val else val)
    ensures Atoi(Repeat(' ', blanks) + (Sign(val < 0) + number)) == val
  {
    hide Accumulate, Repeat, SkipBlanks;
    var body := Sign(val < 0) + number;
    SkipAll(blanks, body);
    if val < 0 { assert body[1..] == number; } else { assert body == number; }
  }
}
