/** FMT_FN: numbers as digit strings, in any base from 2 to 36. */
module Format {

  const DIGITS := "0123456789abcdefghijklmnopqrstuvwxyz"

  predicate IsBase(base: nat) {
    2 <= base <= 36
  }

  function Digit(d: nat): char
    requires d < 36
  {
    DIGITS[d]
  }

  function DigitValue(c: char): nat {
    if '0' <= c <= '9' then (c - '0') as nat
    else if 'a' <= c <= 'z' then (c - 'a') as nat + 10
    else 0
  }

  predicate IsDigit(c: char, base: nat) {
    ('0' <= c <= '9' || 'a' <= c <= 'z') && DigitValue(c) < base
  }

  /** Digits read back, and their character order is their numeric order. */
  lemma DigitsRead(d: nat)
    requires d < 36
    ensures DigitValue(Digit(d)) == d && ('0' <= Digit(d) <= '9' || 'a' <= Digit(d) <= 'z')
  {
    assert forall i :: 0 <= i < 10 ==> DIGITS[i] == '0' + i as char;
    assert forall i :: 10 <= i < 36 ==> DIGITS[i] == 'a' + (i - 10) as char;
  }

  lemma DigitOrder(c: char, e: char, base: nat)
    requires IsDigit(c, base) && IsDigit(e, base)
    ensures DigitValue(c) < DigitValue(e) <==> c < e
    ensures DigitValue(c) == DigitValue(e) <==> c == e
  {
  }

  /** `v` without its last digit. */
  function Front(v: nat, base: nat): (q: nat)
    requires base >= 2
    ensures v > 0 ==> q < v
    ensures q == 0 <==> v < base
  {
    if v < base then 0 else Smaller(v, base); v / base
  }

  function Last(v: nat, base: nat): (d: nat)
    requires base >= 2
    ensures d < base
  {
    v % base
  }

  lemma Smaller(v: nat, base: nat)
    requires base >= 2 && v >= base
    ensures 0 < v / base < v
  {
  }

  lemma Twice(q: int, r: nat, v: nat, base: nat)
    requires base >= 2 && v == q * base + r && r < base <= v
    ensures 0 < q < v
  {
  }

  lemma FrontAndLast(v: nat, base: nat)
    requires base >= 2
    ensures Front(v, base) * base + Last(v, base) == v
    ensures v < base ==> Last(v, base) == v
  {
  }

  function Pow(base: nat, n: nat): nat {
    if n == 0 then 1 else base * Pow(base, n - 1)
  }

  /** The number that a digit string stands for. */
  function ValueOf(s: string, base: nat): nat {
    if s == "" then 0 else ValueOf(s[..|s| - 1], base) * base + DigitValue(s[|s| - 1])
  }

  predicate IsNumeral(s: string, base: nat) {
    forall i :: 0 <= i < |s| ==> IsDigit(s[i], base)
  }

  /** The shortest digit string for `v`. */
  function Numeral(v: nat, base: nat): (s: string)
    requires IsBase(base)
    ensures |s| > 0
    decreases v
  {
    if v < base then [Digit(v)] else Numeral(Front(v, base), base) + [Digit(Last(v, base))]
  }

  lemma {:induction false} NumeralReads(v: nat, base: nat)
    requires IsBase(base)
    ensures IsNumeral(Numeral(v, base), base) && ValueOf(Numeral(v, base), base) == v
    decreases v
  {
    hide Front, Last, Digit, DigitValue;
    FrontAndLast(v, base);
    DigitsRead(Last(v, base));
    if v < base {
      assert ValueOf([Digit(v)][..0], base) == 0;
    } else {
      NumeralReads(Front(v, base), base);
      var s := Numeral(Front(v, base), base);
      assert (s + [Digit(Last(v, base))])[..|s|] == s;
    }
  }

  /** It has no superfluous zero in front. */
  lemma {:induction false} NumeralStarts(v: nat, base: nat)
    requires IsBase(base) && v > 0
    ensures DigitValue(Numeral(v, base)[0]) > 0
    decreases v
  {
    hide Front, Last, Digit, DigitValue;
    if v < base { DigitsRead(v); } else { NumeralStarts(Front(v, base), base); }
  }

  /** Its length is the number of digits that the value needs. */
  lemma {:induction false} NumeralLength(v: nat, base: nat, n: nat)
    requires IsBase(base) && n > 0
    ensures |Numeral(v, base)| <= n <==> v < Pow(base, n)
    decreases n
  {
    hide Front, Last, Digit;
    if n == 1 {
      assert Pow(base, 1) == base * Pow(base, 0);
    } else {
      if v >= base {
        NumeralLength(Front(v, base), base, n - 1);
        DivideBound(v, base, Pow(base, n - 1));
      } else {
        PowAtLeast(base, n);
      }
    }
  }

  lemma DivideBound(v: nat, base: nat, p: nat)
    requires base >= 2
    ensures Front(v, base) < p <==> v < base * p
  {
    hide Front, Last;
    FrontAndLast(v, base);
    var q := Front(v, base);
    if q < p { assert base * (q + 1) <= base * p; } else { assert base * p <= base * q; }
  }

  lemma {:induction false} PowAtLeast(base: nat, n: nat)
    requires base >= 2 && n > 0
    ensures Pow(base, n) >= base
  {
    if n > 1 { PowAtLeast(base, n - 1); assert base * Pow(base, n - 1) >= base * 1; }
    else { assert Pow(base, 1) == base * Pow(base, 0); }
  }

  // ---- strings of equal length ----

  ghost predicate LexLess(s: string, t: string)
    requires |s| == |t|
  {
    exists i :: 0 <= i < |s| && s[..i] == t[..i] && s[i] < t[i]
  }

  /** Among digit strings of one length, byte order is numeric order. */
  lemma {:induction false} LexOrderIsNumeric(s: string, t: string, base: nat)
    requires |s| == |t| && base > 0 && IsNumeral(s, base) && IsNumeral(t, base)
    ensures ValueOf(s, base) < ValueOf(t, base) <==> LexLess(s, t)
    ensures ValueOf(s, base) == ValueOf(t, base) <==> s == t
  {
    if s != "" {
      var n := |s| - 1;
      var s', t' := s[..n], t[..n];
      hide LexLess, DigitValue, ValueOf;
      LexOrderIsNumeric(s', t', base);
      DigitOrder(s[n], t[n], base);
      LastDecides(s, t, base);
      LexLessLast(s, t);
      SameIfSameParts(s, t);
    }
  }

  lemma SameIfSameParts(s: string, t: string)
    requires |s| == |t| > 0
    ensures var n := |s| - 1; s == t <==> s[..n] == t[..n] && s[n] == t[n]
  {
  }

  lemma {:induction false} LastDecides(s: string, t: string, base: nat)
    requires |s| == |t| > 0 && IsNumeral(s, base) && IsNumeral(t, base)
    ensures var n := |s| - 1;
      var a, d, b, e := ValueOf(s[..n], base), DigitValue(s[n]), ValueOf(t[..n], base), DigitValue(t[n]);
      && (ValueOf(s, base) < ValueOf(t, base) <==> a < b || (a == b && d < e))
      && (ValueOf(s, base) == ValueOf(t, base) <==> a == b && d == e)
  {
    var n := |s| - 1;
    LastDigit(ValueOf(s[..n], base), DigitValue(s[n]), ValueOf(t[..n], base), DigitValue(t[n]), base);
  }

  lemma LastDigit(a: nat, d: nat, b: nat, e: nat, base: nat)
    requires d < base && e < base
    ensures a * base + d < b * base + e <==> a < b || (a == b && d < e)
    ensures a * base + d == b * base + e <==> a == b && d == e
  {
    if a < b { assert (a + 1) * base <= b * base; }
    if b < a { assert (b + 1) * base <= a * base; }
  }

  lemma LexLessLast(s: string, t: string)
    requires |s| == |t| > 0
    ensures var n := |s| - 1;
      LexLess(s, t) <==> LexLess(s[..n], t[..n]) || (s[..n] == t[..n] && s[n] < t[n])
  {
    var n := |s| - 1;
    if LexLess(s, t) {
      var i :| 0 <= i < |s| && s[..i] == t[..i] && s[i] < t[i];
      if i < n { assert s[..n][..i] == s[..i] && t[..n][..i] == t[..i]; }
    }
    if LexLess(s[..n], t[..n]) {
      var i :| 0 <= i < n && s[..n][..i] == t[..n][..i] && s[..n][i] < t[..n][i];
      assert s[..n][..i] == s[..i] && t[..n][..i] == t[..i];
    }
  }

  // ---- zero padding ----

  function ZeroDigits(n: nat): (s: string)
    ensures |s| == n
  {
    seq(n, _ => '0')
  }

  /** `v` in exactly `width` digits. */
  function Padded(v: nat, base: nat, width: nat): (s: string)
    requires IsBase(base) && |Numeral(v, base)| <= width
    ensures |s| == width
  {
    ZeroDigits(width - |Numeral(v, base)|) + Numeral(v, base)
  }

  lemma {:induction false} PaddingKeepsValue(n: nat, s: string, base: nat)
    ensures ValueOf(ZeroDigits(n) + s, base) == ValueOf(s, base)
    decreases |s|, n
  {
    var z := ZeroDigits(n) + s;
    if s != "" {
      PaddingKeepsValue(n, s[..|s| - 1], base);
      assert z[..|z| - 1] == ZeroDigits(n) + s[..|s| - 1];
    } else if n > 0 {
      PaddingKeepsValue(n - 1, "", base);
      assert z[..|z| - 1] == ZeroDigits(n - 1) + "";
      assert z[|z| - 1] == '0';
    }
  }

  lemma {:induction false} PaddedReads(v: nat, base: nat, width: nat)
    requires IsBase(base) && |Numeral(v, base)| <= width
    ensures IsNumeral(Padded(v, base, width), base) && ValueOf(Padded(v, base, width), base) == v
  {
    NumeralReads(v, base);
    PaddingKeepsValue(width - |Numeral(v, base)|, Numeral(v, base), base);
  }

  // ---- the two modes of FMT_FN ----

  /** Without a buffer only the length is computed. */
  method Measure(val: nat, base: nat) returns (l: nat)
    requires IsBase(base)
    ensures l == |Numeral(val, base)|
  {
    hide Digit;
    l := 1;
    var v := Front(val, base);
    while v != 0
      invariant |Numeral(val, base)| == if v == 0 then l else l + |Numeral(v, base)|
      decreases v
    {
      l := l + 1;
      v := Front(v, base);
    }
  }

  /** With a buffer the digits are produced from the end of a local array of `size` bytes and
      then copied to `ptr`. */
  method Write(ptr: array<char>, at: nat, val: nat, base: nat, size: nat) returns (l: nat)
    requires IsBase(base) && size > 0 && val < Pow(base, size)
    requires at + |Numeral(val, base)| <= ptr.Length
    modifies ptr
    ensures l == |Numeral(val, base)|
    ensures ptr[..] == old(ptr[..at]) + Numeral(val, base) + old(ptr[at + |Numeral(val, base)|..])
  {
    var buf;
    buf, l := Produce(val, base, size);
    forall i | 0 <= i < l { ptr[at + i] := buf[size - l + i]; }
  }

  lemma {:induction false} NumeralSplits(v: nat, base: nat, tail: string)
    requires IsBase(base)
    ensures var q, rest := Front(v, base), [Digit(Last(v, base))] + tail;
      Numeral(v, base) + tail == if q == 0 then rest else Numeral(q, base) + rest
  {
    FrontAndLast(v, base);
  }

  method PutBefore(buf: array<char>, at: nat, c: char)
    requires at < buf.Length
    modifies buf
    ensures buf[at..] == [c] + old(buf[at + 1..])
  {
    buf[at] := c;
  }

  method Produce(val: nat, base: nat, size: nat) returns (buf: array<char>, l: nat)
    requires IsBase(base) && size > 0 && val < Pow(base, size)
    ensures fresh(buf) && buf.Length == size && 0 < l <= size && buf[size - l..] == Numeral(val, base)
  {
    hide Digit, Front, Last, Pow, Numeral;
    NumeralLength(val, base, size);
    FrontAndLast(val, base);
    NumeralSplits(val, base, []);
    assert Numeral(val, base) + [] == Numeral(val, base);
    buf := new char[size];
    buf[size - 1] := Digit(Last(val, base));
    var v := Front(val, base);
    l := 1;
    assert buf[size - 1..] == [Digit(Last(val, base))];
    while v != 0
      invariant 1 <= l <= size && v >= 0
      invariant Numeral(val, base) == if v == 0 then buf[size - l..] else Numeral(v, base) + buf[size - l..]
      decreases v
    {
      ghost var tail := buf[size - l..];
      FrontAndLast(v, base);
      NumeralSplits(v, base, tail);
      var d := Last(v, base);
      v := Front(v, base);
      l := l + 1;
      PutBefore(buf, size - l, Digit(d));
    }
  }
}
