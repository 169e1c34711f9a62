/** fmt_tai64n: time stamps as TAI64N labels. */
module Tai64n {
  import opened Format

  const TWO60 := 0x1000_0000_0000_0000
  const TWO62 := 4 * TWO60
  const TWO64 := 16 * TWO60
  const TWO32 := 0x1_0000_0000
  const LABEL_SIZE := 25

  /** tai_secs, an uint64_t. */
  function TaiSecs(sec: int): (t: nat)
    ensures t < TWO64
  {
    (TWO62 + sec) % TWO64
  }

  /** tv_usec * 1000, cut to an uint32_t. */
  function Nanosecs(usec: int): (n: nat)
    ensures n < TWO32
  {
    usec * 1000 % TWO32
  }

  lemma Widths()
    ensures Pow(16, 8) == TWO32 && Pow(16, 15) == TWO60 && Pow(16, 16) == TWO64
  {
  }

  /** The seconds "always" have 16 digits: for a 64-bit time, exactly unless it lies in the gap
      of 2^60 seconds in which 2^62 + tv_sec is too small. */
  lemma AssertionHolds(sec: int)
    requires -8 * TWO60 <= sec < 8 * TWO60
    ensures |Numeral(TaiSecs(sec), 16)| == 16 <==> !(-TWO62 <= sec < TWO60 - TWO62)
  {
    Widths();
    NumeralLength(TaiSecs(sec), 16, 15);
    NumeralLength(TaiSecs(sec), 16, 16);
  }

  lemma NanosecsFit(usec: int)
    ensures |Numeral(Nanosecs(usec), 16)| <= 8
  {
    Widths();
    NumeralLength(Nanosecs(usec), 16, 8);
  }

  /** The label: '@', 16 digits of seconds, 8 digits of nanoseconds. */
  function Label(sec: int, usec: int): (s: string)
    requires |Numeral(TaiSecs(sec), 16)| == 16
    ensures |s| == LABEL_SIZE
  {
    NanosecsFit(usec);
    "@" + Numeral(TaiSecs(sec), 16) + Padded(Nanosecs(usec), 16, 8)
  }

  function ParseSecs(text: string): nat
    requires |text| == LABEL_SIZE
  {
    ValueOf(text[1..17], 16)
  }

  function ParseNanosecs(text: string): nat
    requires |text| == LABEL_SIZE
  {
    ValueOf(text[17..], 16)
  }

  method FormatTai64n(buf: array<char>, sec: int, usec: int) returns (n: nat)
    requires buf.Length >= LABEL_SIZE
    requires |Numeral(TaiSecs(sec), 16)| == 16  // the source asserts this
    modifies buf
    ensures n == LABEL_SIZE
    ensures buf[..LABEL_SIZE] == Label(sec, usec)
    ensures buf[LABEL_SIZE..] == old(buf[LABEL_SIZE..])
  {
    hide Numeral, Pow, TaiSecs, Nanosecs;
    Widths();
    NanosecsFit(usec);
    buf[0] := '@';
    var l := Write(buf, 1, TaiSecs(sec), 16, 16);
    var ptr := 1 + 16;
    forall i | ptr <= i < ptr + 8 { buf[i] := '0'; }
    assert buf[..ptr] == "@" + Numeral(TaiSecs(sec), 16);
    ghost var mid := buf[..];
    l := Measure(Nanosecs(usec), 16);
    var _ := Write(buf, ptr + 8 - l, Nanosecs(usec), 16, 8);
    assert buf[..ptr + 8] == mid[..ptr + 8 - l] + Numeral(Nanosecs(usec), 16);
    assert mid[..ptr + 8 - l] == mid[..ptr] + ZeroDigits(8 - l);
    n := ptr + 8;
  }

  lemma NoWrap(sec: int, usec: int)
    requires -3 * TWO60 <= sec < 8 * TWO60 && 0 <= usec < 1000000
    ensures TaiSecs(sec) == TWO62 + sec && Nanosecs(usec) == usec * 1000
    ensures |Numeral(TaiSecs(sec), 16)| == 16
  {
    AssertionHolds(sec);
  }

  /** Labels read back, for every time of day. */
  lemma LabelReads(sec: int, usec: int)
    requires -3 * TWO60 <= sec < 8 * TWO60 && 0 <= usec < 1000000
    ensures |Numeral(TaiSecs(sec), 16)| == 16
    ensures Label(sec, usec)[0] == '@' && |Label(sec, usec)| == 25 && IsNumeral(Label(sec, usec)[1..], 16)
    ensures ParseSecs(Label(sec, usec)) == 0x4000_0000_0000_0000 + sec && ParseNanosecs(Label(sec, usec)) == usec * 1000
  {
    hide Numeral, ValueOf, Pow, TaiSecs, Nanosecs;
    NoWrap(sec, usec);
    NanosecsFit(usec);
    NumeralReads(TaiSecs(sec), 16);
    PaddedReads(Nanosecs(usec), 16, 8);
    var s := Label(sec, usec);
    assert s[1..17] == Numeral(TaiSecs(sec), 16) && s[17..] == Padded(Nanosecs(usec), 16, 8);
  }

  /** The digits of a label as one number. */
  lemma LabelValue(sec: int, usec: int)
    requires -3 * TWO60 <= sec < 8 * TWO60 && 0 <= usec < 1000000
    ensures |Numeral(TaiSecs(sec), 16)| == 16
    ensures IsNumeral(Label(sec, usec)[1..], 16)
    ensures ValueOf(Label(sec, usec)[1..], 16) == (TWO62 + sec) * TWO32 + usec * 1000
  {
    hide Numeral, ValueOf, Pow, TaiSecs, Nanosecs;
    NoWrap(sec, usec);
    NanosecsFit(usec);
    NumeralReads(TaiSecs(sec), 16);
    PaddedReads(Nanosecs(usec), 16, 8);
    Widths();
    var a, b := Numeral(TaiSecs(sec), 16), Padded(Nanosecs(usec), 16, 8);
    assert Label(sec, usec)[1..] == a + b;
    ValueOfConcat(a, b, 16);
  }

  lemma {:induction false} ValueOfConcat(s: string, t: string, base: nat)
    ensures ValueOf(s + t, base) == ValueOf(s, base) * Pow(base, |t|) + ValueOf(t, base)
    decreases |t|
  {
    if t == "" {
      assert s + t == s;
    } else {
      var t' := t[..|t| - 1];
      ValueOfConcat(s, t', base);
      assert (s + t)[..|s + t| - 1] == s + t';
      Distribute(ValueOf(s, base), Pow(base, |t'|), ValueOf(t', base), base);
    }
  }

  lemma Distribute(a: nat, p: nat, b: nat, base: nat)
    ensures (a * p + b) * base == a * (base * p) + b * base
  {
  }

  /** Labels sort, byte by byte, as the times do. */
  lemma LabelsSort(sec1: int, usec1: int, sec2: int, usec2: int)
    requires -3 * TWO60 <= sec1 < 8 * TWO60 && 0 <= usec1 < 1000000
    requires -3 * TWO60 <= sec2 < 8 * TWO60 && 0 <= usec2 < 1000000
    ensures |Numeral(TaiSecs(sec1), 16)| == 16 && |Numeral(TaiSecs(sec2), 16)| == 16
    ensures LexLess(Label(sec1, usec1), Label(sec2, usec2)) <==> sec1 < sec2 || (sec1 == sec2 && usec1 < usec2)
    ensures Label(sec1, usec1) == Label(sec2, usec2) <==> sec1 == sec2 && usec1 == usec2
  {
    LabelValue(sec1, usec1);
    LabelValue(sec2, usec2);
    var s, t := Label(sec1, usec1), Label(sec2, usec2);
    LexOrderIsNumeric(s[1..], t[1..], 16);
    LexLessTail(s, t);
    assert s == [s[0]] + s[1..] && t == [t[0]] + t[1..];
  }

  lemma LexLessTail(s: string, t: string)
    requires |s| == |t| > 0 && s[0] == t[0]
    ensures LexLess(s, t) <==> LexLess(s[1..], t[1..])
  {
    if LexLess(s, t) {
      var i :| 0 <= i < |s| && s[..i] == t[..i] && s[i] < t[i];
      assert s[1..][..i - 1] == s[..i][1..] && t[1..][..i - 1] == t[..i][1..];
    }
    if LexLess(s[1..], t[1..]) {
      var i :| 0 <= i < |s| - 1 && s[1..][..i] == t[1..][..i] && s[1..][i] < t[1..][i];
      assert s[..i + 1] == [s[0]] + s[1..][..i] && t[..i + 1] == [t[0]] + t[1..][..i];
    }
  }
}
