/** secure-mount's parser for one line of an fstab file. */
module FstabLine {
  import opened Optional
  import opened MountOptions

  predicate IsSpace(c: char) {
    c == ' ' || ('\t' <= c <= '\r')
  }

  /** The end of the run of white space, or of other characters, that starts at `i`. */
  function RunEnd(s: string, i: nat, space: bool): (j: nat)
    requires i <= |s|
    ensures i <= j <= |s|
    decreases |s| - i
  {
    if i == |s| || IsSpace(s[i]) != space then i else RunEnd(s, i + 1, space)
  }

  datatype ParsedLine = Blank | Broken | Line(src: string, dst: string, type_: string, data: string)

  /** MOVE_TO_NEXT_FIELD: the field at `i` and where the next one starts; the line must not end
      with it. */
  function NextField(s: string, i: nat): (r: Option<(string, nat)>)
    requires i <= |s|
    ensures r.Some? ==> r.value.1 <= |s|
  {
    var j := RunEnd(s, i, false);
    if j == |s| then None else Some((s[i..j], RunEnd(s, j + 1, true)))
  }

  /** The four fields; the last one may be empty. */
  function ParseLine(s: string): ParsedLine {
    var a := RunEnd(s, 0, true);
    if a == |s| || s[a] == '#' then Blank else
    var src := NextField(s, a);
    if src == None then Broken else
    var dst := NextField(s, src.value.1);
    if dst == None then Broken else
    var type_ := NextField(s, dst.value.1);
    if type_ == None then Broken else
    var g := type_.value.1;
    Line(src.value.0, dst.value.0, type_.value.0, s[g..RunEnd(s, g, false)])
  }

  /** Where the data field ends. */
  function DataEnd(s: string): (e: nat)
    requires ParseLine(s).Line?
    ensures e <= |s|
  {
    var src := NextField(s, RunEnd(s, 0, true));
    var dst := NextField(s, src.value.1);
    RunEnd(s, NextField(s, dst.value.1).value.1, false)
  }

  predicate AllSpace(s: string) {
    forall k :: 0 <= k < |s| ==> IsSpace(s[k])
  }

  predicate IsField(s: string) {
    s != "" && forall k :: 0 <= k < |s| ==> !IsSpace(s[k])
  }

  lemma {:induction false} RunEndIs(s: string, i: nat, j: nat, space: bool)
    requires i <= j <= |s| && (forall k :: i <= k < j ==> IsSpace(s[k]) == space)
    requires j < |s| ==> IsSpace(s[j]) != space
    ensures RunEnd(s, i, space) == j
    decreases j - i
  {
    if i < j { RunEndIs(s, i + 1, j, space); }
  }

  /** A word of one kind is found as a run. */
  lemma {:induction false} RunFound(s: string, i: nat, word: string, after: string, space: bool)
    requires i <= |s| && s[i..] == word + after
    requires forall k :: 0 <= k < |word| ==> IsSpace(word[k]) == space
    requires after != "" ==> IsSpace(after[0]) != space
    ensures RunEnd(s, i, space) == i + |word| && s[i..i + |word|] == word && s[i + |word|..] == after
  {
    var j := i + |word|;
    assert forall k :: i <= k < j ==> s[k] == s[i..][k - i];
    assert j < |s| ==> s[j] == s[i..][|word|];
    assert s[j..] == s[i..][|word|..];
    assert s[i..j] == s[i..][..|word|];
    RunEndIs(s, i, j, space);
  }

  /** The first character behind a field becomes its terminator; the rest of the gap is passed. */
  lemma GapFound(s: string, i: nat, gap: string, after: string)
    requires i <= |s| && s[i..] == gap + after && gap != "" && AllSpace(gap)
    requires after != "" ==> !IsSpace(after[0])
    ensures i < |s| && RunEnd(s, i + 1, true) == i + |gap| && s[i + |gap|..] == after
  {
    assert s[i + 1..] == s[i..][1..];
    assert s[i + 1..] == gap[1..] + after;
    RunFound(s, i + 1, gap[1..], after, true);
  }

  lemma FieldFound(s: string, i: nat, field: string, gap: string, after: string)
    requires i <= |s| && s[i..] == field + (gap + after) && IsField(field) && gap != "" && AllSpace(gap)
    requires after != "" ==> !IsSpace(after[0])
    ensures var next := i + |field| + |gap|;
      next <= |s| && NextField(s, i) == Some((field, next)) && s[next..] == after
  {
    RunFound(s, i, field, gap + after, false);
    GapFound(s, i + |field|, gap, after);
    hide RunEnd, IsSpace;
  }

  lemma {:induction false} DataFound(s: string, d: nat, data: string, rest: string)
    requires d <= |s| && s[d..] == data + rest && (data == "" || IsField(data))
    requires rest != "" ==> data != "" && IsSpace(rest[0])
    ensures RunEnd(s, d, false) == d + |data| && s[d..d + |data|] == data
  {
    hide RunEnd;
    RunFound(s, d, data, rest, false);
  }

  lemma FieldStarts(field: string, more: string)
    requires IsField(field)
    ensures var t := field + more; t != "" && t[0] == field[0] && !IsSpace(t[0])
  {
  }

  lemma {:induction false} StartFound(s: string, w0: string, after: string)
    requires s == w0 + after && AllSpace(w0) && after != "" && !IsSpace(after[0])
    ensures var a := |w0|; RunEnd(s, 0, true) == a < |s| && s[a..] == after && s[a] == after[0]
  {
    assert s[0..] == w0 + after;
    RunFound(s, 0, w0, after, true);
  }

  /** Lines that are written field by field, with any white space in between, read back. */
  lemma {:induction false} LineReads(w0: string, src: string, w1: string, dst: string, w2: string, type_: string,
                                     w3: string, data: string, rest: string)
    requires AllSpace(w0) && AllSpace(w1) && AllSpace(w2) && AllSpace(w3) && w1 != "" && w2 != "" && w3 != ""
    requires IsField(src) && src[0] != '#' && IsField(dst) && IsField(type_) && (data == "" || IsField(data))
    requires rest != "" ==> data != "" && IsSpace(rest[0])
    ensures var s := w0 + (src + (w1 + (dst + (w2 + (type_ + (w3 + (data + rest)))))));
      ParseLine(s) == Line(src, dst, type_, data) && DataEnd(s) == |s| - |rest|
  {
    var t3 := data + rest;
    var t2 := type_ + (w3 + t3);
    var t1 := dst + (w2 + t2);
    var s := w0 + (src + (w1 + t1));
    var t0 := src + (w1 + t1);
    var a := |w0|;
    var b := a + |src| + |w1|;
    var c := b + |dst| + |w2|;
    var d := c + |type_| + |w3|;
    hide *;
    FieldStarts(src, w1 + t1);
    FieldStarts(dst, w2 + t2);
    FieldStarts(type_, w3 + t3);
    if data != "" { FieldStarts(data, rest); } else { assert t3 == ""; }
    StartFound(s, w0, t0);
    FieldFound(s, a, src, w1, t1);
    FieldFound(s, b, dst, w2, t2);
    FieldFound(s, c, type_, w3, t3);
    DataFound(s, d, data, rest);
    ParseSteps(s, a, src, b, dst, c, type_, d, data);
  }

  lemma {:induction false} ParseSteps(s: string, a: nat, src: string, b: nat, dst: string, c: nat, type_: string,
                   d: nat, data: string)
    requires RunEnd(s, 0, true) == a < |s| && s[a] != '#' && b <= |s| && c <= |s| && d <= |s|
    requires NextField(s, a) == Some((src, b)) && NextField(s, b) == Some((dst, c))
    requires NextField(s, c) == Some((type_, d)) && RunEnd(s, d, false) == d + |data| <= |s| && s[d..d + |data|] == data
    ensures ParseLine(s) == Line(src, dst, type_, data) && DataEnd(s) == d + |data|
  {
  }

  /** isspace(3): space, tab, newline, vertical tab, form feed and carriage return. */
  lemma WhiteSpace(c: char)
    ensures IsSpace(c) <==> c as int in {32, 9, 10, 11, 12, 13}
  {
  }

  /** A run ends where the kind of the characters changes. */
  lemma {:induction false} RunIs(s: string, i: nat, space: bool)
    requires i <= |s|
    ensures var j := RunEnd(s, i, space);
      (forall k :: i <= k < j ==> IsSpace(s[k]) == space) && (j < |s| ==> IsSpace(s[j]) != space)
    decreases |s| - i
  {
    hide IsSpace;
    if i < |s| && IsSpace(s[i]) == space { RunIs(s, i + 1, space); }
  }

  /** A line is blank if and only if it is white space, or a '#' follows its white space. */
  lemma BlankIff(s: string)
    ensures ParseLine(s) == Blank <==>
      AllSpace(s) || exists a :: 0 <= a < |s| && AllSpace(s[..a]) && s[a] == '#'
  {
    var a := RunEnd(s, 0, true);
    RunIs(s, 0, true);
    if s != [] && !AllSpace(s) && a < |s| && s[a] == '#' { assert AllSpace(s[..a]); }
    if k :| 0 <= k < |s| && AllSpace(s[..k]) && s[k] == '#' {
      assert forall j :: 0 <= j < k ==> IsSpace(s[..k][j]);
      RunEndIs(s, 0, k, true);
    }
  }

  /** The white space around the fields of a line, and what follows the last. */
  datatype Gaps = Gaps(w0: string, w1: string, w2: string, w3: string, rest: string)

  /** The string is made of the fields with white space in front of each, and behind the last, which
      may be empty if nothing follows it. */
  ghost predicate MadeOf(s: string, l: ParsedLine, g: Gaps)
    requires l.Line?
  {
    && s == g.w0 + (l.src + (g.w1 + (l.dst + (g.w2 + (l.type_ + (g.w3 + (l.data + g.rest)))))))
    && AllSpace(g.w0) && AllSpace(g.w1) && AllSpace(g.w2) && AllSpace(g.w3)
    && g.w1 != "" && g.w2 != "" && g.w3 != ""
    && IsField(l.src) && l.src[0] != '#' && IsField(l.dst) && IsField(l.type_) && (l.data == "" || IsField(l.data))
    && (g.rest != "" ==> l.data != "" && IsSpace(g.rest[0]))
  }

  lemma FieldIs(s: string, i: nat) returns (gap: string)
    requires i < |s| && !IsSpace(s[i]) && NextField(s, i).Some?
    ensures var field, next := NextField(s, i).value.0, NextField(s, i).value.1;
      && IsField(field) && field[0] == s[i] && gap != "" && AllSpace(gap)
      && i < next && s[i..] == field + (gap + s[next..]) && (next < |s| ==> !IsSpace(s[next]))
  {
    var j := RunEnd(s, i, false);
    RunIs(s, i, false);
    RunIs(s, j + 1, true);
    var next := RunEnd(s, j + 1, true);
    gap := s[j..next];
    assert j > i;
    hide RunEnd;
    assert AllSpace(gap) by { assert forall k :: 0 <= k < |gap| ==> gap[k] == s[j + k]; }
    hide IsSpace;
    CutTwice(s, i, j, next);
  }

  lemma CutTwice(s: string, i: nat, j: nat, k: nat)
    requires i <= j <= k <= |s|
    ensures s[i..] == s[i..j] + (s[j..k] + s[k..])
  {
  }

  lemma EndHasNoField(s: string, i: nat)
    requires i == |s|
    ensures NextField(s, i) == None
  {
  }

  /** A line is read as four fields exactly if it is made of them. */
  lemma LineIff(s: string, l: ParsedLine)
    requires l.Line?
    ensures ParseLine(s) == l <==> exists g :: MadeOf(s, l, g)
  {
    if g :| MadeOf(s, l, g) {
      hide RunEnd, NextField, ParseLine;
      LineReads(g.w0, l.src, g.w1, l.dst, g.w2, l.type_, g.w3, l.data, g.rest);
    }
    if ParseLine(s) == l { var g := LineSplits(s, l); }
  }

  lemma LineSplits(s: string, l: ParsedLine) returns (g: Gaps)
    requires ParseLine(s) == l && l.Line?
    ensures MadeOf(s, l, g)
  {
    var a := RunEnd(s, 0, true);
    var w0 := StartIs(s);
    hide RunEnd, NextField, IsSpace, AllSpace;
    var w1 := FieldIs(s, a);
    var b := NextField(s, a).value.1;
    if b == |s| { EndHasNoField(s, b); }
    var w2 := FieldIs(s, b);
    var c := NextField(s, b).value.1;
    if c == |s| { EndHasNoField(s, c); }
    var w3 := FieldIs(s, c);
    var d := NextField(s, c).value.1;
    var rest := DataIs(s, d);
    g := Gaps(w0, w1, w2, w3, rest);
    hide IsField;
    ParsedAs(s, l, a, b, c, d);
    hide ParseLine;
    PutTogether(s, l, g, s[a..], s[b..], s[c..], s[d..]);
  }

  lemma StartIs(s: string) returns (w0: string)
    ensures var a := RunEnd(s, 0, true); AllSpace(w0) && s == w0 + s[a..] && (a < |s| ==> !IsSpace(s[a]))
  {
    RunIs(s, 0, true);
    w0 := s[..RunEnd(s, 0, true)];
    hide RunEnd, IsSpace;
  }

  lemma PutTogether(s: string, l: ParsedLine, g: Gaps, ta: string, tb: string, tc: string, td: string)
    requires l.Line? && s == g.w0 + ta && ta == l.src + (g.w1 + tb) && tb == l.dst + (g.w2 + tc)
    requires tc == l.type_ + (g.w3 + td) && td == l.data + g.rest
    ensures s == g.w0 + (l.src + (g.w1 + (l.dst + (g.w2 + (l.type_ + (g.w3 + (l.data + g.rest)))))))
  {
  }

  lemma {:induction false} ParsedAs(s: string, l: ParsedLine, a: nat, b: nat, c: nat, d: nat)
    requires ParseLine(s) == l && l.Line? && a == RunEnd(s, 0, true)
    requires NextField(s, a).Some? && b == NextField(s, a).value.1
    requires NextField(s, b).Some? && c == NextField(s, b).value.1
    requires NextField(s, c).Some? && d == NextField(s, c).value.1
    ensures l.src == NextField(s, a).value.0 && l.dst == NextField(s, b).value.0
    ensures l.type_ == NextField(s, c).value.0 && l.data == s[d..RunEnd(s, d, false)]
  {
    hide RunEnd, NextField;
  }

  /** The data field is empty only at the end of the line, and white space follows it otherwise. */
  lemma DataIs(s: string, d: nat) returns (rest: string)
    requires d <= |s| && (d < |s| ==> !IsSpace(s[d]))
    ensures var data := s[d..RunEnd(s, d, false)];
      s[d..] == data + rest && (data == "" || IsField(data)) && (rest != "" ==> data != "" && IsSpace(rest[0]))
  {
    var e := RunEnd(s, d, false);
    RunIs(s, d, false);
    rest := s[e..];
    assert d < |s| ==> e > d;
    hide RunEnd;
    assert s[d..] == s[d..e] + s[e..];
  }

  // ---- behind the data field ----

  /** The memory from the start of a line: the line, its terminator, and what lies behind that. */
  function Memory(line: string, behind: string): string {
    line + "\0" + behind
  }

  /** The fourth MOVE_TO_NEXT_FIELD, behind the data field, stops before the memory ends. */
  predicate StaysInside(line: string, behind: string) {
    ParseLine(line).Line? ==> RunEnd(Memory(line, behind), DataEnd(line) + 1, true) < |Memory(line, behind)|
  }

  lemma {:induction false} RunStops(s: string, i: nat)
    requires i <= |s|
    ensures RunEnd(s, i, true) < |s| <==> exists k :: i <= k < |s| && !IsSpace(s[k])
    decreases |s| - i
  {
    hide IsSpace;
    if i < |s| && IsSpace(s[i]) { RunStops(s, i + 1); }
  }

  lemma NotSpace()
    ensures !IsSpace('\0')
  {
  }

  /** It does so exactly if a character of the line follows the data field, or something other than
      white space lies behind the line; otherwise it steps over the terminator and reads on. */
  lemma InsideIff(line: string, behind: string)
    requires ParseLine(line).Line?
    ensures StaysInside(line, behind) <==> DataEnd(line) < |line| || !AllSpace(behind)
  {
    var s, i := Memory(line, behind), DataEnd(line) + 1;
    RunStops(s, i);
    NotSpace();
    hide ParseLine, DataEnd, RunEnd, IsSpace;
    assert s[|line|] == '\0' && forall k :: 0 <= k < |behind| ==> s[|line| + 1 + k] == behind[k];
  }

  /** mountFstab's buffer without its terminator: the file, and a '#'. */
  function Text(file: string): string {
    file + "#"
  }

  /** strsep(3): a line ends at the next newline, or with the text. */
  function LineEnd(text: string, start: nat): (end: nat)
    requires start <= |text|
    ensures start <= end <= |text| && (end < |text| ==> text[end] == '\n')
    decreases |text| - start
  {
    if start == |text| || text[start] == '\n' then start else LineEnd(text, start + 1)
  }

  predicate StartsLine(text: string, start: nat) {
    start <= |text| && (start == 0 || text[start - 1] == '\n')
  }

  /** What lies behind a line: the following lines, not yet split, and the buffer's terminator. */
  predicate LineStaysInside(text: string, start: nat)
    requires start <= |text|
  {
    var end := LineEnd(text, start);
    StaysInside(text[start..end], if end == |text| then "" else text[end + 1..] + "\0")
  }

  /** The last line of the text starts behind the last newline. */
  function LastLine(text: string): (start: nat)
    ensures StartsLine(text, start) && forall k :: start <= k < |text| ==> text[k] != '\n'
  {
    if text == "" || text[|text| - 1] == '\n' then |text| else LastLine(text[..|text| - 1])
  }

  lemma {:induction false} LineEndIs(text: string, start: nat)
    requires start <= |text|
    ensures LineEnd(text, start) == |text| <==> forall k :: start <= k < |text| ==> text[k] != '\n'
    decreases |text| - start
  {
    if start < |text| && text[start] != '\n' { LineEndIs(text, start + 1); }
  }

  lemma {:induction false} EarlierLineStaysInside(text: string, start: nat)
    requires StartsLine(text, start) && start != LastLine(text)
    ensures LineStaysInside(text, start)
  {
    LineEndIs(text, start);
    hide ParseLine, DataEnd, StaysInside, LineEnd, IsSpace;
    var end, n := LineEnd(text, start), LastLine(text);
    assert start < n && text[n - 1] == '\n';
    var behind := text[end + 1..] + "\0";
    assert !AllSpace(behind) by { assert !IsSpace(behind[|behind| - 1]) by { NotSpace(); } }
    if ParseLine(text[start..end]).Line? { InsideIff(text[start..end], behind); }
  }

  /** While a file is read line by line the parser stays in the buffer for all lines but the last, and
      leaves it there exactly if the data field of that line runs up to the '#' at the buffer's end. */
  lemma FileStaysInsideIff(file: string)
    ensures var text := Text(file); var last := text[LastLine(text)..];
      (forall start: nat :: StartsLine(text, start) ==> LineStaysInside(text, start)) <==>
      !(ParseLine(last).Line? && DataEnd(last) == |last|)
  {
    var text := Text(file);
    var n := LastLine(text);
    LineEndIs(text, n);
    assert text[n..|text|] == text[n..];
    forall start: nat | StartsLine(text, start) && start != n ensures LineStaysInside(text, start) {
      EarlierLineStaysInside(text, start);
    }
    assert LineStaysInside(text, n) == StaysInside(text[n..], "");
    hide ParseLine, DataEnd, StaysInside, LineStaysInside, LastLine;
    if ParseLine(text[n..]).Line? { InsideIff(text[n..], ""); } else { NoLineStaysInside(text[n..]); }
  }

  /** So a newline at the end of the file is enough. */
  lemma NewlineIsEnough(file: string, start: nat)
    requires file != "" && file[|file| - 1] == '\n' && StartsLine(Text(file), start)
    ensures LineStaysInside(Text(file), start)
  {
    var text := Text(file);
    assert text[|text| - 2] == '\n' && text[|text| - 1] == '#';
    assert LastLine(text) == |text| - 1 && text[LastLine(text)..] == "#";
    assert ParseLine("#") == Blank by { assert RunEnd("#", 0, true) == 0; }
    hide ParseLine, LineStaysInside, LastLine;
    FileStaysInsideIff(file);
  }

  /** A file that does not end with a newline, whose only line the parser leaves. */
  lemma LastFieldRunsOut()
    ensures !LineStaysInside(Text("a b c d"), 0)
  {
    assert Text("a b c d") == "a b c d#";
    SampleLine("a b c d#");
    hide *;
    OnlyLineRunsOut("a b c d#");
  }

  lemma OnlyLineRunsOut(line: string)
    requires ParseLine(line).Line? && DataEnd(line) == |line| && '\n' !in line
    ensures !LineStaysInside(line, 0)
  {
    LineEndIs(line, 0);
    assert line[0..|line|] == line;
    hide ParseLine, DataEnd, LineEnd, StaysInside;
    InsideIff(line, "");
  }

  lemma SampleLine(line: string)
    requires line == "a b c d#"
    ensures ParseLine(line).Line? && DataEnd(line) == |line| && '\n' !in line
  {
    hide ParseLine, DataEnd;
    assert AllSpace("") && AllSpace(" ") && IsField("a") && IsField("b") && IsField("c") && IsField("d#");
    assert line == "" + ("a" + (" " + ("b" + (" " + ("c" + (" " + ("d#" + "")))))));
    hide *;
    LineReads("", "a", " ", "b", " ", "c", " ", "d#", "");
  }

  lemma NoLineStaysInside(line: string)
    requires !ParseLine(line).Line?
    ensures StaysInside(line, "")
  {
  }

  // ---- the program ----

  datatype ParseResult = DoIt | Fail | Ignore

  /** The words that the options start from: devices are forbidden, but on devpts. */
  function StartWords(type_: string): Options {
    if type_ == "devpts" then Options(Replace(MS_NODEV, MS_NODEV, 0), MS_NODEV, 0, []) else Options(MS_NODEV, 0, 0, [])
  }

  /** Devices are forbidden, as bit 4 of the flags says, but on devpts, where the mask has that bit. */
  lemma StartsWith(type_: string)
    ensures StartWords(type_) == if type_ == "devpts" then Options(0, 4, 0, []) else Options(4, 0, 0, [])
  {
  }

  /** One of the options is "noauto". */
  ghost predicate HasNoauto(items: seq<string>) {
    exists k :: 0 <= k < |items| && OptionFor(items[k]).Some? && OptionFor(items[k]).value.opt == "noauto"
  }

  lemma {:induction false} NoautoIsMarked(type_: string, items: seq<string>)
    ensures Has(ApplyAll(StartWords(type_), items).xflag, XFLAG_NOAUTO) <==> HasNoauto(items)
  {
    MasksAddUp(StartWords(type_), items, XFLAG_NOAUTO);
    forall k | 0 <= k < |items|
      ensures Marks(items[k], 1) <==> OptionFor(items[k]).Some? && OptionFor(items[k]).value.opt == "noauto"
    {
      NoautoMarks(items[k]);
    }
    assert !Has(StartWords(type_).xflag, XFLAG_NOAUTO);
    hide ApplyAll, OptionFor, Marks, Has;
  }

  /** `behind` is the memory behind the line; `inside` says that the parser has not left it. */
  method ParseFstabLine(info: MountInfo, line: string, behind: string, honorNoauto: bool)
    returns (r: ParseResult, inside: bool)
    modifies info
    ensures inside <==> StaysInside(line, behind)
    ensures ParseLine(line) == Blank ==> r == Ignore
    ensures ParseLine(line) == Broken ==> r == Fail
    ensures var l := ParseLine(line); l.Line? && l.type_ == "swap" ==> r == Ignore
    ensures var l := ParseLine(line); l.Line? && l.type_ != "swap" ==>
      && info.src == l.src && info.dst == l.dst && info.data == l.data
      && info.type_ == (if l.type_ == "none" then None else Some(l.type_))
      && (var words := ApplyAll(StartWords(l.type_), Items(l.data, 0));
          && info.Words(words.rest) == words && info.Buffered(words.rest)
          && r == if honorNoauto && Has(words.xflag, XFLAG_NOAUTO) then Ignore else DoIt)
      && (r == Ignore <==> honorNoauto && HasNoauto(Items(l.data, 0)))
  {
    hide ParseLine, ApplyAll, Items, Has, Replace, HasNoauto;
    hide StaysInside;
    var l;
    l, inside := SplitLine(info, line, behind);
    if l == Blank { return Ignore, inside; }
    if l == Broken { return Fail, inside; }
    NoautoIsMarked(l.type_, Items(l.data, 0));
    info.flag, info.mask, info.xflag := MS_NODEV, 0, 0;
    if l.type_ == "swap" { return Ignore, inside; }
    if l.type_ == "none" {
      info.type_ := None;
    } else if l.type_ == "devpts" {
      info.mask := MS_NODEV;
      info.flag := Replace(info.flag, MS_NODEV, 0);
    }
    info.TransformOptionList();
    r := if honorNoauto && Has(info.xflag, XFLAG_NOAUTO) then Ignore else DoIt;
  }

  /** The loops over white space and over what is not. */
  method Scan(line: string, from: nat, space: bool) returns (ptr: nat)
    requires from <= |line|
    ensures ptr == RunEnd(line, from, space)
  {
    ptr := from;
    while ptr < |line| && IsSpace(line[ptr]) == space
      invariant from <= ptr <= |line| && RunEnd(line, ptr, space) == RunEnd(line, from, space)
    {
      ptr := ptr + 1;
    }
  }

  /** MOVE_TO_NEXT_FIELD, which ends the field at `from` and goes to the next one. */
  method MoveToNextField(line: string, from: nat) returns (ok: bool, field: string, ptr: nat)
    requires from <= |line|
    ensures ok <==> NextField(line, from).Some?
    ensures ok ==> NextField(line, from) == Some((field, ptr))
    ensures ptr <= |line|
  {
    hide RunEnd;
    ptr := Scan(line, from, false);
    field := line[from..ptr];
    ok := ptr < |line|;
    if ok { ptr := Scan(line, ptr + 1, true); }
  }

  method SplitLine(info: MountInfo, line: string, behind: string) returns (l: ParsedLine, inside: bool)
    modifies info`src, info`dst, info`type_, info`data
    ensures l == ParseLine(line) && (inside <==> StaysInside(line, behind))
    ensures l.Line? ==> info.src == l.src && info.dst == l.dst && info.type_ == Some(l.type_) && info.data == l.data
  {
    hide RunEnd, NextField;
    var ok, field;
    var buf := Scan(line, 0, true);
    if buf == |line| || line[buf] == '#' { return Blank, true; }
    ok, field, buf := MoveToNextField(line, buf);
    if !ok { return Broken, true; }
    info.src := field;
    ok, field, buf := MoveToNextField(line, buf);
    if !ok { return Broken, true; }
    info.dst := field;
    ok, field, buf := MoveToNextField(line, buf);
    if !ok { return Broken, true; }
    info.type_ := Some(field);
    var end := Scan(line, buf, false);
    info.data := line[buf..end];
    l := Line(info.src, info.dst, field, info.data);
    // the fourth move accepts the end of the line, and steps over it
    buf := Scan(Memory(line, behind), end + 1, true);
    inside := buf < |Memory(line, behind)|;
  }

  /** After a line is parsed, devices are allowed exactly if the last option that has a say is
      "dev", or none has and the type is devpts. */
  lemma {:induction false} DevicesAllowedIff(type_: string, data: string)
    ensures !Has(ApplyAll(StartWords(type_), Items(data, 0)).flag, MS_NODEV) <==>
      var item := LastNodevItem(Items(data, 0)); if item.Some? then item.value == "dev" else type_ == "devpts"
  {
    NodevClearIff(StartWords(type_), Items(data, 0));
    hide ApplyAll, Items, LastNodevItem;
  }
}
