/** secure-mount's fstab lines: mount options folded into flag words. */
module MountOptions {
  import opened Optional
  import opened SelfOrg

  const MS_RDONLY: bv32 := 1
  const MS_NOSUID: bv32 := 2
  const MS_NODEV: bv32 := 4
  const MS_NOEXEC: bv32 := 8
  const MS_SYNCHRONOUS: bv32 := 16
  const MS_REMOUNT: bv32 := 32
  const MS_MANDLOCK: bv32 := 64
  const MS_DIRSYNC: bv32 := 128
  const MS_NOATIME: bv32 := 1024
  const MS_NODIRATIME: bv32 := 2048
  const MS_BIND: bv32 := 4096
  const MS_MOVE: bv32 := 8192
  const MS_REC: bv32 := 16384
  const MS_UNBINDABLE: bv32 := 131072
  const MS_PRIVATE: bv32 := 262144
  const MS_SLAVE: bv32 := 524288
  const MS_SHARED: bv32 := 1048576

  const XFLAG_NOAUTO: bv32 := 1
  const XFLAG_NOMTAB: bv32 := 4

  predicate Has(word: bv32, b: bv32) {
    word & b != 0
  }

  /** The word with the bits of `mask` replaced by `flag`. */
  function Replace(word: bv32, mask: bv32, flag: bv32): bv32 {
    (word & !mask) | flag
  }

  function Union(a: bv32, b: bv32): bv32 {
    a | b
  }

  datatype FstabOption = FstabOption(opt: string, flag: bv32, mask: bv32, xflag: bv32)

  /** FSTAB_OPTIONS, in its order. */
  function Table(): seq<FstabOption> {[
    FstabOption("defaults", MS_NODEV, MS_RDONLY | MS_NOSUID | MS_NODEV | MS_NOEXEC | MS_SYNCHRONOUS, 0),
    FstabOption("rbind", MS_BIND | MS_REC, MS_BIND | MS_REC, 0),
    FstabOption("bind", MS_BIND, MS_BIND, 0),
    FstabOption("move", MS_MOVE, MS_MOVE, 0),
    FstabOption("async", 0, MS_SYNCHRONOUS, 0),
    FstabOption("sync", MS_SYNCHRONOUS, MS_SYNCHRONOUS, 0),
    FstabOption("atime", 0, MS_NOATIME, 0),
    FstabOption("noatime", MS_NOATIME, MS_NOATIME, 0),
    FstabOption("dev", 0, MS_NODEV, 0),
    FstabOption("nodev", MS_NODEV, MS_NODEV, 0),
    FstabOption("exec", 0, MS_NOEXEC, 0),
    FstabOption("noexec", MS_NOEXEC, MS_NOEXEC, 0),
    FstabOption("suid", 0, MS_NOSUID, 0),
    FstabOption("nosuid", MS_NOSUID, MS_NOSUID, 0),
    FstabOption("ro", MS_RDONLY, MS_RDONLY, 0),
    FstabOption("rw", 0, MS_RDONLY, 0),
    FstabOption("remount", MS_REMOUNT, MS_REMOUNT, 0),
    FstabOption("users", MS_NOEXEC | MS_NOSUID | MS_NODEV, MS_NOEXEC | MS_NOSUID | MS_NODEV, 0),
    FstabOption("mandlock", MS_MANDLOCK, MS_MANDLOCK, 0),
    FstabOption("nodiratime", MS_NODIRATIME, MS_NODIRATIME, 0),
    FstabOption("dirsync", MS_DIRSYNC, MS_DIRSYNC, 0),
    FstabOption("_netdev", 0, 0, 0),
    FstabOption("auto", 0, 0, 0),
    FstabOption("noauto", 0, 0, XFLAG_NOAUTO),
    FstabOption("user", 0, 0, 0),
    FstabOption("nouser", 0, 0, 0),
    FstabOption("rec", MS_REC, MS_REC, 0),
    FstabOption("unbindable", MS_UNBINDABLE, MS_UNBINDABLE, 0),
    FstabOption("private", MS_PRIVATE, MS_PRIVATE, 0),
    FstabOption("slave", MS_SLAVE, MS_SLAVE, 0),
    FstabOption("shared", MS_SHARED, MS_SHARED, 0),
    FstabOption("nomtab", 0, 0, XFLAG_NOMTAB)
  ]}

  /** strncmp(i->opt, item, |item|) == 0: the item is a prefix of the option's name. */
  function Named(item: string): FstabOption -> bool {
    (o: FstabOption) => item <= o.opt
  }

  /** The first option that an item is a prefix of. */
  function OptionFor(item: string): Option<FstabOption> {
    Lookup(Table(), Named(item))
  }

  /** The option is that of the first row whose name starts with the item, or there is no such row. */
  lemma OptionForIs(item: string, k: nat)
    requires k <= |Table()| && forall j :: 0 <= j < k ==> !(item <= Table()[j].opt)
    requires k < |Table()| ==> item <= Table()[k].opt
    ensures OptionFor(item) == if k < |Table()| then Some(Table()[k]) else None
  {
    hide Table;
    FirstMatchIs(Table(), Named(item), k);
  }

  method SearchOption(item: string) returns (r: Option<FstabOption>)
    ensures r == OptionFor(item)
  {
    hide Table;
    var i := 0;
    while i < |Table()|
      invariant 0 <= i <= |Table()|
      invariant forall j :: 0 <= j < i ==> !Named(item)(Table()[j])
    {
      if item <= Table()[i].opt {
        FirstMatchIs(Table(), Named(item), i);
        return Some(Table()[i]);
      }
      i := i + 1;
    }
    FirstMatchIs(Table(), Named(item), i);
    r := None;
  }

  /** Every option sets only what it masks. */
  predicate Within(flag: bv32, mask: bv32) {
    flag & !mask == 0
  }

  lemma FlagsWithinMasks(item: string)
    ensures OptionFor(item).Some? ==> Within(OptionFor(item).value.flag, OptionFor(item).value.mask)
  {
    hide Table;
    var k := FirstMatch(Table(), Named(item));
    if k < |Table()| { TableIsTidy(k); }
  }

  predicate Tidy(o: FstabOption, isDev: bool) {
    Within(o.flag, o.mask) && (Has(o.mask, MS_NODEV) && !Has(o.flag, MS_NODEV) <==> isDev)
  }

  lemma TableIsTidy(i: nat)
    requires i < |Table()|
    ensures Tidy(Table()[i], i == 8)
  {
    if i < 8 { Tidy0(i); } else if i < 16 { Tidy8(i); } else if i < 24 { Tidy16(i); } else { Tidy24(i); }
  }

  lemma Tidy0(i: nat)
    requires i < 8
    ensures Tidy(Table()[i], i == 8)
  {
  }

  lemma Tidy8(i: nat)
    requires 8 <= i < 16
    ensures Tidy(Table()[i], i == 8)
  {
    assert i == 8 || i == 9 || i == 10 || i == 11 || i == 12 || i == 13 || i == 14 || i == 15;
  }

  lemma Tidy16(i: nat)
    requires 16 <= i < 24
    ensures Tidy(Table()[i], i == 8)
  {
  }

  lemma Tidy24(i: nat)
    requires 24 <= i < |Table()|
    ensures Tidy(Table()[i], i == 8)
  {
  }

  // ---- which item means which option ----

  /** The rows up to "dev", as far as prefixes of "dev" matter. */
  lemma RowsUpToDev()
    ensures |Table()| == 32 && Table()[8] == FstabOption("dev", 0, MS_NODEV, 0)
    ensures |Table()[0].opt| > 2 && Table()[0].opt[0] == 'd' && Table()[0].opt[1] == 'e' && Table()[0].opt[2] == 'f'
    ensures forall i :: 1 <= i < 8 ==> |Table()[i].opt| > 0 && Table()[i].opt[0] != 'd'
  {
    forall i | 1 <= i < 8 ensures |Table()[i].opt| > 0 && Table()[i].opt[0] != 'd' {
      assert i == 1 || i == 2 || i == 3 || i == 4 || i == 5 || i == 6 || i == 7;
    }
  }

  lemma DevIsEighth()
    ensures FirstMatch(Table(), Named("dev")) == 8
  {
    RowsUpToDev();
    hide Table;
    var t := Table();
    assert "dev"[0] == 'd' && "dev"[2] == 'v';
    forall i | 0 <= i < 8 ensures !Named("dev")(t[i]) {
      if "dev" <= t[i].opt { assert t[i].opt[0] == 'd' && t[i].opt[2] == 'v'; }
    }
    FirstMatchIs(t, Named("dev"), 8);
  }

  /** Only the item "dev" means the option "dev": shorter prefixes of it mean "defaults". */
  lemma OnlyDevMeansDev(item: string)
    ensures FirstMatch(Table(), Named(item)) == 8 <==> item == "dev"
  {
    DevIsEighth();
    RowsUpToDev();
    hide Table;
    var k := FirstMatch(Table(), Named(item));
    if k == 8 {
      var first := Table()[0].opt;
      assert Named(item)(Table()[8]) && !Named(item)(Table()[0]);
      assert item <= "dev" && !(item <= first);
      assert |item| <= 2 ==> item <= first by {
        assert "dev"[0] == first[0] && "dev"[1] == first[1];
      }
      assert item == "dev"[..|item|];
    }
  }

  /** The row that an item leads to, by its first characters, or -1 if they do not tell. */
  function RowOf(s: string): int {
    if |s| < 2 then -1
    else match s[0]
      case '_' => 21
      case 'a' => (match s[1] case 's' => 4 case 't' => 6 case 'u' => 22 case _ => -1)
      case 'b' => 2
      case 'd' => (match s[1] case 'i' => 20 case 'e' => RowOfDe(s) case _ => -1)
      case 'e' => 10
      case 'm' => (match s[1] case 'o' => 3 case 'a' => 18 case _ => -1)
      case 'n' => RowOfNo(s)
      case 'p' => 28
      case 'r' => (match s[1] case 'b' => 1 case 'o' => 14 case 'w' => 15 case 'e' => RowOfRe(s) case _ => -1)
      case 's' => (match s[1] case 'y' => 5 case 'u' => 12 case 'l' => 29 case 'h' => 30 case _ => -1)
      case 'u' => (match s[1] case 's' => 17 case 'n' => 27 case _ => -1)
      case _ => -1
  }

  function RowOfDe(s: string): int {
    if |s| < 3 then -1 else match s[2] case 'f' => 0 case 'v' => 8 case _ => -1
  }

  function RowOfRe(s: string): int {
    if |s| < 3 then -1 else match s[2] case 'm' => 16 case 'c' => 26 case _ => -1
  }

  function RowOfNo(s: string): int {
    if |s| < 4 then -1
    else match s[2]
      case 'a' => (match s[3] case 't' => 7 case 'u' => 23 case _ => -1)
      case 'd' => (match s[3] case 'e' => 9 case 'i' => 19 case _ => -1)
      case 'e' => 11
      case 's' => 13
      case 'u' => 25
      case 'm' => 31
      case _ => -1
  }

  /** More characters do not lead elsewhere. */
  lemma RowOfPrefix(s: string, t: string)
    requires s <= t && RowOf(s) >= 0
    ensures RowOf(t) == RowOf(s)
  {
  }

  /** The row that a name leads to: its own, but "user" leads where "users" does. */
  function NamedRow(i: nat): nat {
    if i == 24 then 17 else i
  }

  lemma RowOfName(i: nat)
    requires i < |Table()|
    ensures RowOf(Table()[i].opt) == NamedRow(i)
  {
    if i < 8 { Names0(i); } else if i < 16 { Names8(i); } else if i < 24 { Names16(i); } else { Names24(i); }
  }

  lemma Names0(i: nat)
    requires i < 8
    ensures RowOf(Table()[i].opt) == NamedRow(i)
  {
    assert i == 0 || i == 1 || i == 2 || i == 3 || i == 4 || i == 5 || i == 6 || i == 7;
  }

  lemma Names8(i: nat)
    requires 8 <= i < 16
    ensures RowOf(Table()[i].opt) == NamedRow(i)
  {
    assert i == 8 || i == 9 || i == 10 || i == 11 || i == 12 || i == 13 || i == 14 || i == 15;
  }

  lemma Names16(i: nat)
    requires 16 <= i < 24
    ensures RowOf(Table()[i].opt) == NamedRow(i)
  {
    assert i == 16 || i == 17 || i == 18 || i == 19 || i == 20 || i == 21 || i == 22 || i == 23;
  }

  lemma Names24(i: nat)
    requires 24 <= i < |Table()|
    ensures RowOf(Table()[i].opt) == NamedRow(i)
  {
    assert i == 24 || i == 25 || i == 26 || i == 27 || i == 28 || i == 29 || i == 30 || i == 31;
  }

  /** Every name in the table means its own row, but for "user", which means "users". */
  lemma NamesMeanThemselves(i: nat)
    requires i < |Table()|
    ensures FirstMatch(Table(), Named(Table()[i].opt)) == NamedRow(i)
    ensures FirstMatch(Table(), Named(Table()[i].opt)) == i <==> i != 24
  {
    UserAndUsers();
    var name, r := Table()[i].opt, NamedRow(i);
    RowOfName(i);
    forall j | 0 <= j < r ensures !Named(name)(Table()[j]) {
      RowOfName(j);
      if name <= Table()[j].opt { RowOfPrefix(name, Table()[j].opt); }
    }
    hide Table, RowOf;
    FirstMatchIs(Table(), Named(name), r);
  }

  lemma UserAndUsers()
    ensures |Table()| == 32 && Table()[0].opt == "defaults" && Table()[17].opt == "users" && Table()[24].opt == "user"
    ensures "user" <= "users"
  {
  }

  /** Two surprises of the prefix rule: an empty item means "defaults", and "user" means "users",
      which forbids devices, programs and set-user-id. */
  lemma PrefixSurprises()
    ensures OptionFor("").Some? && OptionFor("").value.opt == "defaults"
    ensures OptionFor("user").Some? && OptionFor("user").value.opt == "users"
  {
    hide Table, FirstMatch, NamedRow;
    UserAndUsers();
    assert Named("")(Table()[0]);
    FirstMatchIs(Table(), Named(""), 0);
    UserMeansUsers();
  }

  lemma UserMeansUsers()
    ensures FirstMatch(Table(), Named("user")) == 17
  {
    hide Table, FirstMatch;
    UserAndUsers();
    NamesMeanThemselves(24);
  }

  // ---- option lists ----

  /** The position of the next comma, or the end. */
  function NextComma(s: string, i: nat): (j: nat)
    requires i <= |s|
    ensures i <= j <= |s| && (j < |s| ==> s[j] == ',') && forall k :: i <= k < j ==> s[k] != ','
    decreases |s| - i
  {
    if i == |s| || s[i] == ',' then i else NextComma(s, i + 1)
  }

  /** The items from position `i` on.  There is always one; an empty one behind a last comma is not
      looked at. */
  function Items(s: string, i: nat): (items: seq<string>)
    requires i <= |s|
    ensures items != []
    decreases |s| - i
  {
    var j := NextComma(s, i);
    [s[i..j]] + if j + 1 < |s| then Items(s, j + 1) else []
  }

  /** The flag words, and the items that are no known options. */
  datatype Options = Options(flag: bv32, mask: bv32, xflag: bv32, rest: seq<string>)

  function Apply(a: Options, item: string): Options {
    match OptionFor(item)
    case Some(o) =>
      a.(flag := Replace(a.flag, o.mask, o.flag), mask := Union(a.mask, o.mask), xflag := Union(a.xflag, o.xflag))
    case None => a.(rest := a.rest + [item])
  }

  function ApplyAll(a: Options, items: seq<string>): Options
    decreases |items|
  {
    if items == [] then a else ApplyAll(Apply(a, items[0]), items[1..])
  }

  function Join(items: seq<string>): string {
    if items == [] then "" else if |items| == 1 then items[0]
    else Join(items[..|items| - 1]) + "," + items[|items| - 1]
  }

  lemma {:induction false} JoinFirst(item: string, items: seq<string>)
    requires items != []
    ensures Join([item] + items) == item + "," + Join(items)
    decreases |items|
  {
    var n := |items| - 1;
    var all := [item] + items;
    assert all[..|all| - 1] == [item] + items[..n];
    if n == 0 {
      assert all[..1] == [item] && Join([item]) == item;
    } else {
      JoinFirst(item, items[..n]);
      assert item + "," + Join(items[..n]) + "," + items[n] == item + "," + (Join(items[..n]) + "," + items[n]);
    }
  }

  ghost predicate NoCommas(items: seq<string>) {
    forall k :: 0 <= k < |items| ==> ',' !in items[k]
  }

  /** The rest of the string from position `i` on is the items with commas in between, and one at its end. */
  ghost predicate JoinedAgain(s: string, i: nat, items: seq<string>)
    requires i <= |s|
  {
    s[i..] == Join(items) + if i < |s| && s[|s| - 1] == ',' then "," else ""
  }

  /** The items have no comma in them, and are what stands between the commas: joined again they are
      the string, but for a comma at its end. */
  lemma {:induction false} ItemsSplit(s: string, i: nat)
    requires i <= |s|
    ensures NoCommas(Items(s, i)) && JoinedAgain(s, i, Items(s, i))
    decreases |s| - i
  {
    var j := NextComma(s, i);
    FirstItem(s, i, j);
    hide *;
    if j + 1 < |s| {
      ItemsSplit(s, j + 1);
      JoinOneMore(s, i, j, Items(s, j + 1));
    } else {
      JoinLast(s, i, j);
    }
  }

  lemma {:induction false} FirstItem(s: string, i: nat, j: nat)
    requires i <= |s| && j == NextComma(s, i)
    ensures i <= j <= |s| && (j < |s| ==> s[j] == ',') && ',' !in s[i..j]
    ensures if j + 1 < |s| then Items(s, i) == [s[i..j]] + Items(s, j + 1) else Items(s, i) == [s[i..j]]
  {
    ItemsFrom(s, i, j);
    hide Items;
  }

  lemma JoinOneMore(s: string, i: nat, j: nat, items: seq<string>)
    requires i <= j && j + 1 < |s| && s[j] == ',' && ',' !in s[i..j]
    requires items != [] && NoCommas(items) && JoinedAgain(s, j + 1, items)
    ensures NoCommas([s[i..j]] + items) && JoinedAgain(s, i, [s[i..j]] + items)
  {
    OneMore(s[i..j], items);
    hide NoCommas;
    JoinFirst(s[i..j], items);
    hide Join;
    CutAtComma(s, i, j);
    Associate(s[i..j] + ",", Join(items), if s[|s| - 1] == ',' then "," else "");
  }

  lemma CutAtComma(s: string, i: nat, j: nat)
    requires i <= j < |s| && s[j] == ','
    ensures s[i..] == s[i..j] + "," + s[j + 1..]
  {
  }

  lemma Associate(a: string, b: string, c: string)
    ensures a + (b + c) == a + b + c
  {
  }

  lemma JoinLast(s: string, i: nat, j: nat)
    requires i <= j <= |s| <= j + 1 && (j < |s| ==> s[j] == ',') && ',' !in s[i..j]
    ensures NoCommas([s[i..j]]) && JoinedAgain(s, i, [s[i..j]])
  {
    OneJoined(s[i..j]);
    hide Join;
    if j < |s| { CutAtComma(s, i, j); } else if i < |s| { assert s[|s| - 1] == s[i..j][j - 1 - i]; }
  }

  lemma OneMore(item: string, items: seq<string>)
    requires ',' !in item && NoCommas(items)
    ensures NoCommas([item] + items)
  {
  }

  lemma {:induction false} ItemsFrom(s: string, i: nat, j: nat)
    requires i <= |s| && j == NextComma(s, i)
    ensures Items(s, i) == [s[i..j]] + if j + 1 < |s| then Items(s, j + 1) else []
  {
    hide NextComma;
  }

  lemma OneJoined(item: string)
    ensures Join([item]) == item && (',' !in item ==> NoCommas([item]))
  {
  }

  /** struct MountInfo, as far as the parser writes it; `parsed` is what has been written to the
      buffer for the unknown items, which gets its terminator with the first of them. */
  class MountInfo {
    var src: string
    var dst: string
    var type_: Option<string>
    var data: string
    var flag: bv32
    var mask: bv32
    var xflag: bv32
    var parsed: string

    constructor ()
      ensures parsed == ""
    {
      src, dst, type_, data, parsed := "", "", None, "", "";
      flag, mask, xflag := 0, 0, 0;
    }

    /** The flag words, with the items that have gone into the buffer. */
    ghost function Words(rest: seq<string>): Options
      reads this
    {
      Options(flag, mask, xflag, rest)
    }

    ghost predicate Buffered(rest: seq<string>)
      reads this
    {
      parsed == Join(rest) && AllUnknown(rest)
    }

    /** The body of the loop: one item. */
    method TakeItem(item: string, ghost rest: seq<string>) returns (ghost more: seq<string>)
      requires Buffered(rest)
      modifies `flag, `mask, `xflag, `parsed
      ensures Words(more) == Apply(old(Words(rest)), item) && Buffered(more)
    {
      hide OptionFor, Replace, Union, Join;
      more := rest;
      var opt := SearchOption(item);
      CommaIsDue(rest);
      if opt.Some? {
        flag := Replace(flag, opt.value.mask, opt.value.flag);
        mask := Union(mask, opt.value.mask);
        xflag := Union(xflag, opt.value.xflag);
      } else {
        JoinStep(rest, item);
        if parsed != "" { parsed := parsed + ","; }
        parsed := parsed + item;
        more := rest + [item];
      }
    }

    /** transformOptionList */
    method TransformOptionList()
      modifies `flag, `mask, `xflag, `parsed
      ensures var r := ApplyAll(old(Words([])), Items(data, 0));
        Words(r.rest) == r && Buffered(r.rest)
    {
      hide Apply, ApplyAll, Items, Join, NextComma, AllUnknown, OptionFor;
      NothingJoined();
      var ptr := 0;
      parsed := "";
      ghost var rest: seq<string> := [];
      ghost var goal := ApplyAll(Words(rest), Items(data, 0));
      while true
        invariant 0 <= ptr <= |data| && Buffered(rest)
        invariant ApplyAll(Words(rest), Items(data, ptr)) == goal
        decreases |data| - ptr
      {
        var pos := NextComma(data, ptr);
        ItemsStep(data, ptr, Words(rest));
        rest := TakeItem(data[ptr..pos], rest);
        if pos + 1 >= |data| { return; }
        ptr := pos + 1;
      }
    }
  }

  lemma ItemsStep(s: string, i: nat, a: Options)
    requires i <= |s|
    ensures var j := NextComma(s, i);
      ApplyAll(a, Items(s, i)) ==
      if j + 1 < |s| then ApplyAll(Apply(a, s[i..j]), Items(s, j + 1)) else Apply(a, s[i..j])
  {
    hide Table, FirstMatch, Apply;
    var j := NextComma(s, i);
    var items := Items(s, i);
    if j + 1 < |s| { assert items[1..] == Items(s, j + 1); } else { assert items[1..] == []; }
  }

  /** An unknown item is never empty, so that the buffer is non-empty once it has been written: this
      is how the source decides whether a comma is due. */
  lemma UnknownIsNotEmpty(item: string)
    requires OptionFor(item) == None
    ensures item != ""
  {
    PrefixSurprises();
    hide Table;
  }

  ghost predicate AllUnknown(items: seq<string>) {
    forall i :: 0 <= i < |items| ==> OptionFor(items[i]) == None
  }

  /** The test whether a comma is due: something has been written if and only if an unknown item
      has been met. */
  lemma {:induction false} CommaIsDue(rest: seq<string>)
    requires AllUnknown(rest)
    ensures Join(rest) != "" <==> rest != []
  {
    if rest != [] { UnknownIsNotEmpty(rest[|rest| - 1]); }
    hide OptionFor;
  }

  lemma NothingJoined()
    ensures Join([]) == "" && AllUnknown([])
  {
  }

  lemma {:induction false} JoinStep(rest: seq<string>, item: string)
    ensures Join(rest + [item]) == (if rest == [] then "" else Join(rest) + ",") + item
  {
  }

  // ---- what the options do to the words ----

  /** The option sets these bits, or clears them. */
  ghost predicate Sets(name: string, bits: bv32) {
    forall a :: Apply(a, name) == a.(flag := a.flag | bits, mask := a.mask | bits)
  }

  ghost predicate Clears(name: string, bits: bv32) {
    forall a :: Apply(a, name) == a.(flag := a.flag & !bits, mask := a.mask | bits)
  }

  ghost predicate OnlyMarks(name: string, bits: bv32) {
    forall a :: Apply(a, name) == a.(xflag := a.xflag | bits)
  }

  lemma ReplaceSets(w: bv32, bits: bv32)
    ensures (w & !bits) | bits == w | bits && (w & !bits) | 0 == w & !bits && w | 0 == w
    ensures (w & !(0 as bv32)) | 0 == w
  {
  }

  lemma RowMeans(i: nat, name: string)
    requires i < |Table()| && i != 24 && Table()[i].opt == name
    ensures OptionFor(name) == Some(Table()[i])
  {
    NamesMeanThemselves(i);
    hide Table;
  }

  lemma RowSets(i: nat, name: string, bits: bv32)
    requires i < |Table()| && i != 24 && Table()[i] == FstabOption(name, bits, bits, 0)
    ensures Sets(name, bits)
  {
    hide Table, OptionFor;
    RowMeans(i, name);
    forall a ensures Apply(a, name) == a.(flag := a.flag | bits, mask := a.mask | bits) {
      ReplaceSets(a.flag, bits);
      ReplaceSets(a.xflag, bits);
    }
  }

  lemma RowClears(i: nat, name: string, bits: bv32)
    requires i < |Table()| && i != 24 && Table()[i] == FstabOption(name, 0, bits, 0)
    ensures Clears(name, bits)
  {
    hide Table, OptionFor;
    RowMeans(i, name);
    forall a ensures Apply(a, name) == a.(flag := a.flag & !bits, mask := a.mask | bits) {
      ReplaceSets(a.flag, bits);
      ReplaceSets(a.xflag, bits);
    }
  }

  lemma RowMarks(i: nat, name: string, bits: bv32)
    requires i < |Table()| && i != 24 && Table()[i] == FstabOption(name, 0, 0, bits)
    ensures OnlyMarks(name, bits)
  {
    hide Table, OptionFor;
    RowMeans(i, name);
    forall a ensures Apply(a, name) == a.(xflag := a.xflag | bits) {
      ReplaceSets(a.flag, bits);
      ReplaceSets(a.mask, bits);
    }
  }

  lemma RestrictionsRows1()
    ensures |Table()| == 32
    ensures Table()[8] == FstabOption("dev", 0, 4, 0)
    ensures Table()[9] == FstabOption("nodev", 4, 4, 0)
    ensures Table()[10] == FstabOption("exec", 0, 8, 0)
    ensures Table()[11] == FstabOption("noexec", 8, 8, 0)
  {
  }

  lemma RestrictionsRows2()
    ensures |Table()| == 32
    ensures Table()[12] == FstabOption("suid", 0, 2, 0)
    ensures Table()[13] == FstabOption("nosuid", 2, 2, 0)
    ensures Table()[14] == FstabOption("ro", 1, 1, 0)
    ensures Table()[15] == FstabOption("rw", 0, 1, 0)
  {
  }

  /** In the numbers of mount(2): the options that forbid, and those that allow again. */
  lemma Restrictions()
    ensures Sets("ro", 1) && Clears("rw", 1)
    ensures Sets("nosuid", 2) && Clears("suid", 2)
    ensures Sets("nodev", 4) && Clears("dev", 4)
    ensures Sets("noexec", 8) && Clears("exec", 8)
  {
    RestrictionsRows1();
    RestrictionsRows2();
    hide Table, Sets, Clears, OnlyMarks;
    RowClears(8, "dev", 4);
    RowSets(9, "nodev", 4);
    RowClears(10, "exec", 8);
    RowSets(11, "noexec", 8);
    RowClears(12, "suid", 2);
    RowSets(13, "nosuid", 2);
    RowSets(14, "ro", 1);
    RowClears(15, "rw", 1);
  }

  lemma WritingRows1()
    ensures |Table()| == 32
    ensures Table()[4] == FstabOption("async", 0, 16, 0)
    ensures Table()[5] == FstabOption("sync", 16, 16, 0)
    ensures Table()[6] == FstabOption("atime", 0, 1024, 0)
    ensures Table()[7] == FstabOption("noatime", 1024, 1024, 0)
  {
  }

  lemma WritingRows2()
    ensures |Table()| == 32
    ensures Table()[16] == FstabOption("remount", 32, 32, 0)
    ensures Table()[18] == FstabOption("mandlock", 64, 64, 0)
    ensures Table()[19] == FstabOption("nodiratime", 2048, 2048, 0)
    ensures Table()[20] == FstabOption("dirsync", 128, 128, 0)
  {
  }

  /** Options on how to write, and on times of access. */
  lemma Writing()
    ensures Sets("sync", 16) && Clears("async", 16)
    ensures Sets("noatime", 1024) && Clears("atime", 1024)
    ensures Sets("nodiratime", 2048) && Sets("dirsync", 128) && Sets("mandlock", 64) && Sets("remount", 32)
  {
    WritingRows1();
    WritingRows2();
    hide Table, Sets, Clears, OnlyMarks;
    RowClears(4, "async", 16);
    RowSets(5, "sync", 16);
    RowClears(6, "atime", 1024);
    RowSets(7, "noatime", 1024);
    RowSets(16, "remount", 32);
    RowSets(18, "mandlock", 64);
    RowSets(19, "nodiratime", 2048);
    RowSets(20, "dirsync", 128);
  }

  lemma BindingRows1()
    ensures |Table()| == 32
    ensures Table()[1] == FstabOption("rbind", 4096 | 16384, 4096 | 16384, 0)
    ensures Table()[2] == FstabOption("bind", 4096, 4096, 0)
    ensures Table()[3] == FstabOption("move", 8192, 8192, 0)
    ensures Table()[26] == FstabOption("rec", 16384, 16384, 0)
  {
  }

  lemma BindingRows2()
    ensures |Table()| == 32
    ensures Table()[27] == FstabOption("unbindable", 131072, 131072, 0)
    ensures Table()[28] == FstabOption("private", 262144, 262144, 0)
    ensures Table()[29] == FstabOption("slave", 524288, 524288, 0)
    ensures Table()[30] == FstabOption("shared", 1048576, 1048576, 0)
  {
  }

  /** Options that bind, move and share mounts. */
  lemma Binding()
    ensures Sets("rbind", 4096 | 16384) && Sets("bind", 4096) && Sets("move", 8192) && Sets("rec", 16384)
    ensures Sets("unbindable", 131072) && Sets("private", 262144) && Sets("slave", 524288) && Sets("shared", 1048576)
  {
    BindingRows1();
    BindingRows2();
    hide Table, Sets, Clears, OnlyMarks;
    RowSets(1, "rbind", 4096 | 16384);
    RowSets(2, "bind", 4096);
    RowSets(3, "move", 8192);
    RowSets(26, "rec", 16384);
    RowSets(27, "unbindable", 131072);
    RowSets(28, "private", 262144);
    RowSets(29, "slave", 524288);
    RowSets(30, "shared", 1048576);
  }

  lemma OthersRows1()
    ensures |Table()| == 32
    ensures Table()[17] == FstabOption("users", 2 | 4 | 8, 2 | 4 | 8, 0)
    ensures Table()[21] == FstabOption("_netdev", 0, 0, 0)
    ensures Table()[22] == FstabOption("auto", 0, 0, 0)
    ensures Table()[23] == FstabOption("noauto", 0, 0, 1)
  {
  }

  lemma OthersRows2()
    ensures |Table()| == 32
    ensures Table()[0] == FstabOption("defaults", 4, 31, 0)
    ensures Table()[25] == FstabOption("nouser", 0, 0, 0)
    ensures Table()[31] == FstabOption("nomtab", 0, 0, 4)
  {
  }

  /** The others: "defaults" forbids devices and allows everything else. */
  lemma Others()
    ensures Sets("users", 2 | 4 | 8)
    ensures forall a :: Apply(a, "defaults") == a.(flag := (a.flag & !31) | 4, mask := a.mask | 31)
    ensures OnlyMarks("_netdev", 0) && OnlyMarks("auto", 0) && OnlyMarks("nouser", 0)
    ensures OnlyMarks("noauto", 1) && OnlyMarks("nomtab", 4)
  {
    OthersRows1();
    OthersRows2();
    hide Table, Sets, Clears, OnlyMarks;
    RowSets(17, "users", 2 | 4 | 8);
    RowMarks(21, "_netdev", 0);
    RowMarks(22, "auto", 0);
    RowMarks(23, "noauto", 1);
    RowMarks(25, "nouser", 0);
    RowMarks(31, "nomtab", 4);
    RowMeans(0, "defaults");
    hide OptionFor;
    forall a ensures Apply(a, "defaults") == a.(flag := (a.flag & !31) | 4, mask := a.mask | 31) {
      ReplaceSets(a.xflag, 0);
    }
  }

  // ---- last writer wins ----

  predicate SingleBit(b: bv32) {
    b != 0 && b & (b - 1) == 0
  }

  /** The last option in the list that masks bit `b`. */
  function LastMasking(items: seq<string>, b: bv32): Option<FstabOption> {
    if items == [] then None
    else
      var o := OptionFor(items[|items| - 1]);
      if o.Some? && Has(o.value.mask, b) then o else LastMasking(items[..|items| - 1], b)
  }

  lemma {:induction false} ApplyLast(a: Options, items: seq<string>, item: string)
    ensures ApplyAll(a, items + [item]) == Apply(ApplyAll(a, items), item)
    decreases |items|
  {
    hide Table, FirstMatch, Apply;
    if items == [] {
      assert (items + [item])[1..] == [];
    } else {
      assert (items + [item])[1..] == items[1..] + [item];
      ApplyLast(Apply(a, items[0]), items[1..], item);
    }
  }

  lemma WholeOrNothing(m: bv32, b: bv32)
    requires SingleBit(b)
    ensures m & b == 0 || m & b == b
  {
  }

  lemma MaskedBits(f: bv32, m: bv32, g: bv32, b: bv32)
    ensures m & b == b ==> ((f & !m) | g) & b == g & b
    ensures m & b == 0 && g & !m == 0 ==> ((f & !m) | g) & b == f & b
  {
  }

  lemma BitOfWord(f: bv32, m: bv32, g: bv32, b: bv32)
    requires SingleBit(b) && Within(g, m)
    ensures Has(Replace(f, m, g), b) <==> if Has(m, b) then Has(g, b) else Has(f, b)
  {
    WholeOrNothing(m, b);
    MaskedBits(f, m, g, b);
    hide SingleBit;
  }

  lemma ApplyBit(a: Options, item: string, b: bv32)
    requires SingleBit(b)
    ensures var o := OptionFor(item);
      Has(Apply(a, item).flag, b) <==> if o.Some? && Has(o.value.mask, b) then Has(o.value.flag, b) else Has(a.flag, b)
  {
    FlagsWithinMasks(item);
    hide OptionFor, SingleBit, Has, Replace, Union, Within;
    var o := OptionFor(item);
    if o.Some? { BitOfWord(a.flag, o.value.mask, o.value.flag, b); }
  }

  /** An item is a known option that masks bit `b`. */
  predicate Masks(item: string, b: bv32) {
    OptionFor(item).Some? && Has(OptionFor(item).value.mask, b)
  }

  lemma {:induction false} LastMaskingAt(items: seq<string>, b: bv32, k: nat)
    requires k < |items| && Masks(items[k], b) && forall j :: k < j < |items| ==> !Masks(items[j], b)
    ensures LastMasking(items, b) == OptionFor(items[k])
    decreases |items|
  {
    hide OptionFor, Has;
    if k < |items| - 1 { LastMaskingAt(items[..|items| - 1], b, k); }
  }

  lemma {:induction false} NothingMasks(items: seq<string>, b: bv32)
    requires forall j :: 0 <= j < |items| ==> !Masks(items[j], b)
    ensures LastMasking(items, b) == None
    decreases |items|
  {
    hide OptionFor, Has;
    if items != [] { NothingMasks(items[..|items| - 1], b); }
  }

  /** Each flag bit is that of the last item that masks it, or what it was before. */
  lemma {:induction false} LastItemDecides(a: Options, items: seq<string>, b: bv32, k: nat)
    requires SingleBit(b) && k < |items| && Masks(items[k], b)
    requires forall j :: k < j < |items| ==> !Masks(items[j], b)
    ensures Has(ApplyAll(a, items).flag, b) <==> Has(OptionFor(items[k]).value.flag, b)
  {
    hide OptionFor, Has, ApplyAll;
    LastWriterWins(a, items, b);
    LastMaskingAt(items, b, k);
  }

  /** A bit that no item masks stays as it was. */
  lemma {:induction false} OtherBitsStay(a: Options, items: seq<string>, b: bv32)
    requires SingleBit(b) && forall j :: 0 <= j < |items| ==> !Masks(items[j], b)
    ensures Has(ApplyAll(a, items).flag, b) <==> Has(a.flag, b)
  {
    hide OptionFor, Has, ApplyAll;
    LastWriterWins(a, items, b);
    NothingMasks(items, b);
  }

  lemma UnionHas(x: bv32, y: bv32, b: bv32)
    ensures Has(Union(x, y), b) <==> Has(x, b) || Has(y, b)
  {
    assert (x | y) & b == (x & b) | (y & b);
  }

  /** Masks and marks only grow: each has the bits of all known items, and what it had before. */
  lemma {:induction false} MasksAddUp(a: Options, items: seq<string>, b: bv32)
    ensures Has(ApplyAll(a, items).mask, b) <==> Has(a.mask, b) || exists k :: 0 <= k < |items| && Masks(items[k], b)
    ensures Has(ApplyAll(a, items).xflag, b) <==> Has(a.xflag, b) || exists k :: 0 <= k < |items| && Marks(items[k], b)
    decreases |items|
  {
    hide OptionFor, Has, Union, Replace;
    if items != [] {
      MasksAddUp(Apply(a, items[0]), items[1..], b);
      var o := OptionFor(items[0]);
      if o.Some? {
        UnionHas(a.mask, o.value.mask, b);
        UnionHas(a.xflag, o.value.xflag, b);
      }
      assert forall k :: 1 <= k < |items| ==> items[k] == items[1..][k - 1];
      assert forall k :: 0 <= k < |items| - 1 ==> items[1..][k] == items[k + 1];
    }
  }

  /** An item is a known option that has mark `b`. */
  predicate Marks(item: string, b: bv32) {
    OptionFor(item).Some? && Has(OptionFor(item).value.xflag, b)
  }

  lemma MarkedRow(i: nat)
    requires i < |Table()|
    ensures Has(Table()[i].xflag, 1) <==> i == 23
  {
    if i < 8 { Marked0(i); } else if i < 16 { Marked8(i); } else if i < 24 { Marked16(i); } else { Marked24(i); }
  }

  lemma Marked0(i: nat)
    requires i < 8
    ensures !Has(Table()[i].xflag, 1)
  {
    assert i == 0 || i == 1 || i == 2 || i == 3 || i == 4 || i == 5 || i == 6 || i == 7;
  }

  lemma Marked8(i: nat)
    requires 8 <= i < 16
    ensures !Has(Table()[i].xflag, 1)
  {
    assert i == 8 || i == 9 || i == 10 || i == 11 || i == 12 || i == 13 || i == 14 || i == 15;
  }

  lemma Marked16(i: nat)
    requires 16 <= i < 24
    ensures Has(Table()[i].xflag, 1) <==> i == 23
  {
    assert i == 16 || i == 17 || i == 18 || i == 19 || i == 20 || i == 21 || i == 22 || i == 23;
  }

  lemma Marked24(i: nat)
    requires 24 <= i < |Table()|
    ensures !Has(Table()[i].xflag, 1)
  {
    assert i == 24 || i == 25 || i == 26 || i == 27 || i == 28 || i == 29 || i == 30 || i == 31;
  }

  /** Only the option "noauto" has the mark that stands for it. */
  lemma NoautoMarks(item: string)
    ensures Marks(item, 1) <==> OptionFor(item).Some? && OptionFor(item).value.opt == "noauto"
  {
    OthersRows1();
    hide Table, Has;
    var k := FirstMatch(Table(), Named(item));
    if k < |Table()| {
      MarkedRow(k);
      hide FirstMatch;
      NamesMeanThemselves(k);
      NamesMeanThemselves(23);
    }
  }

  /** Each flag bit is that of the last option that masks it, or what it was before. */
  lemma {:induction false} LastWriterWins(a: Options, items: seq<string>, b: bv32)
    requires SingleBit(b)
    ensures Has(ApplyAll(a, items).flag, b) <==>
      var last := LastMasking(items, b); if last.Some? then Has(last.value.flag, b) else Has(a.flag, b)
    decreases |items|
  {
    hide OptionFor, Apply, SingleBit, Has;
    if items != [] {
      var n := |items| - 1;
      var front, item := items[..n], items[n];
      assert items == front + [item];
      LastWriterWins(a, front, b);
      ApplyLast(a, front, item);
      ApplyBit(ApplyAll(a, front), item, b);
    }
  }

  /** The unknown items are kept, in their order. */
  lemma {:induction false} UnknownItemsKept(a: Options, items: seq<string>)
    ensures ApplyAll(a, items).rest == a.rest + Unknown(items)
    decreases |items|
  {
    hide Table, FirstMatch;
    if items != [] { UnknownItemsKept(Apply(a, items[0]), items[1..]); }
  }

  function Unknown(items: seq<string>): seq<string> {
    if items == [] then [] else (if OptionFor(items[0]) == None then [items[0]] else []) + Unknown(items[1..])
  }

  // ---- the buffer for the unknown items ----

  /** The length of the items, each with a comma or terminator. */
  function Total(items: seq<string>): nat {
    if items == [] then 0 else |items[0]| + 1 + Total(items[1..])
  }

  lemma {:induction false} TotalLast(items: seq<string>, item: string)
    ensures Total(items + [item]) == Total(items) + |item| + 1
    decreases |items|
  {
    if items == [] {
      assert (items + [item])[1..] == [];
    } else {
      assert (items + [item])[1..] == items[1..] + [item];
      TotalLast(items[1..], item);
    }
  }

  lemma {:induction false} JoinLength(items: seq<string>)
    requires items != []
    ensures |Join(items)| + 1 == Total(items)
    decreases |items|
  {
    var n := |items| - 1;
    assert items == items[..n] + [items[n]];
    TotalLast(items[..n], items[n]);
    if n > 0 { JoinLength(items[..n]); } else { assert items[..n] == []; }
  }

  predicate TrailingComma(s: string, i: nat) {
    i < |s| && s[|s| - 1] == ','
  }

  lemma {:induction false} ItemsTotal(s: string, i: nat)
    requires i <= |s|
    ensures Total(Items(s, i)) == |s| - i + if TrailingComma(s, i) then 0 else 1
    decreases |s| - i
  {
    var j, items := NextComma(s, i), Items(s, i);
    assert items[0] == s[i..j] && items[1..] == if j + 1 < |s| then Items(s, j + 1) else [];
    assert Total(items) == j - i + 1 + Total(items[1..]);
    hide Items, Total, NextComma;
    if j + 1 < |s| { ItemsTotal(s, j + 1); } else { NothingTotal(); }
  }

  lemma NothingTotal()
    ensures Total([]) == 0
  {
  }

  lemma {:induction false} UnknownTotal(items: seq<string>)
    ensures Total(Unknown(items)) <= Total(items)
    ensures Total(Unknown(items)) == Total(items) <==> AllUnknown(items)
    decreases |items|
  {
    hide OptionFor;
    if items != [] {
      UnknownTotal(items[1..]);
      var rest := Unknown(items[1..]);
      assert ([items[0]] + rest)[1..] == rest && [] + rest == rest;
      assert AllUnknown(items) <==> OptionFor(items[0]) == None && AllUnknown(items[1..]) by {
        assert forall i :: 0 <= i < |items| - 1 ==> items[1..][i] == items[i + 1];
        assert forall i :: 1 <= i < |items| ==> items[i] == items[1..][i - 1];
      }
    }
  }

  /** The buffer is as long as the option string.  What is written to it, with its terminator, fits
      if and only if some item is known or a comma ends the string: otherwise it is one too long. */
  lemma {:induction false} BufferFitsIff(data: string)
    requires Unknown(Items(data, 0)) != []
    ensures |Join(Unknown(Items(data, 0)))| + 1 <= |data| <==> !AllUnknown(Items(data, 0)) || TrailingComma(data, 0)
    ensures |Join(Unknown(Items(data, 0)))| <= |data|
  {
    hide OptionFor, Items;
    JoinLength(Unknown(Items(data, 0)));
    ItemsTotal(data, 0);
    UnknownTotal(Items(data, 0));
  }

  // ---- devices ----

  /** The last item that has a say on MS_NODEV. */
  function LastNodevItem(items: seq<string>): Option<string> {
    if items == [] then None
    else
      var item := items[|items| - 1];
      var o := OptionFor(item);
      if o.Some? && Has(o.value.mask, MS_NODEV) then Some(item) else LastNodevItem(items[..|items| - 1])
  }

  lemma NodevItem(item: string)
    ensures var o := OptionFor(item);
      o.Some? && Has(o.value.mask, MS_NODEV) ==> (!Has(o.value.flag, MS_NODEV) <==> item == "dev")
  {
    hide Table;
    var k := FirstMatch(Table(), Named(item));
    OnlyDevMeansDev(item);
    if k < |Table()| { TableIsTidy(k); }
  }

  lemma {:induction false} LastNodevIsLastMasking(items: seq<string>)
    ensures var last, item := LastMasking(items, MS_NODEV), LastNodevItem(items);
      (last.Some? <==> item.Some?) && (last.Some? ==> (!Has(last.value.flag, MS_NODEV) <==> item.value == "dev"))
    decreases |items|
  {
    hide Table, FirstMatch;
    if items != [] {
      NodevItem(items[|items| - 1]);
      LastNodevIsLastMasking(items[..|items| - 1]);
    }
  }

  /** Devices stay forbidden unless the last item that has a say is "dev", or none has and they
      were allowed before. */
  lemma {:induction false} NodevClearIff(a: Options, items: seq<string>)
    ensures !Has(ApplyAll(a, items).flag, MS_NODEV) <==>
      var item := LastNodevItem(items); if item.Some? then item.value == "dev" else !Has(a.flag, MS_NODEV)
  {
    LastWriterWins(a, items, MS_NODEV);
    LastNodevIsLastMasking(items);
    hide Table, FirstMatch, ApplyAll, LastMasking, LastNodevItem, Has;
  }
}
