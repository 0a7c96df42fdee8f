// Scanning the rearranged arguments again: when moving the non-options behind
// the options keeps the meaning of a command line.
module Reordering {
  import opened Wrappers
  import opened LongOptions
  import opened OptionScan
  import opened OptionRun

  // ---- A reading depends only on the arguments it uses ---------------------

  lemma LongIsLocal(cfg: Config, table: seq<LongOption>, arg: string,
                    n: Option<string>, m: Option<string>, shortToo: bool)
    requires var r := ReadLong(cfg, table, arg, n, shortToo);
      && (r.Some? && r.value.used >= 2 ==> m == n)
      && (n.None? ==> var q := ReadLong(cfg, table, arg, Some(""), shortToo); q.Some? ==> q.value.used <= 1)
    ensures ReadLong(cfg, table, arg, m, shortToo) == ReadLong(cfg, table, arg, n, shortToo)
  {
  }

  predicate Available(n1: Option<string>, n2: Option<string>) {
    n1.None? ==> n2.None?
  }

  lemma WIsLocal(cfg: Config, table: seq<LongOption>, arg: string, off: nat,
                 n1: Option<string>, n2: Option<string>, m1: Option<string>, m2: Option<string>)
    requires off < |arg| && Available(n1, n2) && Available(m1, m2)
    requires ReadW(cfg, table, arg, off, Some(n1.GetOr("")), Some(n2.GetOr(""))).used <= Ahead(n1, n2)
    requires var r := ReadW(cfg, table, arg, off, n1, n2);
      (r.used >= 2 ==> m1 == n1) && (r.used >= 3 ==> m2 == n2)
    ensures ReadW(cfg, table, arg, off, m1, m2) == ReadW(cfg, table, arg, off, n1, n2)
  {
    if off + 1 < |arg| {
      LongIsLocal(cfg, table, arg[off + 1..], n1, m1, false);
    } else if n1.Some? {
      assert m1 == n1;
      LongIsLocal(cfg, table, n1.value, n2, m2, false);
    }
  }

  lemma ShortIsLocal(cfg: Config, arg: string, off: nat,
                     n1: Option<string>, n2: Option<string>, m1: Option<string>, m2: Option<string>)
    requires off < |arg| && Available(n1, n2) && Available(m1, m2)
    requires var q := ReadShort(cfg, arg, off, Some(n1.GetOr("")), Some(n2.GetOr("")));
      q.Reading? ==> q.used <= Ahead(n1, n2)
    requires var r := ReadShort(cfg, arg, off, n1, n2);
      r.Reading? ==> (r.used >= 2 ==> m1 == n1) && (r.used >= 3 ==> m2 == n2)
    ensures ReadShort(cfg, arg, off, m1, m2) == ReadShort(cfg, arg, off, n1, n2)
  {
    var oli := IndexOf(cfg.options, arg[off]);
    if cfg.longs.Some? && oli.Some? && IsLongForShort(cfg, oli.value, arg[off]) && arg[off] != ':' && arg[off] != '-' {
      WIsLocal(cfg, cfg.longs.value, arg, off, n1, n2, m1, m2);
    }
  }

  lemma ReadingIsLocal(cfg: Config, arg: string, off: nat,
                       n1: Option<string>, n2: Option<string>, m1: Option<string>, m2: Option<string>)
    requires off < |arg| && Available(n1, n2) && Available(m1, m2)
    requires WouldUse(cfg, arg, off, n1, n2) <= Ahead(n1, n2)
    requires var r := ReadOption(cfg, arg, off, n1, n2);
      r.Reading? ==> (r.used >= 2 ==> m1 == n1) && (r.used >= 3 ==> m2 == n2)
    ensures ReadOption(cfg, arg, off, m1, m2) == ReadOption(cfg, arg, off, n1, n2)
  {
    if MayBeLong(cfg, arg, off) {
      LongIsLocal(cfg, cfg.longs.value, LongSpelling(arg, off), n1, m1, ShortToo(cfg, arg[off]));
      UnknownAnyway(cfg, cfg.longs.value, LongSpelling(arg, off), n1, Some(n1.GetOr("")), ShortToo(cfg, arg[off]));
      if ReadLong(cfg, cfg.longs.value, LongSpelling(arg, off), n1, ShortToo(cfg, arg[off])).None? {
        ShortIsLocal(cfg, arg, off, n1, n2, m1, m2);
      }
    } else {
      ShortIsLocal(cfg, arg, off, n1, n2, m1, m2);
    }
  }

  lemma UnknownAnyway(cfg: Config, table: seq<LongOption>, arg: string,
                      n: Option<string>, m: Option<string>, shortToo: bool)
    ensures ReadLong(cfg, table, arg, n, shortToo).None? <==> ReadLong(cfg, table, arg, m, shortToo).None?
  {
  }

  /** How many arguments a long option uses does not depend on what the next
      one is. */
  lemma UsesAlike(cfg: Config, table: seq<LongOption>, arg: string, n: string, m: string, shortToo: bool)
    ensures var r, q := ReadLong(cfg, table, arg, Some(n), shortToo), ReadLong(cfg, table, arg, Some(m), shortToo);
      r.Some? == q.Some? && (r.Some? ==> r.value.used == q.value.used)
  {
  }

  lemma WUsesMore(cfg: Config, table: seq<LongOption>, arg: string, off: nat,
                  n1: Option<string>, n2: Option<string>, m1: Option<string>, m2: Option<string>)
    requires off < |arg| && Available(n1, n2) && Available(m1, m2)
    requires ReadW(cfg, table, arg, off, Some(n1.GetOr("")), Some(n2.GetOr(""))).used > Ahead(n1, n2)
    requires (n1.Some? ==> m1 == n1) && (n2.Some? ==> m2 == n2) && Ahead(m1, m2) > Ahead(n1, n2)
    ensures ReadW(cfg, table, arg, off, m1, m2).used > Ahead(n1, n2)
  {
    if off + 1 < |arg| {
      UsesAlike(cfg, table, arg[off + 1..], n1.GetOr(""), m1.value, false);
    } else if n1.Some? {
      UsesAlike(cfg, table, n1.value, n2.GetOr(""), m2.value, false);
    }
  }

  lemma ShortUsesMore(cfg: Config, arg: string, off: nat,
                      n1: Option<string>, n2: Option<string>, m1: Option<string>, m2: Option<string>)
    requires off < |arg| && Available(n1, n2) && Available(m1, m2)
    requires var q := ReadShort(cfg, arg, off, Some(n1.GetOr("")), Some(n2.GetOr("")));
      q.Reading? && q.used > Ahead(n1, n2)
    requires (n1.Some? ==> m1 == n1) && (n2.Some? ==> m2 == n2) && Ahead(m1, m2) > Ahead(n1, n2)
    ensures var r := ReadShort(cfg, arg, off, m1, m2); r.Reading? && r.used > Ahead(n1, n2)
  {
    var oli := IndexOf(cfg.options, arg[off]);
    if oli.Some? && IsLongForShort(cfg, oli.value, arg[off]) {
      WUsesMore(cfg, cfg.longs.value, arg, off, n1, n2, m1, m2);
    }
  }

  /** An option that wants an argument takes one as soon as there is one. */
  lemma WantingUsesMore(cfg: Config, arg: string, off: nat,
                        n1: Option<string>, n2: Option<string>, m1: Option<string>, m2: Option<string>)
    requires off < |arg| && Available(n1, n2) && Available(m1, m2)
    requires WouldUse(cfg, arg, off, n1, n2) > Ahead(n1, n2)
    requires (n1.Some? ==> m1 == n1) && (n2.Some? ==> m2 == n2) && Ahead(m1, m2) > Ahead(n1, n2)
    ensures var r := ReadOption(cfg, arg, off, m1, m2); r.Reading? && r.used > Ahead(n1, n2)
  {
    if MayBeLong(cfg, arg, off) {
      var spelling, shortToo := LongSpelling(arg, off), ShortToo(cfg, arg[off]);
      UnknownAnyway(cfg, cfg.longs.value, spelling, m1, Some(n1.GetOr("")), shortToo);
      if ReadLong(cfg, cfg.longs.value, spelling, m1, shortToo).None? {
        ShortUsesMore(cfg, arg, off, n1, n2, m1, m2);
      } else {
        UsesAlike(cfg, cfg.longs.value, spelling, n1.GetOr(""), m1.value, shortToo);
      }
    } else {
      ShortUsesMore(cfg, arg, off, n1, n2, m1, m2);
    }
  }

  // ---- Scanning the options with other arguments behind them ---------------

  function OptionsOf(cfg: Config, args: seq<string>, off: nat): seq<string>
    requires OffsetOk(args, off)
  {
    Select(args, Scan(cfg, args, off).roles, OptionPart)
  }

  ghost predicate AllNonOptions(cfg: Config, x: seq<string>) {
    forall i :: 0 <= i < |x| ==> IsNonOption(cfg, x[i])
  }

  lemma {:induction false} NonOptionsAlone(cfg: Config, x: seq<string>)
    requires cfg.mode.Permute? && AllNonOptions(cfg, x)
    ensures Scan(cfg, x, 0) == Parse([], Repeat(Operand, |x|), AtEnd)
  {
    if x != [] {
      NonOptionsAlone(cfg, x[1..]);
      assert Repeat(Operand, |x|) == [Operand] + Repeat(Operand, |x| - 1);
    } else {
      assert Repeat(Operand, 0) == [];
    }
  }

  lemma WantingUsesAll(cfg: Config, args: seq<string>, off: nat)
    requires args != [] && off < |args[0]| && WantsMore(cfg, args, off)
    ensures var r := ReadFirst(cfg, args, off); r.Reading? && r.used == |args|
  {
    var arg, n1, n2 := args[0], Nth(args, 1), Nth(args, 2);
    if MayBeLong(cfg, arg, off) {
      UnknownAnyway(cfg, cfg.longs.value, LongSpelling(arg, off), n1, Some(n1.GetOr("")), ShortToo(cfg, arg[off]));
    }
  }

  /** What is read first stays the same as long as the arguments it uses do. */
  lemma SameReading(cfg: Config, args: seq<string>, off: nat, other: seq<string>)
    requires args != [] && off < |args[0]| && !WantsMore(cfg, args, off)
    requires var r := ReadFirst(cfg, args, off);
      r.Reading? && r.used <= |other| && args[..r.used] == other[..r.used] && other != [] && other[0] == args[0]
    ensures ReadFirst(cfg, other, off) == ReadFirst(cfg, args, off)
    ensures !WantsMore(cfg, other, off)
  {
    var r := ReadFirst(cfg, args, off);
    var n1, n2, m1, m2 := Nth(args, 1), Nth(args, 2), Nth(other, 1), Nth(other, 2);
    assert r.used >= 2 ==> m1 == n1 by { if r.used >= 2 { assert args[..r.used][1] == other[..r.used][1]; } }
    assert r.used >= 3 ==> m2 == n2 by { if r.used >= 3 { assert args[..r.used][2] == other[..r.used][2]; } }
    ReadingIsLocal(cfg, args[0], off, n1, n2, m1, m2);
    ReadingIsLocal(cfg, args[0], off, n1, n2, Some(m1.GetOr("")), Some(m2.GetOr("")));
  }

  lemma RepeatSplit(role: Role, a: nat, b: nat)
    ensures Repeat(role, a) + Repeat(role, b) == Repeat(role, a + b)
  {
  }

  /** The options after the first one read. */
  lemma OptionsUnfold(cfg: Config, args: seq<string>, off: nat)
    requires args != [] && off < |args[0]| && ReadFirst(cfg, args, off).Reading?
    ensures var r := ReadFirst(cfg, args, off);
      Select(args, ScanOption(cfg, args, off).roles, OptionPart)
        == args[..r.used] + OptionsOf(cfg, args[r.used..], r.off)
  {
    var r := ReadFirst(cfg, args, off);
    SelectAfter(args, r.used, OptionPart, Scan(cfg, args[r.used..], r.off).roles, OptionPart);
  }

  lemma OptionsBehindNonOption(cfg: Config, args: seq<string>)
    requires args != [] && IsNonOption(cfg, args[0]) && cfg.mode.Permute?
    ensures OptionsOf(cfg, args, 0) == OptionsOf(cfg, args[1..], 0)
  {
    assert Repeat(Operand, 1) == [Operand];
    SelectAfter(args, 1, Operand, Scan(cfg, args[1..], 0).roles, OptionPart);
  }

  /** An argument read in part counts among the options. */
  lemma {:induction false} HalfReadIsOption(cfg: Config, args: seq<string>, off: nat)
    requires OffsetOk(args, off) && off > 0 && Scan(cfg, args, off).ending != AtLoneDash
    ensures var o := OptionsOf(cfg, args, off); o != [] && o[0] == args[0]
    decreases |args[0]| - off
  {
    var r := ReadFirst(cfg, args, off);
    OptionsUnfold(cfg, args, off);
    if r.used == 0 {
      HalfReadIsOption(cfg, args, r.off);
    }
  }

  /** Behind "--" anything may follow; behind the last option only non-options,
      and nothing if that option wants an argument. */
  ghost predicate MayFollow(cfg: Config, ending: Ending, x: seq<string>) {
    match ending
    case AtDashes => true
    case AtEnd => AllNonOptions(cfg, x)
    case WantingArgument => x == []
    case _ => false
  }

  function RoleBehind(ending: Ending): Role {
    if ending == AtDashes then Untouched else Operand
  }

  /** The options of a scan, read again with x behind them. */
  ghost predicate ReadAgain(p: Parse, q: Parse, o: seq<string>, x: seq<string>) {
    && q.events == p.events && q.ending == p.ending
    && q.roles == Repeat(OptionPart, |o|) + Repeat(RoleBehind(p.ending), |x|)
  }

  lemma {:induction false} Reparse(cfg: Config, args: seq<string>, off: nat, x: seq<string>)
    requires OffsetOk(args, off) && cfg.mode.Permute?
    requires MayFollow(cfg, Scan(cfg, args, off).ending, x)
    ensures var o := OptionsOf(cfg, args, off);
      && OffsetOk(o + x, off)
      && ReadAgain(Scan(cfg, args, off), Scan(cfg, o + x, off), o, x)
    decreases |args|, Unread(args, off), 1
  {
    var o := OptionsOf(cfg, args, off);
    if args == [] {
      NonOptionsAlone(cfg, x);
      assert o + x == x && Repeat(OptionPart, 0) == [];
    } else if off > 0 {
      HalfReadIsOption(cfg, args, off);
      ReparseOption(cfg, args, off, x);
    } else if IsNonOption(cfg, args[0]) {
      OptionsBehindNonOption(cfg, args);
      Reparse(cfg, args[1..], 0, x);
    } else if args[0] == "--" {
      SelectTail(args);
      assert Repeat(OptionPart, 1) == [OptionPart];
      assert (o + x)[0] == "--";
    } else {
      ReparseOption(cfg, args, FirstLetter(args[0]), x);
    }
  }

  lemma Spliced(args: seq<string>, n: nat, o: seq<string>, x: seq<string>)
    requires n <= |args| && args != [] && (n == 0 ==> o != [] && o[0] == args[0])
    ensures var y := args[..n] + o + x;
      y != [] && y[0] == args[0] && y[..n] == args[..n] && y[n..] == o + x
  {
  }

  /** With other arguments behind the options the first one is read as before. */
  lemma SameOptionRead(cfg: Config, args: seq<string>, off: nat, x: seq<string>)
    requires args != [] && off < |args[0]| && !WantsMore(cfg, args, off)
    requires ScanOption(cfg, args, off).ending != AtLoneDash
    ensures var r := ReadFirst(cfg, args, off);
      r.Reading? &&
      var behind := OptionsOf(cfg, args[r.used..], r.off) + x;
      var y := args[..r.used] + OptionsOf(cfg, args[r.used..], r.off) + x;
      && y != [] && y[0] == args[0]
      && ReadFirst(cfg, y, off) == r && !WantsMore(cfg, y, off)
      && y[..r.used] == args[..r.used] && y[r.used..] == behind
  {
    var r := ReadFirst(cfg, args, off);
    if r.used == 0 { HalfReadIsOption(cfg, args, r.off); }
    var o := OptionsOf(cfg, args[r.used..], r.off);
    Spliced(args, r.used, o, x);
    SameReading(cfg, args, off, args[..r.used] + o + x);
  }

  /** The same first option, with the same before and behind it. */
  lemma ScannedAlike(cfg: Config, args: seq<string>, off: nat, r: Reading, o: seq<string>, x: seq<string>,
                     y: seq<string>)
    requires args != [] && off < |args[0]| && r == ReadFirst(cfg, args, off) && r.Reading?
    requires y != [] && y[0] == args[0] && ReadFirst(cfg, y, off) == r && y[r.used..] == o + x
    requires !WantsMore(cfg, args, off) && !WantsMore(cfg, y, off)
    requires ReadAgain(Scan(cfg, args[r.used..], r.off), Scan(cfg, o + x, r.off), o, x)
    ensures ReadAgain(ScanOption(cfg, args, off), ScanOption(cfg, y, off), args[..r.used] + o, x)
  {
    RepeatSplit(OptionPart, r.used, |o|);
  }

  lemma {:induction false} ReparseOption(cfg: Config, args: seq<string>, off: nat, x: seq<string>)
    requires args != [] && off < |args[0]| && cfg.mode.Permute?
    requires off == 0 ==> !IsNonOption(cfg, args[0]) && |args[0]| == 1
    requires MayFollow(cfg, ScanOption(cfg, args, off).ending, x)
    ensures var o := Select(args, ScanOption(cfg, args, off).roles, OptionPart);
      && o != [] && o[0] == args[0]
      && ReadAgain(ScanOption(cfg, args, off), ScanOption(cfg, o + x, off), o, x)
    decreases |args|, |args[0]| - off, 0
  {
    var r := ReadFirst(cfg, args, off);
    assert r.Reading?;
    var rest := args[r.used..];
    var o' := OptionsOf(cfg, rest, r.off);
    var o := args[..r.used] + o';
    OptionsUnfold(cfg, args, off);
    if WantsMore(cfg, args, off) {
      WantingUsesAll(cfg, args, off);
      assert rest == [] && o + x == args;
      assert Repeat(OptionPart, |o|) + Repeat(Operand, 0) == Repeat(OptionPart, r.used) + [];
    } else {
      Reparse(cfg, rest, r.off, x);
      SameOptionRead(cfg, args, off, x);
      if r.used == 0 { HalfReadIsOption(cfg, args, r.off); }
      ScannedAlike(cfg, args, off, r, o', x, o + x);
    }
  }

  // ---- The option that wants an argument and finds one ---------------------

  lemma {:induction false} WantingTakes(cfg: Config, args: seq<string>, off: nat, x: seq<string>)
    requires OffsetOk(args, off) && cfg.mode.Permute?
    requires Scan(cfg, args, off).ending == WantingArgument && x != []
    ensures var o := OptionsOf(cfg, args, off);
      OffsetOk(o + x, off) && |OptionsOf(cfg, o + x, off)| > |o|
    decreases |args|, Unread(args, off), 1
  {
    var o := OptionsOf(cfg, args, off);
    if off > 0 {
      HalfReadIsOption(cfg, args, off);
      WantingOptionTakes(cfg, args, off, x);
    } else if IsNonOption(cfg, args[0]) {
      OptionsBehindNonOption(cfg, args);
      WantingTakes(cfg, args[1..], 0, x);
    } else {
      WantingOptionTakes(cfg, args, FirstLetter(args[0]), x);
    }
  }

  lemma {:induction false} WantingOptionTakes(cfg: Config, args: seq<string>, off: nat, x: seq<string>)
    requires args != [] && off < |args[0]| && cfg.mode.Permute?
    requires off == 0 ==> !IsNonOption(cfg, args[0]) && |args[0]| == 1
    requires ScanOption(cfg, args, off).ending == WantingArgument && x != []
    ensures var o := Select(args, ScanOption(cfg, args, off).roles, OptionPart);
      && o != [] && o[0] == args[0]
      && |Select(o + x, ScanOption(cfg, o + x, off).roles, OptionPart)| > |o|
    decreases |args|, |args[0]| - off, 0
  {
    var r := ReadFirst(cfg, args, off);
    var rest := args[r.used..];
    var o' := OptionsOf(cfg, rest, r.off);
    var o := args[..r.used] + o';
    OptionsUnfold(cfg, args, off);
    if WantsMore(cfg, args, off) {
      WantingUsesAll(cfg, args, off);
      assert o == args;
      TakesFromBehind(cfg, args, off, x);
    } else {
      WantingTakes(cfg, rest, r.off, x);
      SameOptionRead(cfg, args, off, x);
      if r.used == 0 { HalfReadIsOption(cfg, args, r.off); }
      OptionsUnfold(cfg, o + x, off);
    }
  }

  lemma TakesFromBehind(cfg: Config, args: seq<string>, off: nat, x: seq<string>)
    requires args != [] && off < |args[0]| && x != [] && WantsMore(cfg, args, off)
    ensures |Select(args + x, ScanOption(cfg, args + x, off).roles, OptionPart)| > |args|
  {
    var y := args + x;
    WantingUsesMore(cfg, args[0], off, Nth(args, 1), Nth(args, 2), Nth(y, 1), Nth(y, 2));
    OptionsUnfold(cfg, y, off);
  }

  // ---- The rearranged command line -----------------------------------------

  function OperandsOf(cfg: Config, args: seq<string>): seq<string> {
    Select(args, Scan(cfg, args, 0).roles, Operand)
  }

  function UntouchedOf(cfg: Config, args: seq<string>): seq<string> {
    Select(args, Scan(cfg, args, 0).roles, Untouched)
  }

  /** The order in which the scanner leaves the arguments. */
  function Rearranged(cfg: Config, args: seq<string>): seq<string> {
    OptionsOf(cfg, args, 0) + OperandsOf(cfg, args) + UntouchedOf(cfg, args)
  }

  /** Scanning args and scanning other find the same options and the same number
      of arguments that belong to them. */
  ghost predicate SameMeaning(cfg: Config, args: seq<string>, other: seq<string>) {
    && Scan(cfg, other, 0).events == Scan(cfg, args, 0).events
    && OptionsOf(cfg, other, 0) == OptionsOf(cfg, args, 0)
  }

  lemma {:induction false} SelectNone(args: seq<string>, roles: seq<Role>, role: Role)
    requires |args| == |roles| && forall i :: 0 <= i < |roles| ==> roles[i] != role
    ensures Select(args, roles, role) == []
  {
    if args == [] {
    } else {
      SelectNone(args[1..], roles[1..], role);
    }
  }

  lemma {:induction false} SelectedSatisfy(cfg: Config, args: seq<string>, roles: seq<Role>)
    requires |args| == |roles|
    requires forall i :: 0 <= i < |args| && roles[i] == Operand ==> IsNonOption(cfg, args[i])
    ensures AllNonOptions(cfg, Select(args, roles, Operand))
  {
    if args == [] {
    } else {
      SelectedSatisfy(cfg, args[1..], roles[1..]);
    }
  }

  /** Moving the non-options behind the options keeps the meaning of a command
      line, except if its last option wants an argument and there is a
      non-option that it would take. */
  lemma PermutationKeepsMeaningIff(cfg: Config, args: seq<string>)
    requires cfg.mode.Permute? && Scan(cfg, args, 0).ending != AtLoneDash
    ensures SameMeaning(cfg, args, Rearranged(cfg, args))
      <==> Scan(cfg, args, 0).ending != WantingArgument || OperandsOf(cfg, args) == []
  {
    var p := Scan(cfg, args, 0);
    var o, d, u := OptionsOf(cfg, args, 0), OperandsOf(cfg, args), UntouchedOf(cfg, args);
    var x := d + u;
    assert Rearranged(cfg, args) == o + x;
    var c, at, k := ScanRoles(cfg, args, 0);
    if p.ending != AtDashes {
      SelectNone(args, p.roles, Untouched);
      assert x == d;
    }
    forall i | 0 <= i < |args| && p.roles[i] == Operand
      ensures IsNonOption(cfg, args[i])
    {
      PassedOver(cfg, args, 0, i);
    }
    SelectedSatisfy(cfg, args, p.roles);
    if p.ending == WantingArgument && d != [] {
      WantingTakes(cfg, args, 0, x);
    } else {
      Reparse(cfg, args, 0, x);
      SelectConcat(o, x, Repeat(OptionPart, |o|), Repeat(RoleBehind(p.ending), |x|), OptionPart);
      SelectAll(o, Repeat(OptionPart, |o|), OptionPart, OptionPart);
      SelectAll(x, Repeat(RoleBehind(p.ending), |x|), OptionPart, RoleBehind(p.ending));
    }
  }

  /** A command line that means something else after the permutation: the
      option p finds no argument at first, and the non-option x afterwards. */
  lemma PermutationChangesMeaning()
    ensures var cfg := Config("p:", Some([]), false, Permute);
      && Rearranged(cfg, ["x", "-p"]) == ["-p", "x"]
      && !SameMeaning(cfg, ["x", "-p"], ["-p", "x"])
  {
    var cfg := Config("p:", Some([]), false, Permute);
    var args := ["x", "-p"];
    assert Scan(cfg, args[1..], 0) == ScanOption(cfg, ["-p"], 1);
    assert ReadFirst(cfg, ["-p"], 1) == Reading(Complaint(BADCH, 'p' as int), 1, 0);
    assert ReadFirst(cfg, ["-p", "x"], 1) == Reading(Plain('p' as int, Some("x")), 2, 0);
  }
}
