// The client's loop (console_logger/ConsoleLogger.cpp:49-53): call the scanner
// until it returns -1.
module CommandLine {
  import opened Wrappers
  import opened OptionScan
  import opened OptionRun
  import opened ArgvLayout
  import opened Getopt
  import opened LongOptions
  import opened Reordering

  /** What the client sees after each call: the code and the variables the
      scanner reports through. */
  function Observations(events: seq<Outcome>, r: Report): (seen: seq<(int, Report)>)
    ensures |seen| == |events|
  {
    if events == [] then []
    else
      var r' := Apply(r, events[0]);
      [(events[0].code, r')] + Observations(events[1..], r')
  }

  // ---- What the client sees --------------------------------------------------

  function Optopts(events: seq<Outcome>): seq<Option<int>> {
    seq(|events|, i requires 0 <= i < |events| => events[i].optopt)
  }

  function Indices(events: seq<Outcome>): seq<Option<int>> {
    seq(|events|, i requires 0 <= i < |events| =>
      match events[i].index
      case None => None
      case Some(k) => Some(k))
  }

  /** What is stored in variable f. */
  function Stores(events: seq<Outcome>, f: nat): seq<Option<Option<int>>> {
    seq(|events|, i requires 0 <= i < |events| =>
      if events[i].store.Some? && events[i].store.value.0 == f then Some(Some(events[i].store.value.1)) else None)
  }

  function Variable(flags: map<nat, int>, f: nat): Option<int> {
    if f in flags then Some(flags[f]) else None
  }

  lemma {:induction false} ObservedNext(events: seq<Outcome>, r: Report, i: nat)
    requires i < |events|
    ensures Observations(events, r)[i]
      == (events[i].code, Apply(if i == 0 then r else Observations(events, r)[i - 1].1, events[i]))
  {
    if i == 0 {
    } else {
      ObservedNext(events[1..], Apply(r, events[0]), i - 1);
    }
  }

  /** With the i-th result the client sees its code and optarg; optopt, the index
      of the long option and each flag variable are as the last result that gave
      them a value left them. */
  lemma {:induction false} ObservedAt(events: seq<Outcome>, r: Report, i: nat, f: nat)
    requires i < |events|
    ensures var seen, past := Observations(events, r)[i], events[..i + 1];
      && seen.0 == events[i].code && seen.1.optarg == events[i].optarg
      && IsLast(Optopts(past), r.optopt, seen.1.optopt)
      && IsLast(Indices(past), r.longIndex, seen.1.longIndex)
      && IsLast(Stores(past, f), Variable(r.flags, f), Variable(seen.1.flags, f))
  {
    ObservedNext(events, r, i);
    var past, e := events[..i], events[i];
    var x := if i == 0 then r else Observations(events, r)[i - 1].1;
    if i == 0 {
      assert IsLast([], r.optopt, r.optopt);
    } else {
      ObservedAt(events, r, i - 1, f);
    }
    hide IsLast;
    assert events[..i + 1] == past + [e];
    assert Optopts(past + [e]) == Optopts(past) + [Optopts([e])[0]];
    assert Indices(past + [e]) == Indices(past) + [Indices([e])[0]];
    assert Stores(past + [e], f) == Stores(past, f) + [Stores([e], f)[0]];
    LastOfNext(Optopts(past), r.optopt, x.optopt, Optopts([e])[0]);
    LastOfNext(Indices(past), r.longIndex, x.longIndex, Indices([e])[0]);
    LastOfNext(Stores(past, f), Variable(r.flags, f), Variable(x.flags, f), Stores([e], f)[0]);
  }

  // ---- Progress ------------------------------------------------------------

  /** A call that does not end the scan leaves an argument behind or reads on in
      the present one. */
  lemma {:induction false} StepProgresses(cfg: Config, v: View)
    requires WellFormed(v)
    ensures var r := Step(cfg, v);
      r.Got? ==> |r.next.rest| < |v.rest| || (r.next.rest == v.rest && v.off < r.next.off)
    decreases |v.rest|
  {
    if v.off == 0 && v.rest != [] && IsNonOption(cfg, v.rest[0]) && cfg.mode.Permute? {
      StepProgresses(cfg, v.Passed());
    }
  }

  /** No result looks like the end of the options. */
  ghost predicate NoneIsMinusOne(events: seq<Outcome>) {
    forall i :: 0 <= i < |events| ==> events[i].code != -1
  }

  /** No entry without a flag variable delivers -1. */
  ghost predicate TableOk(cfg: Config) {
    cfg.longs.Some? ==>
      forall i :: 0 <= i < |cfg.longs.value| ==> cfg.longs.value[i].flag.None? ==> cfg.longs.value[i].val != -1
  }

  lemma LongCode(cfg: Config, table: seq<LongOption>, arg: string, next: Option<string>, shortToo: bool)
    requires TableOk(cfg) && cfg.longs == Some(table)
    ensures var r := ReadLong(cfg, table, arg, next, shortToo);
      r.Some? ==> r.value.out.code != -1
  {
  }

  lemma ShortCode(cfg: Config, arg: string, off: nat, next: Option<string>, next2: Option<string>)
    requires TableOk(cfg) && off < |arg|
    ensures var r := ReadShort(cfg, arg, off, next, next2); r.Reading? ==> r.out.code != -1
  {
    hide ReadLong;
    if cfg.longs.Some? {
      LongCode(cfg, cfg.longs.value, arg[off + 1..], next, false);
      if next.Some? { LongCode(cfg, cfg.longs.value, next.value, next2, false); }
    }
  }

  lemma ReadingCode(cfg: Config, args: seq<string>, off: nat)
    requires TableOk(cfg) && args != [] && off < |args[0]|
    ensures var r := ReadFirst(cfg, args, off); r.Reading? ==> r.out.code != -1
  {
    var arg, next, next2 := args[0], Nth(args, 1), Nth(args, 2);
    ShortCode(cfg, arg, off, next, next2);
    if MayBeLong(cfg, arg, off) {
      LongCode(cfg, cfg.longs.value, LongSpelling(arg, off), next, ShortToo(cfg, arg[off]));
    }
  }

  /** With a table in which no entry delivers -1 no result looks like the end. */
  lemma {:induction false} TableOkSuffices(cfg: Config, args: seq<string>, off: nat)
    requires TableOk(cfg) && OffsetOk(args, off)
    ensures NoneIsMinusOne(Scan(cfg, args, off).events)
    decreases |args|, Unread(args, off)
  {
    if args == [] {
    } else if off == 0 && (IsNonOption(cfg, args[0]) || args[0] == "--") {
      TableOkSuffices(cfg, args[1..], 0);
    } else {
      var at := if off > 0 then off else FirstLetter(args[0]);
      ReadingCode(cfg, args, at);
      var r := ReadFirst(cfg, args, at);
      if r.Reading? {
        TableOkSuffices(cfg, args[r.used..], r.off);
      }
    }
  }

  /** What an entry with the value -1 does: as "--ab" it is found and uses one
      argument, but is taken for unknown; and as "-Wab" its -1 ends the client's
      loop before the option "-a". */
  lemma MinusOneEntry()
    ensures var table := [LongOption("ab", NO_ARGUMENT, None, -1)];
      var cfg, found := Config("abW;", Some(table), false, Permute), Outcome(-1, None, None, Some(0), None);
      && ReadLong(cfg, table, LongSpelling("--ab", 1), Some("-a"), ShortToo(cfg, '-')) == Some(Reading(found, 1, 0))
      && Step(cfg, View(["prog"], [], [], ["--ab", "-a"], 0)).Misled?
      && Scan(cfg, ["-Wab", "-a"], 0).events == [found, Plain('a' as int, None)]
  {
    var table := [LongOption("ab", NO_ARGUMENT, None, -1)];
    var cfg, found := Config("abW;", Some(table), false, Permute), Outcome(-1, None, None, Some(0), None);
    ResolveMeans(table, "ab", false);
    assert IsExact(table[0], "ab");
    assert LongName("ab") == "ab" && LongValue("ab") == None;
    assert LongSpelling("--ab", 1) == "ab" && "-Wab"[2..] == "ab";
    assert ReadLong(cfg, table, "ab", Some("-a"), false) == Some(Reading(found, 1, 0));
    assert ReadFirst(cfg, ["-Wab", "-a"], 1) == Reading(found, 1, 0);
    assert ["-Wab", "-a"][1..] == ["-a"];
    assert ReadFirst(cfg, ["-a"], 1) == Reading(Plain('a' as int, None), 1, 0);
    assert Scan(cfg, ["-a"], 0) == ScanOption(cfg, ["-a"], 1);
  }

  // ---- The calls up to -1 ----------------------------------------------------

  /** The arguments after the last exchange. */
  function Settled(o: Outlook): seq<string> {
    o.done + o.operands + o.rest
  }

  /** The arguments without it. */
  function Unsettled(o: Outlook): seq<string> {
    var front := if |o.since| <= |o.done| then o.done[..|o.done| - |o.since|] else o.done;
    front + o.operands + o.since + o.rest
  }

  /** The unread part of a scan in progress. */
  function Remaining(v: View): nat
    requires WellFormed(v)
  {
    Unread(v.rest, v.off)
  }

  /** The results before the first -1. */
  function UpToEnd(events: seq<Outcome>): seq<Outcome> {
    if events == [] || events[0].code == -1 then [] else [events[0]] + UpToEnd(events[1..])
  }

  lemma {:induction false} UpToEndIsAll(events: seq<Outcome>)
    requires NoneIsMinusOne(events)
    ensures UpToEnd(events) == events
  {
    if events == [] {
    } else {
      UpToEndIsAll(events[1..]);
    }
  }

  /** The last of the calls up to -1. */
  ghost function LastCall(cfg: Config, v: View): StepResult
    requires WellFormed(v)
    decreases |v.rest|, Remaining(v)
  {
    StepProgresses(cfg, v);
    match Step(cfg, v)
    case Got(out, next) => if out.code == -1 then Step(cfg, v) else LastCall(cfg, next)
    case r => r
  }

  /** The last call leaves the arguments where the scan says, unless it returns a
      -1 that is an option's code or takes such an option for unknown. */
  lemma {:induction false} LastCallFollowsScan(cfg: Config, v: View)
    requires WellFormed(v)
    ensures var o := Foresee(cfg, v);
      match LastCall(cfg, v)
      case Finished(f) =>
        && NoneIsMinusOne(o.events) && f.since == []
        && o.(events := []) == Outlook([], f.done, f.operands, o.since, f.rest, false)
      case StoppedAtDash(at) =>
        && NoneIsMinusOne(o.events) && WellFormed(at)
        && o.(events := []) == Outlook([], at.Options(), at.operands, at.since, at.rest, true)
      case Got(out, next) => out.code == -1 && !NoneIsMinusOne(o.events)
      case Misled => !NoneIsMinusOne(o.events)
    decreases |v.rest|, Remaining(v)
  {
    hide Step, Foresee;
    StepFollowsScan(cfg, v);
    StepProgresses(cfg, v);
    match Step(cfg, v)
    case Got(out, next) =>
      var events, rest := Foresee(cfg, v).events, Foresee(cfg, next).events;
      assert events[0] == out && forall i :: 0 <= i < |rest| ==> events[i + 1] == rest[i];
      if out.code != -1 {
        LastCallFollowsScan(cfg, next);
        assert forall i :: 0 < i < |events| ==> events[i] == rest[i - 1];
      }
    case _ =>
  }

  lemma ObserveFirst(out: Outcome, events: seq<Outcome>, seen: seq<(int, Report)>, r: Report)
    requires out.code != -1
    ensures seen + Observations(UpToEnd([out] + events), r)
      == seen + [(out.code, Apply(r, out))] + Observations(UpToEnd(events), Apply(r, out))
  {
    assert ([out] + events)[1..] == events;
    assert ([out] + UpToEnd(events))[1..] == UpToEnd(events);
  }

  lemma ObserveNone(events: seq<Outcome>, seen: seq<(int, Report)>, r: Report)
    requires events == [] || events[0].code == -1
    ensures seen + Observations(UpToEnd(events), r) == seen
  {
  }

  lemma DashLeavesUnsettled(o: Outlook, at: View)
    requires WellFormed(at) && o.done == at.Options() && o.operands == at.operands
    requires o.since == at.since && o.rest == at.rest
    ensures at.Argv() == Unsettled(o)
    ensures o.operands == [] ==> Unsettled(o) == Settled(o)
  {
  }

  /** Options, non-options and the rest, with optind behind the options. */
  ghost predicate Partitions(o: Outlook, words: seq<string>, optind: nat) {
    words == Settled(o) && optind == |o.done|
  }

  /** How a run with this last call leaves the arguments and optind. */
  ghost predicate Leaves(o: Outlook, last: StepResult, words: seq<string>, optind: nat) {
    match last
    case Got(_, _) => true
    case StoppedAtDash(_) => words == Unsettled(o) && optind == |o.done| + |o.operands|
    case _ => Partitions(o, words, optind)
  }

  lemma LastCallLeaves(cfg: Config, v: View, last: StepResult, words: seq<string>, optind: nat)
    requires WellFormed(v) && last == LastCall(cfg, v) && !last.Misled?
    requires match last
      case Got(_, _) => true
      case StoppedAtDash(at) => words == at.Argv() && optind == |at.done| + |at.operands| + |at.since|
      case Finished(f) => words == f.Argv() && optind == |f.done|
      case Misled => false
    ensures var o := Foresee(cfg, v);
      && Leaves(o, last, words, optind)
      && (NoneIsMinusOne(o.events) ==> (Partitions(o, words, optind) <==> !(o.atDash && o.operands != [])))
  {
    LastCallFollowsScan(cfg, v);
    hide Foresee, LastCall;
    if last.StoppedAtDash? {
      DashLeavesUnsettled(Foresee(cfg, v), last.at);
    }
  }

  /** A run of calls up to -1 reports what one left-to-right scan of the
      arguments finds. It leaves argv a stable partition into options,
      non-options and the arguments never looked at, with optind behind the
      options, unless it stops at an option with the code -1, or at a lone dash:
      then the last exchange is missing. If no option has that code, the
      partition is missed exactly if the run stops at a lone dash and non-options
      have been passed over. */
  method ParseAll(s: Scanner, nargc: nat, argv: array<Arg>, cfg: Config) returns (seen: seq<(int, Report)>)
    requires s.Ready(nargc, argv, cfg) && !LastCall(cfg, s.Entry(nargc, argv, cfg)).Misled?
    modifies s, argv
    ensures ArgvOk(nargc, argv) && s.optind <= Stop(nargc) && s.MarkersInRange()
    ensures var v, o := old(s.Entry(nargc, argv, cfg)), old(Foresee(cfg, s.Entry(nargc, argv, cfg)));
      && seen == Observations(UpToEnd(o.events), old(s.Reported()))
      && Leaves(o, LastCall(cfg, v), Words(nargc, argv), s.optind)
      && match LastCall(cfg, v)
         case Got(out, next) => s.Valid(nargc, argv, cfg) && s.Progress(nargc, argv) == next
         case StoppedAtDash(_) => true
         case _ => s.Valid(nargc, argv, cfg) && s.nonoptStart == UNSET && s.place.AtEnd()
    ensures var o := old(Foresee(cfg, s.Entry(nargc, argv, cfg)));
      NoneIsMinusOne(o.events) ==>
        (Partitions(o, Words(nargc, argv), s.optind) <==> !(o.atDash && o.operands != []))
  {
    hide Step, Foresee, ViewOf, Leaves, Partitions, NoneIsMinusOne, Observations, UpToEnd;
    ghost var first := s.Entry(nargc, argv, cfg);
    ghost var total := Foresee(cfg, first);
    ghost var last := LastCall(cfg, first);
    ghost var all := Observations(UpToEnd(total.events), s.Reported());
    seen := [];
    while true
      invariant s.Ready(nargc, argv, cfg)
      invariant LastCall(cfg, s.Entry(nargc, argv, cfg)) == last
      invariant Foresee(cfg, s.Entry(nargc, argv, cfg))
        == total.(events := Foresee(cfg, s.Entry(nargc, argv, cfg)).events)
      invariant all == seen + Observations(UpToEnd(Foresee(cfg, s.Entry(nargc, argv, cfg)).events), s.Reported())
      decreases |s.Entry(nargc, argv, cfg).rest|, Remaining(s.Entry(nargc, argv, cfg))
    {
      ghost var v, before := s.Entry(nargc, argv, cfg), s.Reported();
      StepFollowsScan(cfg, v);
      StepProgresses(cfg, v);
      var code;
      ghost var r;
      code, r := s.GetoptInternal(nargc, argv, cfg);
      if code == -1 {
        if r.StoppedAtDash? {
          ViewIsArgv(Words(nargc, argv), s.optind, s.nonoptStart, s.nonoptEnd, 0);
        }
        LastCallLeaves(cfg, first, r, Words(nargc, argv), s.optind);
        ObserveNone(Foresee(cfg, v).events, seen, s.Reported());
        return;
      }
      ObserveFirst(r.out, Foresee(cfg, r.next).events, seen, before);
      seen := seen + [(code, Report(s.optarg, s.optopt, s.longIndex, s.flags))];
    }
  }

  // ---- A command line from its beginning ------------------------------------

  /** No argument is lost or doubled by a run. */
  lemma SettledIsPermutation(cfg: Config, v: View)
    requires WellFormed(v)
    ensures multiset(Settled(Foresee(cfg, v))) == multiset(v.Argv())
  {
    SelectionsPartition(v.rest, Scan(cfg, v.rest, v.off).roles);
  }

  ghost function Fresh(w: seq<string>): (v: View)
    requires w != []
    ensures WellFormed(v)
  {
    ViewOf(w, 1, UNSET, UNSET, 0)
  }

  lemma FreshView(w: seq<string>)
    requires w != []
    ensures Fresh(w) == View([w[0]], [], [], w[1..], 0)
  {
    assert w[..1] == [w[0]] && w[1..1] == [];
  }

  /** What the scan of the arguments says of a run from the beginning. */
  lemma FreshRun(cfg: Config, w: seq<string>)
    requires w != []
    ensures var o, args := Foresee(cfg, Fresh(w)), w[1..];
      && o.events == Scan(cfg, args, 0).events
      && Settled(o) == [w[0]] + Rearranged(cfg, args)
      && |o.done| == 1 + |OptionsOf(cfg, args, 0)|
      && o.operands == OperandsOf(cfg, args)
      && (o.atDash <==> Scan(cfg, args, 0).ending == AtLoneDash)
  {
    FreshView(w);
    hide Scan, Select, SinceOf, Fresh;
    var args := w[1..];
    assert [w[0]] + [] + OptionsOf(cfg, args, 0) == [w[0]] + OptionsOf(cfg, args, 0);
    assert [] + OperandsOf(cfg, args) == OperandsOf(cfg, args);
    assert [w[0]] + Rearranged(cfg, args)
      == [w[0]] + OptionsOf(cfg, args, 0) + OperandsOf(cfg, args) + UntouchedOf(cfg, args);
  }

  lemma {:induction false} UpToEndIsShorter(events: seq<Outcome>)
    ensures |UpToEnd(events)| <= |events|
  {
    if events == [] {
    } else {
      UpToEndIsShorter(events[1..]);
    }
  }

  /** The loop of a program that starts with the static state as it is
      initialised, with a table of long options. */
  method ParseCommandLine(nargc: nat, argv: array<Arg>, options: string, longs: seq<LongOption>, posixlyCorrect: bool)
      returns (seen: seq<(int, Report)>, optind: nat)
    requires ArgvOk(nargc, argv)
    requires !LastCall(Configure(options, Some(longs), false, true, posixlyCorrect), Fresh(Words(nargc, argv))).Misled?
    modifies argv
    ensures var cfg := Configure(options, Some(longs), false, true, posixlyCorrect);
      var args := old(Words(nargc, argv)[1..]);
      var events := Scan(cfg, args, 0).events;
      && seen == Observations(UpToEnd(events), Report(None, '?' as int, 0, map[]))
      && |seen| <= MostEvents(cfg, args)
      && nargc < argv.Length
      && (NoneIsMinusOne(events) ==>
            && UpToEnd(events) == events
            && Words(nargc, argv) == [old(Words(nargc, argv)[0])] + Rearranged(cfg, args)
            && optind == 1 + |OptionsOf(cfg, args, 0)|)
  {
    var cfg := Configure(options, Some(longs), false, true, posixlyCorrect);
    var s := new Scanner();
    ghost var w := Words(nargc, argv);
    ghost var events := Scan(cfg, w[1..], 0).events;
    seen := ParseAll(s, nargc, argv, cfg);
    optind := s.optind;
    FreshRun(cfg, w);
    EventsBounded(cfg, w[1..], 0);
    UpToEndIsShorter(events);
    LastCallFollowsScan(cfg, Fresh(w));
    if Scan(cfg, w[1..], 0).ending == AtLoneDash {
      EndsAtDashIff(cfg, w[1..], 0);
    }
    if NoneIsMinusOne(events) {
      UpToEndIsAll(events);
    }
  }

  // ---- The order of the arguments after a lone dash --------------------------

  lemma SelectSplit(args: seq<string>, roles: seq<Role>, k: nat, role: Role)
    requires |args| == |roles| && k <= |args|
    ensures Select(args, roles, role) == Select(args[..k], roles[..k], role) + Select(args[k..], roles[k..], role)
  {
    assert args == args[..k] + args[k..] && roles == roles[..k] + roles[k..];
    SelectConcat(args[..k], args[k..], roles[..k], roles[k..], role);
  }

  lemma FrontIs(o: Outlook, front: seq<string>)
    requires o.done == front + o.since
    ensures Unsettled(o) == front + o.operands + o.since + o.rest
  {
    assert o.done[..|o.done| - |o.since|] == front;
  }

  /** The options behind the last argument passed over, in a run from the beginning. */
  lemma FreshSince(cfg: Config, w: seq<string>, k: nat)
    requires w != [] && k == BehindOperands(Scan(cfg, w[1..], 0).roles)
    ensures Foresee(cfg, Fresh(w)).since
      == if k > 0 then Select(w[1..][k..], Scan(cfg, w[1..], 0).roles[k..], OptionPart) else []
    ensures Foresee(cfg, Fresh(w)).done == [w[0]] + OptionsOf(cfg, w[1..], 0)
  {
    FreshView(w);
    hide Scan, Select, Fresh, BehindOperands;
    assert [w[0]] + [] == [w[0]];
  }

  lemma SinceEndsOptions(cfg: Config, w: seq<string>) returns (front: seq<string>)
    requires w != []
    ensures var o := Foresee(cfg, Fresh(w));
      && o.done == front + o.since && Unsettled(o) == front + o.operands + o.since + o.rest
  {
    hide Scan, Select, Fresh, Foresee, BehindOperands, Unsettled;
    var args, roles := w[1..], Scan(cfg, w[1..], 0).roles;
    var k := BehindOperands(roles);
    var o := Foresee(cfg, Fresh(w));
    FreshSince(cfg, w, k);
    if k > 0 {
      SelectSplit(args, roles, k, OptionPart);
      front := [w[0]] + Select(args[..k], roles[..k], OptionPart);
      Reassociate([w[0]], Select(args[..k], roles[..k], OptionPart), o.since);
    } else {
      front := o.done;
      assert front + [] == front;
    }
    FrontIs(o, front);
  }

  lemma BlocksDiffer(front: seq<string>, x: seq<string>, y: seq<string>, rest: seq<string>)
    requires x != [] && y != [] && x[0] != y[0]
    ensures front + x + y + rest != front + y + x + rest
  {
    assert (front + x + y + rest)[|front|] == x[0] && (front + y + x + rest)[|front|] == y[0];
  }

  /** Without the last exchange the arguments of a run from the beginning are in
      order exactly if nothing was passed over, or no option comes behind the
      last argument passed over. */
  lemma OrderKeptIff(cfg: Config, w: seq<string>)
    requires w != []
    ensures var o := Foresee(cfg, Fresh(w));
      Unsettled(o) == Settled(o) <==> o.operands == [] || o.since == []
  {
    var args, o := w[1..], Foresee(cfg, Fresh(w));
    var roles := Scan(cfg, args, 0).roles;
    var front := SinceEndsOptions(cfg, w);
    FreshRun(cfg, w);
    if o.operands != [] && o.since != [] {
      OperandsAreNonOptions(cfg, args);
      SinceBeginsWithOption(cfg, args, 0);
      FreshSince(cfg, w, BehindOperands(roles));
      BlocksDiffer(front, o.operands, o.since, o.rest);
    } else {
      assert front + o.operands + o.since == front + o.since + o.operands;
    }
  }

  lemma OperandsAreNonOptions(cfg: Config, args: seq<string>)
    ensures AllNonOptions(cfg, OperandsOf(cfg, args))
    ensures OperandsOf(cfg, args) != [] ==> cfg.mode.Permute? && Operand in Scan(cfg, args, 0).roles
  {
    var roles := Scan(cfg, args, 0).roles;
    forall i | 0 <= i < |args| && roles[i] == Operand
      ensures cfg.mode.Permute? && IsNonOption(cfg, args[i])
    {
      PassedOver(cfg, args, 0, i);
    }
    SelectedSatisfy(cfg, args, roles);
    if Operand !in roles {
      SelectNone(args, roles, Operand);
    }
  }

  // The command line "x -b -a-" for the options a and b.

  const AB := Config("ab", None, false, Permute)
  const XBA := ["prog", "x", "-b", "-a-"]

  lemma DashReadings()
    ensures ReadFirst(AB, ["-b", "-a-"], 1) == Reading(Plain('b' as int, None), 1, 0)
    ensures ReadFirst(AB, ["-a-"], 1) == Reading(Plain('a' as int, None), 0, 2)
    ensures ReadFirst(AB, ["-a-"], 2) == LoneDash
  {
  }

  lemma DashSteps()
    ensures Step(AB, View(["prog"], [], [], ["x", "-b", "-a-"], 0))
      == Got(Plain('b' as int, None), View(["prog"], ["x"], ["-b"], ["-a-"], 0))
    ensures Step(AB, View(["prog"], ["x"], ["-b"], ["-a-"], 0))
      == Got(Plain('a' as int, None), View(["prog"], ["x"], ["-b"], ["-a-"], 2))
    ensures Step(AB, View(["prog"], ["x"], ["-b"], ["-a-"], 2))
      == StoppedAtDash(View(["prog"], ["x"], ["-b"], ["-a-"], 0))
  {
    hide ReadFirst;
    DashReadings();
    assert Step(AB, View(["prog"], [], [], ["x", "-b", "-a-"], 0))
      == Step(AB, View(["prog"], ["x"], [], ["-b", "-a-"], 0));
  }

  lemma DashRun()
    ensures Fresh(XBA) == View(["prog"], [], [], ["x", "-b", "-a-"], 0)
    ensures LastCall(AB, Fresh(XBA)).StoppedAtDash?
    ensures Foresee(AB, Fresh(XBA))
      == Outlook([Plain('b' as int, None), Plain('a' as int, None)], ["prog", "-b"], ["x"], ["-b"], ["-a-"], true)
    ensures Unsettled(Foresee(AB, Fresh(XBA))) == XBA
  {
    hide Step, Foresee;
    assert ["prog"] + ["x"] + ["-b"] + ["-a-"] == XBA;
    DashSteps();
    StepFollowsScan(AB, View(["prog"], [], [], ["x", "-b", "-a-"], 0));
    StepFollowsScan(AB, View(["prog"], ["x"], ["-b"], ["-a-"], 0));
    StepFollowsScan(AB, View(["prog"], ["x"], ["-b"], ["-a-"], 2));
  }

  lemma ObserveTwo(e: Outcome, f: Outcome, r: Report)
    requires e.code != -1 && f.code != -1
    ensures var seen := Observations(UpToEnd([e, f]), r);
      |seen| == 2 && seen[0].0 == e.code && seen[1].0 == f.code
  {
    assert [e, f][1..] == [f] && UpToEnd([f]) == [f];
  }

  /** A run on that command line: it stops with the non-option in front of the
      option -b. */
  method DashSkipsExchange() returns (seen: seq<(int, Report)>, words: seq<string>, optind: nat)
    ensures |seen| == 2 && seen[0].0 == 'b' as int && seen[1].0 == 'a' as int
    ensures words == ["prog", "x", "-b", "-a-"] && optind == 3
  {
    hide Step, Foresee, LastCall, Observations, UpToEnd, Unsettled, Settled, Partitions, NoneIsMinusOne;
    var argv := new Arg[] [Str("prog"), Str("x"), Str("-b"), Str("-a-"), Null];
    var s := new Scanner();
    assert Words(4, argv) == XBA;
    DashRun();
    ObserveTwo(Plain('b' as int, None), Plain('a' as int, None), s.Reported());
    seen := ParseAll(s, 4, argv, AB);
    words, optind := WordsOf(argv[..4]), s.optind;
  }
}
