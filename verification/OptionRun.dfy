// A whole run of the scanner: a single left-to-right scan that never moves an
// argument, and what repeated calls have to do with it.
module OptionRun {
  import opened Wrappers
  import opened OptionScan

  /** The part an argument plays: an option, its argument or "--"; a non-option
      passed over; or an argument the scan never came to. */
  datatype Role = OptionPart | Operand | Untouched

  /** Why a scan comes to its end: the arguments are used up, perhaps by an
      option that still wants another one; or by "--", a non-option, or a lone
      dash among option letters. */
  datatype Ending = AtEnd | WantingArgument | AtDashes | AtNonOption | AtLoneDash

  datatype Parse = Parse(events: seq<Outcome>, roles: seq<Role>, ending: Ending)

  predicate OffsetOk(args: seq<string>, off: nat) {
    off > 0 ==> args != [] && off < |args[0]|
  }

  function Unread(args: seq<string>, off: nat): nat
    requires OffsetOk(args, off)
  {
    if args == [] then 0 else |args[0]| - off
  }

  function Repeat(role: Role, n: nat): (r: seq<Role>)
    ensures |r| == n && forall i :: 0 <= i < n ==> r[i] == role
  {
    seq(n, _ => role)
  }

  /** The option at offset `off` would use more arguments than there are. */
  predicate WantsMore(cfg: Config, args: seq<string>, off: nat)
    requires args != [] && off < |args[0]|
  {
    WouldUse(cfg, args[0], off, Nth(args, 1), Nth(args, 2)) > |args|
  }

  /** How many arguments an option uses if empty ones are added at the end. */
  function WouldUse(cfg: Config, arg: string, off: nat, next: Option<string>, next2: Option<string>): nat
    requires off < |arg|
  {
    var r := ReadOption(cfg, arg, off, Some(next.GetOr("")), Some(next2.GetOr("")));
    if r.Reading? then r.used else 0
  }

  /** The scan of `args`, the first of which has been read up to `off`. */
  function Scan(cfg: Config, args: seq<string>, off: nat): (p: Parse)
    requires OffsetOk(args, off)
    ensures |p.roles| == |args|
    decreases |args|, Unread(args, off), 1
  {
    if args == [] then
      Parse([], [], AtEnd)
    else if off > 0 then
      ScanOption(cfg, args, off)
    else if IsNonOption(cfg, args[0]) then
      match cfg.mode
      case Permute =>
        var p := Scan(cfg, args[1..], 0);
        Parse(p.events, [Operand] + p.roles, p.ending)
      case InOrder =>
        var p := Scan(cfg, args[1..], 0);
        Parse([Plain(INORDER, Some(args[0]))] + p.events, [OptionPart] + p.roles, p.ending)
      case StopAtFirst =>
        Parse([], Repeat(Untouched, |args|), AtNonOption)
    else if args[0] == "--" then
      Parse([], [OptionPart] + Repeat(Untouched, |args| - 1), AtDashes)
    else
      ScanOption(cfg, args, FirstLetter(args[0]))
  }

  function ScanOption(cfg: Config, args: seq<string>, off: nat): (p: Parse)
    requires args != [] && off < |args[0]|
    ensures |p.roles| == |args|
    decreases |args|, |args[0]| - off, 0
  {
    match ReadFirst(cfg, args, off)
    case LoneDash => Parse([], Repeat(Untouched, |args|), AtLoneDash)
    case Reading(out, used, off') =>
      var p := Scan(cfg, args[used..], off');
      Parse([out] + p.events, Repeat(OptionPart, used) + p.roles,
            if WantsMore(cfg, args, off) && p.ending == AtEnd then WantingArgument else p.ending)
  }

  /** The arguments with a given role, in their order. */
  function Select(args: seq<string>, roles: seq<Role>, role: Role): seq<string>
    requires |args| == |roles|
  {
    if args == [] then []
    else (if roles[0] == role then [args[0]] else []) + Select(args[1..], roles[1..], role)
  }

  /** How many arguments there are up to the last one passed over, 0 if none is. */
  function BehindOperands(roles: seq<Role>): (k: nat)
    ensures k <= |roles|
    ensures k == 0 <==> Operand !in roles
  {
    if roles == [] then 0
    else if roles[|roles| - 1] == Operand then |roles|
    else
      assert roles == roles[..|roles| - 1] + [roles[|roles| - 1]];
      BehindOperands(roles[..|roles| - 1])
  }

  /** The options behind the last argument passed over, if any is. */
  function SinceOf(v: View, roles: seq<Role>): seq<string>
    requires |roles| == |v.rest|
  {
    var k := BehindOperands(roles);
    if k > 0 then Select(v.rest[k..], roles[k..], OptionPart)
    else if v.operands == [] then []
    else v.since + Select(v.rest, roles, OptionPart)
  }

  /** What the scan says a run from this view on will report, where the
      arguments will end up, which options come behind the last non-option, and
      whether it stops at a lone dash. */
  datatype Outlook = Outlook(events: seq<Outcome>, done: seq<string>, operands: seq<string>, since: seq<string>,
                             rest: seq<string>, atDash: bool)

  function Foresee(cfg: Config, v: View): Outlook
    requires WellFormed(v)
  {
    var p := Scan(cfg, v.rest, v.off);
    Outlook(p.events,
            v.Options() + Select(v.rest, p.roles, OptionPart),
            v.operands + Select(v.rest, p.roles, Operand),
            SinceOf(v, p.roles),
            Select(v.rest, p.roles, Untouched),
            p.ending == AtLoneDash)
  }

  // ---- Selection ----------------------------------------------------------

  lemma Reassociate(a: seq<string>, b: seq<string>, c: seq<string>)
    ensures (a + b) + c == a + (b + c)
    ensures a + ([] + c) == a + c
  {
  }

  lemma {:induction false} SelectAll(args: seq<string>, roles: seq<Role>, role: Role, r: Role)
    requires |args| == |roles| && forall i :: 0 <= i < |roles| ==> roles[i] == r
    ensures Select(args, roles, role) == if role == r then args else []
  {
    if args == [] {
    } else {
      SelectAll(args[1..], roles[1..], role, r);
      assert [args[0]] + args[1..] == args;
    }
  }

  lemma {:induction false} SelectConcat(a: seq<string>, b: seq<string>, ra: seq<Role>, rb: seq<Role>, role: Role)
    requires |a| == |ra| && |b| == |rb|
    ensures Select(a + b, ra + rb, role) == Select(a, ra, role) + Select(b, rb, role)
  {
    if a == [] {
      assert a + b == b && ra + rb == rb;
    } else {
      assert (a + b)[1..] == a[1..] + b && (ra + rb)[1..] == ra[1..] + rb;
      SelectConcat(a[1..], b, ra[1..], rb, role);
      Reassociate(if ra[0] == role then [a[0]] else [], Select(a[1..], ra[1..], role), Select(b, rb, role));
    }
  }

  /** Arguments all used in one way drop out of the other selections. */
  lemma SelectAfter(args: seq<string>, n: nat, r: Role, roles: seq<Role>, role: Role)
    requires n <= |args| && |roles| == |args| - n
    ensures Select(args, Repeat(r, n) + roles, role)
      == (if role == r then args[..n] else []) + Select(args[n..], roles, role)
  {
    assert args[..n] + args[n..] == args;
    SelectConcat(args[..n], args[n..], Repeat(r, n), roles, role);
    SelectAll(args[..n], Repeat(r, n), role, r);
  }

  /** How often x was selected. */
  lemma {:induction false} SelectedOften(args: seq<string>, roles: seq<Role>, x: string)
    requires |args| == |roles|
    ensures multiset(Select(args, roles, OptionPart))[x] + multiset(Select(args, roles, Operand))[x]
      + multiset(Select(args, roles, Untouched))[x] == multiset(args)[x]
  {
    if args == [] {
    } else {
      SelectedOften(args[1..], roles[1..], x);
      CountedFirst(args, x);
      SelectedFirst(args, roles, OptionPart, x);
      SelectedFirst(args, roles, Operand, x);
      SelectedFirst(args, roles, Untouched, x);
    }
  }

  lemma CountedFirst(args: seq<string>, x: string)
    requires args != []
    ensures multiset(args)[x] == (if args[0] == x then 1 else 0) + multiset(args[1..])[x]
  {
    assert args == [args[0]] + args[1..];
  }

  lemma SelectedFirst(args: seq<string>, roles: seq<Role>, role: Role, x: string)
    requires |args| == |roles| && args != []
    ensures multiset(Select(args, roles, role))[x]
      == (if roles[0] == role && args[0] == x then 1 else 0) + multiset(Select(args[1..], roles[1..], role))[x]
  {
  }

  /** Every argument ends up in exactly one of the selections. */
  lemma SelectionsPartition(args: seq<string>, roles: seq<Role>)
    requires |args| == |roles|
    ensures multiset(Select(args, roles, OptionPart)) + multiset(Select(args, roles, Operand))
      + multiset(Select(args, roles, Untouched)) == multiset(args)
  {
    forall x: string
      ensures (multiset(Select(args, roles, OptionPart)) + multiset(Select(args, roles, Operand))
        + multiset(Select(args, roles, Untouched)))[x] == multiset(args)[x]
    {
      SelectedOften(args, roles, x);
    }
  }

  // ---- Calls and the scan -------------------------------------------------

  /** The scan in progress after the first arguments have played their part. */
  predicate Follows(v: View, used: nat, r: Role, off: nat, next: View)
    requires used <= |v.rest|
  {
    || (r == OptionPart && next == v.Used(used, off))
    || (r == Operand && used == 1 && off == 0 && next == v.Passed())
  }

  /** The scan's first step, in terms of what follows it. */
  lemma ScanUnfold(cfg: Config, v: View, used: nat, out: seq<Outcome>, r: Role, off: nat, next: View)
    requires WellFormed(v) && used <= |v.rest|
    requires Follows(v, used, r, off, next)
    requires WellFormed(next)
    requires var p, q := Scan(cfg, next.rest, off), Scan(cfg, v.rest, v.off);
      && q.events == out + p.events && q.roles == Repeat(r, used) + p.roles
      && (q.ending == AtLoneDash <==> p.ending == AtLoneDash)
    ensures Foresee(cfg, v) == Foresee(cfg, next).(events := out + Foresee(cfg, next).events)
  {
    hide Scan, Select, SinceOf, Repeat;
    var roles := Scan(cfg, next.rest, off).roles;
    var toOptions := if r == OptionPart then v.rest[..used] else [];
    var toOperands := if r == Operand then v.rest[..used] else [];
    ViewUnfold(v, used, r, off, next);
    SelectAfter(v.rest, used, r, roles, OptionPart);
    SelectAfter(v.rest, used, r, roles, Operand);
    SelectAfter(v.rest, used, r, roles, Untouched);
    SinceUnfold(v, used, r, off, roles, next);
    Reassociate(v.Options(), toOptions, Select(next.rest, roles, OptionPart));
    Reassociate(v.operands, toOperands, Select(next.rest, roles, Operand));
  }

  /** Arguments used go to the options, an argument passed over to the others. */
  lemma ViewUnfold(v: View, used: nat, r: Role, off: nat, next: View)
    requires WellFormed(v) && used <= |v.rest|
    requires Follows(v, used, r, off, next)
    ensures next.Options() == v.Options() + (if r == OptionPart then v.rest[..used] else [])
    ensures next.operands == v.operands + (if r == Operand then v.rest[..used] else [])
  {
    assert v.done + (v.since + v.rest[..used]) == v.done + v.since + v.rest[..used];
  }

  lemma {:induction false} BehindOperandsOf(a: seq<Role>, b: seq<Role>)
    ensures BehindOperands(a + b)
      == if BehindOperands(b) > 0 then |a| + BehindOperands(b) else BehindOperands(a)
  {
    if b == [] {
      assert a + b == a;
    } else {
      assert (a + b)[..|a + b| - 1] == a + b[..|b| - 1];
      BehindOperandsOf(a, b[..|b| - 1]);
    }
  }

  /** Something is passed over later. */
  lemma SinceLater(v: View, first: seq<Role>, roles: seq<Role>, next: View)
    requires |first| + |roles| == |v.rest| && next.rest == v.rest[|first|..] && BehindOperands(roles) > 0
    ensures SinceOf(v, first + roles) == SinceOf(next, roles)
  {
    var k, n := BehindOperands(roles), |first|;
    BehindOperandsOf(first, roles);
    hide Select, BehindOperands;
    assert v.rest[n + k..] == next.rest[k..] && (first + roles)[n + k..] == roles[k..];
  }

  /** The first argument is passed over, and no other. */
  lemma SincePassed(v: View, roles: seq<Role>)
    requires v.rest != [] && |roles| == |v.rest| - 1 && BehindOperands(roles) == 0
    ensures SinceOf(v, [Operand] + roles) == SinceOf(v.Passed(), roles)
  {
    BehindOperandsOf([Operand], roles);
    assert BehindOperands([Operand]) == 1;
    hide BehindOperands, Select;
    assert ([Operand] + roles)[1..] == roles;
    assert [] + Select(v.rest[1..], roles, OptionPart) == Select(v.rest[1..], roles, OptionPart);
  }

  /** The first arguments belong to options, and none is passed over later. */
  lemma SinceUsed(v: View, used: nat, off: nat, roles: seq<Role>)
    requires WellFormed(v) && used <= |v.rest| && |roles| == |v.rest| - used && BehindOperands(roles) == 0
    ensures SinceOf(v, Repeat(OptionPart, used) + roles) == SinceOf(v.Used(used, off), roles)
  {
    BehindOperandsOf(Repeat(OptionPart, used), roles);
    assert BehindOperands(Repeat(OptionPart, used)) == 0;
    hide BehindOperands, Select;
    SelectAfter(v.rest, used, OptionPart, roles, OptionPart);
    Reassociate(v.since, v.rest[..used], Select(v.rest[used..], roles, OptionPart));
  }

  lemma SinceUnfold(v: View, used: nat, r: Role, off: nat, roles: seq<Role>, next: View)
    requires WellFormed(v) && used <= |v.rest| && |roles| == |v.rest| - used
    requires Follows(v, used, r, off, next)
    ensures SinceOf(v, Repeat(r, used) + roles) == SinceOf(next, roles)
  {
    hide SinceOf, BehindOperands;
    if BehindOperands(roles) > 0 {
      SinceLater(v, Repeat(r, used), roles, next);
    } else if r == Operand {
      assert Repeat(Operand, 1) == [Operand];
      SincePassed(v, roles);
    } else {
      SinceUsed(v, used, off, roles);
    }
  }

  /** A call reports the next event of the scan and leaves the rest of it to the
      calls that follow; the last call leaves what the scan says. */
  lemma {:induction false} StepFollowsScan(cfg: Config, v: View)
    requires WellFormed(v)
    ensures match Step(cfg, v)
      case Got(out, next) =>
        && Foresee(cfg, v).events == [out] + Foresee(cfg, next).events
        && Foresee(cfg, v) == Foresee(cfg, next).(events := Foresee(cfg, v).events)
      case Finished(f) =>
        && f.since == []
        && Foresee(cfg, v) == Outlook([], f.done, f.operands, Foresee(cfg, v).since, f.rest, false)
      case StoppedAtDash(at) =>
        && at.off == 0 && WellFormed(at)
        && Foresee(cfg, v) == Outlook([], at.Options(), at.operands, at.since, at.rest, true)
      case Misled => Foresee(cfg, v).events != [] && Foresee(cfg, v).events[0].code == -1
    decreases |v.rest|
  {
    if v.off > 0 {
      OptionStep(cfg, v, v.off);
    } else if v.rest == [] {
    } else {
      var arg := v.rest[0];
      if IsNonOption(cfg, arg) {
        match cfg.mode
        case Permute =>
          PassingStep(cfg, v);
          StepFollowsScan(cfg, v.Passed());
        case InOrder =>
          assert Repeat(OptionPart, 1) == [OptionPart];
          ScanUnfold(cfg, v, 1, [Plain(INORDER, Some(arg))], OptionPart, 0, v.Used(1, 0));
        case StopAtFirst =>
          AllUntouched(v, |v.rest|);
      } else if arg == "--" {
        LastStep(cfg, v);
      } else {
        OptionStep(cfg, v, FirstLetter(arg));
      }
    }
  }

  lemma PassingStep(cfg: Config, v: View)
    requires WellFormed(v) && v.off == 0 && v.rest != [] && IsNonOption(cfg, v.rest[0]) && cfg.mode.Permute?
    ensures Foresee(cfg, v) == Foresee(cfg, v.Passed()) && Step(cfg, v) == Step(cfg, v.Passed())
  {
    assert Repeat(Operand, 1) == [Operand];
    ScanUnfold(cfg, v, 1, [], Operand, 0, v.Passed());
  }

  lemma LastStep(cfg: Config, v: View)
    requires WellFormed(v) && v.off == 0 && v.rest != [] && v.rest[0] == "--"
    ensures var f := v.Used(1, 0).Settled();
      && Step(cfg, v) == Finished(f)
      && Foresee(cfg, v) == Outlook([], f.done, f.operands, Foresee(cfg, v).since, f.rest, false)
  {
    SelectTail(v.rest);
    ViewUnfold(v, 1, OptionPart, 0, v.Used(1, 0));
    assert v.rest[..1] == ["--"];
  }

  lemma OptionStep(cfg: Config, v: View, off: nat)
    requires WellFormed(v) && v.rest != [] && off < |v.rest[0]|
    requires Scan(cfg, v.rest, v.off) == ScanOption(cfg, v.rest, off)
    requires Step(cfg, v) == ReadStep(cfg, v, off)
    ensures match Step(cfg, v)
      case Got(out, next) =>
        && Foresee(cfg, v).events == [out] + Foresee(cfg, next).events
        && Foresee(cfg, v) == Foresee(cfg, next).(events := Foresee(cfg, v).events)
      case Finished(f) => false
      case StoppedAtDash(at) =>
        && at.off == 0 && WellFormed(at)
        && Foresee(cfg, v) == Outlook([], at.Options(), at.operands, at.since, at.rest, true)
      case Misled => Foresee(cfg, v).events != [] && Foresee(cfg, v).events[0].code == -1
  {
    var r := ReadFirst(cfg, v.rest, off);
    if r.Reading? {
      ScanUnfold(cfg, v, r.used, [r.out], OptionPart, r.off, AfterReading(v, r).next);
    } else {
      AllUntouched(v, |v.rest|);
    }
  }

  lemma AllUntouched(v: View, n: nat)
    requires n == |v.rest|
    ensures forall role :: Select(v.rest, Repeat(Untouched, n), role) == if role == Untouched then v.rest else []
  {
    forall role {
      SelectAll(v.rest, Repeat(Untouched, n), role, Untouched);
    }
  }

  lemma SelectTail(args: seq<string>)
    requires args != []
    ensures var roles := [OptionPart] + Repeat(Untouched, |args| - 1);
      && Select(args, roles, OptionPart) == [args[0]]
      && Select(args, roles, Operand) == []
      && Select(args, roles, Untouched) == args[1..]
  {
    SelectAll(args[1..], Repeat(Untouched, |args| - 1), OptionPart, Untouched);
    SelectAll(args[1..], Repeat(Untouched, |args| - 1), Operand, Untouched);
    SelectAll(args[1..], Repeat(Untouched, |args| - 1), Untouched, Untouched);
  }

  // ---- The exit that skips the final permutation ---------------------------

  /** A group of option letters ends in a '-' that is no option letter. */
  predicate DashEndsGroup(cfg: Config, arg: string, off: nat) {
    cfg.longs.None? && off > 0 && off + 1 == |arg| && arg[off] == '-' && '-' !in cfg.options
  }

  /** A call stops at a '-' exactly if there is no table of long options and it
      goes on within a group of letters, at a dash that ends the group and is no
      option letter; never if it begins with a new argument. */
  lemma {:induction false} StopsAtDashIff(cfg: Config, v: View)
    requires WellFormed(v)
    ensures Step(cfg, v).StoppedAtDash? <==> v.off > 0 && DashEndsGroup(cfg, v.rest[0], v.off)
    decreases |v.rest|
  {
    if v.off == 0 && v.rest != [] && IsNonOption(cfg, v.rest[0]) && cfg.mode.Permute? {
      StopsAtDashIff(cfg, v.Passed());
    }
  }

  lemma NeverStopsAtDash(cfg: Config, v: View)
    requires WellFormed(v) && cfg.longs.Some?
    ensures !Step(cfg, v).StoppedAtDash?
  {
    StopsAtDashIff(cfg, v);
  }

  // ---- How many calls -----------------------------------------------------

  function Letters(args: seq<string>): nat {
    if args == [] then 0 else |args[0]| + Letters(args[1..])
  }

  lemma {:induction false} LettersSplit(args: seq<string>, n: nat)
    requires n <= |args|
    ensures Letters(args) == Letters(args[..n]) + Letters(args[n..])
  {
    if n == 0 {
      assert args[..0] == [] && args[0..] == args;
    } else {
      LettersSplit(args[1..], n - 1);
      assert args[..n][1..] == args[1..][..n - 1] && args[n..] == args[1..][n - 1..];
    }
  }

  /** No more results other than -1 than there are unread characters, and with
      non-options returned in order, arguments. */
  function MostEvents(cfg: Config, args: seq<string>): nat {
    Letters(args) + if cfg.mode.InOrder? then |args| else 0
  }

  lemma {:induction false} EventsBounded(cfg: Config, args: seq<string>, off: nat)
    requires OffsetOk(args, off)
    ensures |Scan(cfg, args, off).events| <= MostEvents(cfg, args) - off
    decreases |args|, Unread(args, off), 1
  {
    if args == [] {
    } else if off > 0 {
      OptionEventsBounded(cfg, args, off);
    } else if IsNonOption(cfg, args[0]) {
      EventsBounded(cfg, args[1..], 0);
    } else if args[0] != "--" {
      OptionEventsBounded(cfg, args, FirstLetter(args[0]));
    }
  }

  lemma {:induction false} OptionEventsBounded(cfg: Config, args: seq<string>, off: nat)
    requires args != [] && off < |args[0]|
    ensures |ScanOption(cfg, args, off).events| <= MostEvents(cfg, args) - off
    decreases |args|, |args[0]| - off, 0
  {
    var r := ReadFirst(cfg, args, off);
    if r.Reading? {
      EventsBounded(cfg, args[r.used..], r.off);
      LettersSplit(args, r.used);
      if r.used > 0 { assert args[..r.used][0] == args[0]; }
    }
  }

  // ---- Which argument plays which part ------------------------------------

  /** What a scan does with what it finds first: it stops there, or goes on
      behind the arguments used or passed over. */
  datatype Move = Stops | GoesOn(used: nat, off: nat)

  function Onward(cfg: Config, args: seq<string>, off: nat): (m: Move)
    requires OffsetOk(args, off)
    ensures m.GoesOn? ==>
      && args != [] && m.used <= |args| && OffsetOk(args[m.used..], m.off)
      && (m.used > 0 || off < m.off)
  {
    if args == [] then Stops
    else if off == 0 && IsNonOption(cfg, args[0]) then if cfg.mode.StopAtFirst? then Stops else GoesOn(1, 0)
    else if off == 0 && args[0] == "--" then Stops
    else
      var r := ReadFirst(cfg, args, if off > 0 then off else FirstLetter(args[0]));
      if r.Reading? then GoesOn(r.used, r.off) else Stops
  }

  /** A scan that goes on at offset `off` of the first argument comes to offset
      `at` of argument k, all before it being read as options or passed over. */
  ghost predicate ComesTo(cfg: Config, args: seq<string>, off: nat, k: nat, at: nat)
    requires OffsetOk(args, off)
    decreases |args|, Unread(args, off)
  {
    || (k == 0 && at == off)
    || (var m := Onward(cfg, args, off);
        m.GoesOn? && m.used <= k && ComesTo(cfg, args[m.used..], m.off, k - m.used, at))
  }

  /** The scan comes to a lone dash at the end of argument k. */
  ghost predicate MeetsDash(cfg: Config, args: seq<string>, off: nat, k: nat)
    requires OffsetOk(args, off)
  {
    && k < |args| && args[k] != ""
    && ComesTo(cfg, args, off, k, |args[k]| - 1) && DashEndsGroup(cfg, args[k], |args[k]| - 1)
  }

  /** A reason for a scan that has come to offset `at` of argument c to end
      there, all from argument k on being left alone. */
  predicate MayStop(cfg: Config, args: seq<string>, ending: Ending, c: nat, at: nat, k: nat) {
    match ending
    case AtEnd => k == c == |args| && at == 0
    case WantingArgument => k == c == |args| && at == 0
    case AtDashes => c < |args| && args[c] == "--" && at == 0 && k == c + 1
    case AtNonOption => k == c < |args| && at == 0 && cfg.mode.StopAtFirst? && IsNonOption(cfg, args[c])
    case AtLoneDash => k == c < |args| && DashEndsGroup(cfg, args[c], at)
  }

  ghost predicate UntouchedFrom(roles: seq<Role>, k: nat) {
    k <= |roles| && forall i :: 0 <= i < |roles| ==> (roles[i] == Untouched <==> k <= i)
  }

  function RoleOfFirst(cfg: Config, args: seq<string>, off: nat): Role
    requires args != []
  {
    if off == 0 && IsNonOption(cfg, args[0]) && cfg.mode.Permute? then Operand else OptionPart
  }

  /** What the scan finds first, and what it finds from there on. */
  lemma ScanOnward(cfg: Config, args: seq<string>, off: nat, used: nat, off': nat)
    requires OffsetOk(args, off) && Onward(cfg, args, off) == GoesOn(used, off')
    ensures var p, q := Scan(cfg, args[used..], off'), Scan(cfg, args, off);
      && q.roles == Repeat(RoleOfFirst(cfg, args, off), used) + p.roles
      && (q.ending == p.ending || (p.ending == AtEnd && q.ending == WantingArgument))
  {
    if off == 0 && IsNonOption(cfg, args[0]) {
      assert Repeat(Operand, 1) == [Operand] && Repeat(OptionPart, 1) == [OptionPart];
    }
  }

  lemma ComesOnward(cfg: Config, args: seq<string>, off: nat, m: Move, k: nat, at: nat)
    requires OffsetOk(args, off) && m == Onward(cfg, args, off) && m.GoesOn?
    requires k >= m.used && ComesTo(cfg, args[m.used..], m.off, k - m.used, at)
    ensures ComesTo(cfg, args, off, k, at)
  {
  }

  /** How a scan ends: its ending has a reason, and it leaves the arguments from
      k on alone. */
  ghost predicate StopsAt(cfg: Config, args: seq<string>, p: Parse, c: nat, at: nat, k: nat) {
    MayStop(cfg, args, p.ending, c, at, k) && UntouchedFrom(p.roles, k)
  }

  lemma StopsOnward(cfg: Config, args: seq<string>, off: nat, m: Move, c: nat, at: nat, k: nat)
    requires OffsetOk(args, off) && m == Onward(cfg, args, off) && m.GoesOn? && m.used <= c && m.used <= k
    requires StopsAt(cfg, args[m.used..], Scan(cfg, args[m.used..], m.off), c - m.used, at, k - m.used)
    ensures StopsAt(cfg, args, Scan(cfg, args, off), c, at, k)
  {
    ScanOnward(cfg, args, off, m.used, m.off);
  }

  lemma StopsHere(cfg: Config, args: seq<string>, off: nat) returns (k: nat)
    requires OffsetOk(args, off) && Onward(cfg, args, off).Stops?
    ensures var p := Scan(cfg, args, off);
      StopsAt(cfg, args, p, 0, off, k)
  {
    k := if Scan(cfg, args, off).ending == AtDashes then 1 else 0;
  }

  /** The scan ends at a "--" that is no option's argument, at the first
      non-option if that is asked for, at a lone dash, or at the end: it comes to
      argument c and leaves those from k on alone. */
  lemma {:induction false} ScanRoles(cfg: Config, args: seq<string>, off: nat) returns (c: nat, at: nat, k: nat)
    requires OffsetOk(args, off)
    ensures ComesTo(cfg, args, off, c, at)
    ensures StopsAt(cfg, args, Scan(cfg, args, off), c, at, k)
    decreases |args|, Unread(args, off)
  {
    hide Scan, Onward, StopsAt;
    var m := Onward(cfg, args, off);
    if m.Stops? {
      c, at := 0, off;
      k := StopsHere(cfg, args, off);
    } else {
      c, at, k := ScanRoles(cfg, args[m.used..], m.off);
      c, k := m.used + c, m.used + k;
      ComesOnward(cfg, args, off, m, c, at);
      StopsOnward(cfg, args, off, m, c, at, k);
    }
  }

  lemma RoleAt(all: seq<Role>, role: Role, used: nat, roles: seq<Role>, i: nat)
    requires all == Repeat(role, used) + roles && i < |all|
    ensures all[i] == if i < used then role else roles[i - used]
  {
  }

  lemma NothingPassed(cfg: Config, args: seq<string>, off: nat, i: nat)
    requires OffsetOk(args, off) && Onward(cfg, args, off).Stops? && i < |args|
    ensures Scan(cfg, args, off).roles[i] != Operand
  {
  }

  /** What the scan passes over are non-options, and only when permuting. */
  lemma {:induction false} PassedOver(cfg: Config, args: seq<string>, off: nat, i: nat)
    requires OffsetOk(args, off) && i < |args| && Scan(cfg, args, off).roles[i] == Operand
    ensures cfg.mode.Permute? && IsNonOption(cfg, args[i])
    decreases |args|, Unread(args, off)
  {
    hide Scan, ReadFirst, Repeat;
    var m := Onward(cfg, args, off);
    if m.Stops? {
      NothingPassed(cfg, args, off, i);
    } else {
      var p := Scan(cfg, args[m.used..], m.off);
      ScanOnward(cfg, args, off, m.used, m.off);
      RoleAt(Scan(cfg, args, off).roles, RoleOfFirst(cfg, args, off), m.used, p.roles, i);
      if m.used <= i {
        PassedOver(cfg, args[m.used..], m.off, i - m.used);
      }
    }
  }

  /** Where the options selected begin, if nothing is passed over. */
  lemma FirstSelected(cfg: Config, args: seq<string>)
    requires cfg.mode.Permute? && Operand !in Scan(cfg, args, 0).roles
    requires Select(args, Scan(cfg, args, 0).roles, OptionPart) != []
    ensures !IsNonOption(cfg, Select(args, Scan(cfg, args, 0).roles, OptionPart)[0])
  {
    var roles := Scan(cfg, args, 0).roles;
    assert roles[0] in roles;
    if roles[0] == Untouched {
      var c, at, k := ScanRoles(cfg, args, 0);
      SelectAll(args, roles, OptionPart, Untouched);
    }
  }

  /** The options behind the last argument passed over begin with an argument that
      is no non-option. */
  lemma {:induction false} SinceBeginsWithOption(cfg: Config, args: seq<string>, off: nat)
    requires OffsetOk(args, off) && cfg.mode.Permute?
    ensures var roles := Scan(cfg, args, off).roles;
      var since := Select(args[BehindOperands(roles)..], roles[BehindOperands(roles)..], OptionPart);
      Operand in roles && since != [] ==> !IsNonOption(cfg, since[0])
    decreases |args|, Unread(args, off)
  {
    hide Scan, ReadFirst, Repeat, Select;
    var roles := Scan(cfg, args, off).roles;
    var k := BehindOperands(roles);
    if k == 0 || Select(args[k..], roles[k..], OptionPart) == [] { return; }
    var m := Onward(cfg, args, off);
    if m.Stops? {
      var i :| 0 <= i < |roles| && roles[i] == Operand;
      NothingPassed(cfg, args, off, i);
    } else {
      var first, p := Repeat(RoleOfFirst(cfg, args, off), m.used), Scan(cfg, args[m.used..], m.off).roles;
      ScanOnward(cfg, args, off, m.used, m.off);
      BehindOperandsOf(first, p);
      if BehindOperands(p) > 0 {
        assert args[k..] == args[m.used..][k - m.used..] && roles[k..] == p[k - m.used..];
        SinceBeginsWithOption(cfg, args[m.used..], m.off);
      } else {
        assert Operand in first by { assert BehindOperands(first) > 0; }
        RepeatedRole(RoleOfFirst(cfg, args, off), m.used, Operand);
        assert k == 1 && roles[1..] == p;
        FirstSelected(cfg, args[1..]);
      }
    }
  }

  lemma RepeatedRole(role: Role, n: nat, r: Role)
    requires r in Repeat(role, n)
    ensures r == role
  {
  }

  lemma DashHere(cfg: Config, args: seq<string>, off: nat)
    requires args != [] && DashEndsGroup(cfg, args[0], off)
    ensures Scan(cfg, args, off).ending == AtLoneDash
  {
  }

  lemma ComesFurther(cfg: Config, args: seq<string>, off: nat, k: nat, at: nat) returns (used: nat, off': nat)
    requires OffsetOk(args, off) && ComesTo(cfg, args, off, k, at) && !(k == 0 && at == off)
    ensures Onward(cfg, args, off) == GoesOn(used, off') && used <= k
    ensures ComesTo(cfg, args[used..], off', k - used, at)
  {
    used, off' := Onward(cfg, args, off).used, Onward(cfg, args, off).off;
  }

  lemma {:induction false} ReachedDash(cfg: Config, args: seq<string>, off: nat, k: nat, at: nat)
    requires OffsetOk(args, off) && ComesTo(cfg, args, off, k, at)
    requires k < |args| && DashEndsGroup(cfg, args[k], at)
    ensures Scan(cfg, args, off).ending == AtLoneDash
    decreases |args|, Unread(args, off)
  {
    if k == 0 && at == off {
      DashHere(cfg, args, off);
    } else {
      var used, off' := ComesFurther(cfg, args, off, k, at);
      assert args[used..][k - used] == args[k];
      ReachedDash(cfg, args[used..], off', k - used, at);
      ScanOnward(cfg, args, off, used, off');
    }
  }

  /** A whole run stops at a lone dash exactly if the scan comes to one. */
  lemma EndsAtDashIff(cfg: Config, args: seq<string>, off: nat)
    requires OffsetOk(args, off)
    ensures Scan(cfg, args, off).ending == AtLoneDash <==> exists k: nat :: MeetsDash(cfg, args, off, k)
  {
    if Scan(cfg, args, off).ending == AtLoneDash {
      var c, at, k := ScanRoles(cfg, args, off);
      assert MeetsDash(cfg, args, off, k);
    }
    if k: nat :| MeetsDash(cfg, args, off, k) {
      ReachedDash(cfg, args, off, k, |args[k]| - 1);
    }
  }
}
