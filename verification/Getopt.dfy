// console_logger/getopt.h: the scanner with its static state, which permutes
// argv lazily and in place.
module Getopt {
  import opened Wrappers
  import opened Permutation
  import opened LongOptions
  import opened OptionScan
  import opened ArgvLayout

  /** An element of argv: a string, or the null pointer behind the last one. */
  datatype Arg = Null | Str(text: string)

  /** A pointer into an argument, `off` characters behind its beginning. */
  datatype Pointer = Pointer(text: string, off: nat) {
    predicate AtEnd() { off >= |text| }

    function Char(): char { CharAt(text, off) }

    function Advanced(n: nat): Pointer { Pointer(text, off + n) }

    function Rest(): string { if AtEnd() then "" else text[off..] }
  }

  const EMSG := Pointer("", 0)

  function TextOf(a: Arg): string {
    match a
    case Null => ""
    case Str(text) => text
  }

  function WordsOf(s: seq<Arg>): (w: seq<string>)
    ensures |w| == |s| && forall i :: 0 <= i < |s| ==> w[i] == TextOf(s[i])
  {
    seq(|s|, i requires 0 <= i < |s| => TextOf(s[i]))
  }

  /** How far optind may get; it starts at 1 even if argv is empty. */
  function Stop(nargc: nat): nat {
    if nargc == 0 then 1 else nargc
  }

  ghost predicate ArgvOk(nargc: nat, argv: array<Arg>)
    reads argv
  {
    && nargc < argv.Length && argv[nargc] == Null
    && forall i :: 0 <= i < nargc ==> argv[i].Str?
  }

  ghost function Words(nargc: nat, argv: array<Arg>): (w: seq<string>)
    requires nargc < argv.Length
    reads argv
    ensures |w| == Stop(nargc)
  {
    WordsOf(argv[..Stop(nargc)])
  }

  /** The i-th argument, if there is one. */
  ghost function ArgAt(nargc: nat, argv: array<Arg>, i: nat): Option<string>
    requires nargc < argv.Length
    reads argv
  {
    if i < nargc then Some(TextOf(argv[i])) else None
  }

  lemma ArgAtIsNth(nargc: nat, argv: array<Arg>, i: nat)
    requires ArgvOk(nargc, argv) && 0 < nargc
    ensures ArgAt(nargc, argv, i) == Nth(Words(nargc, argv), i)
  {
  }

  lemma ExchangedAt<T>(s: seq<T>, start: nat, mid: nat, end: nat, i: nat)
    requires start <= mid <= end <= |s| && i < |s|
    ensures |Exchanged(s, start, mid, end)| == |s|
    ensures Exchanged(s, start, mid, end)[i]
      == s[if start <= i < start + (end - mid) then i + (mid - start)
           else if start + (end - mid) <= i < end then i - (end - mid) else i]
  {
  }

  /** An exchange of blocks of argv, seen on the words. */
  lemma ExchangeWords(before: seq<Arg>, start: nat, mid: nat, end: nat, stop: nat)
    requires start <= mid <= end <= stop <= |before|
    ensures |Exchanged(before, start, mid, end)| == |before|
    ensures WordsOf(Exchanged(before, start, mid, end)[..stop])
      == Exchanged(WordsOf(before[..stop]), start, mid, end)
  {
    var x := WordsOf(Exchanged(before, start, mid, end)[..stop]);
    var y := Exchanged(WordsOf(before[..stop]), start, mid, end);
    forall i | 0 <= i < stop
      ensures x[i] == y[i]
    {
      ExchangedAt(before, start, mid, end, i);
      ExchangedAt(WordsOf(before[..stop]), start, mid, end, i);
    }
    assert |x| == stop == |y|;
  }

  /** An exchange keeps argv a list of strings with a null pointer behind it. */
  lemma ExchangeKeepsArgs(before: seq<Arg>, start: nat, mid: nat, end: nat, nargc: nat)
    requires start <= mid <= end <= Stop(nargc) && nargc < |before| && start > 0
    requires before[nargc] == Null && forall i :: 0 <= i < nargc ==> before[i].Str?
    ensures var after := Exchanged(before, start, mid, end);
      && |after| == |before| && after[nargc] == Null && forall i :: 0 <= i < nargc ==> after[i].Str?
  {
    forall i | 0 <= i <= nargc
      ensures |Exchanged(before, start, mid, end)| == |before|
      ensures Exchanged(before, start, mid, end)[i].Str? <==> i < nargc
    {
      ExchangedAt(before, start, mid, end, i);
    }
  }

  /** What a call leaves in the variables it reports through. */
  datatype Report = Report(optarg: Option<string>, optopt: int, longIndex: int, flags: map<nat, int>)

  function Apply(r: Report, out: Outcome): Report {
    Report(out.optarg,
           out.optopt.GetOr(r.optopt),
           if out.index.Some? then out.index.value else r.longIndex,
           if out.store.Some? then r.flags[out.store.value.0 := out.store.value.1] else r.flags)
  }

  class Scanner {
    var optind: nat
    var optopt: int
    var optarg: Option<string>
    var optreset: bool
    var longIndex: int
    var flags: map<nat, int>
    var place: Pointer
    var nonoptStart: int
    var nonoptEnd: int

    constructor ()
      ensures optind == 1 && !optreset && optarg == None && optopt == '?' as int
      ensures place == EMSG && nonoptStart == UNSET && nonoptEnd == UNSET
      ensures longIndex == 0 && flags == map[]
    {
      optind, optreset, optopt, optarg := 1, false, '?' as int, None;
      longIndex, flags := 0, map[];
      place, nonoptStart, nonoptEnd := EMSG, UNSET, UNSET;
    }

    ghost function Reported(): Report
      reads this
    {
      Report(optarg, optopt, longIndex, flags)
    }

    /** How far the argument at optind has been read. */
    ghost function Offset(): nat
      reads this
    {
      if place.AtEnd() then 0 else place.off
    }

    /** place has come to offset off of text, or to no argument at all. */
    ghost predicate PlaceIs(text: string, off: nat)
      reads this
    {
      if off == 0 then place.AtEnd() else place == Pointer(text, off)
    }

    /** The state between calls. */
    ghost predicate Valid(nargc: nat, argv: array<Arg>, cfg: Config)
      reads this, argv
    {
      && ArgvOk(nargc, argv) && !optreset
      && MarkersOk(Words(nargc, argv), optind, nonoptStart, nonoptEnd, Offset())
      && (!place.AtEnd() ==> place.off > 0 && place.text == Words(nargc, argv)[optind])
      && (!cfg.mode.Permute? ==> nonoptStart == UNSET)
    }

    /** The state before a call: that between calls, or one to be reset. */
    ghost predicate Ready(nargc: nat, argv: array<Arg>, cfg: Config)
      reads this, argv
    {
      && ArgvOk(nargc, argv)
      && if optind == 0 then true
         else if optreset then optind <= Stop(nargc)
         else Valid(nargc, argv, cfg)
    }

    /** optind has been set to a place behind the end of argv. */
    ghost predicate Overrun(nargc: nat)
      reads this
    {
      && optind > Stop(nargc)
      && (optreset || (place.AtEnd() && nonoptStart == UNSET && nonoptEnd == UNSET))
    }

    /** The scan in progress, as lists. */
    ghost function Progress(nargc: nat, argv: array<Arg>): View
      requires nargc < argv.Length
      requires MarkersOk(Words(nargc, argv), optind, nonoptStart, nonoptEnd, Offset())
      reads this, argv
    {
      ViewOf(Words(nargc, argv), optind, nonoptStart, nonoptEnd, Offset())
    }

    /** The scan that the next call goes on with. */
    ghost function Entry(nargc: nat, argv: array<Arg>, cfg: Config): (v: View)
      requires Ready(nargc, argv, cfg)
      reads this, argv
      ensures WellFormed(v)
    {
      if optind == 0 then ViewOf(Words(nargc, argv), 1, UNSET, UNSET, 0)
      else if optreset then ViewOf(Words(nargc, argv), optind, UNSET, UNSET, 0)
      else Progress(nargc, argv)
    }

    /** A reset forgets what was passed over and read, and begins with the argument
        at optind, or with the first one if optind is 0. */
    lemma ResetBeginsAnew(nargc: nat, argv: array<Arg>, cfg: Config)
      requires Ready(nargc, argv, cfg) && (optind == 0 || optreset)
      ensures var first, w := if optind == 0 then 1 else optind, Words(nargc, argv);
        first <= |w| && Entry(nargc, argv, cfg) == View(w[..first], [], [], w[first..], 0)
    {
      var first, w := if optind == 0 then 1 else optind, Words(nargc, argv);
      assert w[first..first] == [];
    }

    // ---- console_logger/getopt.h:278-393, parse_long_options ---------------

    /** The part of parse_long_options that follows the look-up of the name. */
    method TakeMatch(nargc: nat, argv: array<Arg>, cfg: Config, table: seq<LongOption>, m: Match,
                     value: Option<string>, shortToo: bool, ghost next: Option<string>) returns (code: int)
      requires ArgvOk(nargc, argv) && 1 <= optind <= nargc && optarg == None
      requires next == ArgAt(nargc, argv, optind)
      requires m.Found? ==> m.index < |table|
      modifies this`optind, this`optarg, this`optopt, this`longIndex, this`flags
      ensures match ReadMatch(cfg, table, m, value, next, shortToo)
        case Some(r) =>
          && code == r.out.code && optind == old(optind) - 1 + r.used
          && Reported() == Apply(old(Reported()), r.out)
        case None => code == -1 && optind == old(optind) - 1 && Reported() == old(Reported())
    {
      if m.Ambiguous? {
        optopt := 0;
        return BADCH;
      }
      if m.Unknown? {
        if shortToo {
          optind := optind - 1;
          return -1;
        }
        optopt := 0;
        return BADCH;
      }
      var o := table[m.index];
      if o.hasArg == NO_ARGUMENT && value.Some? {
        optopt := if o.flag.None? then o.val else 0;
        return BadArg(cfg);
      }
      if o.hasArg == REQUIRED_ARGUMENT || o.hasArg == OPTIONAL_ARGUMENT {
        if value.Some? {
          optarg := value;
        } else if o.hasArg == REQUIRED_ARGUMENT {
          // reads the null pointer behind the last argument if none is left
          optarg := if argv[optind].Str? then Some(argv[optind].text) else None;
          optind := optind + 1;
        }
      }
      if o.hasArg == REQUIRED_ARGUMENT && optarg.None? {
        optopt := if o.flag.None? then o.val else 0;
        optind := optind - 1;
        return BadArg(cfg);
      }
      longIndex := m.index;
      if o.flag.Some? {
        flags := flags[o.flag.value := o.val];
        return 0;
      }
      return o.val;
    }

    method ParseLongOptions(nargc: nat, argv: array<Arg>, cfg: Config, table: seq<LongOption>, shortToo: bool,
                            ghost next: Option<string>) returns (code: int)
      requires ArgvOk(nargc, argv) && optind < nargc && optarg == None
      requires next == ArgAt(nargc, argv, optind + 1)
      modifies this`optind, this`optarg, this`optopt, this`longIndex, this`flags
      ensures match ReadLong(cfg, table, place.Rest(), next, shortToo)
        case Some(r) =>
          && code == r.out.code && optind == old(optind) + r.used
          && Reported() == Apply(old(Reported()), r.out)
        case None => code == -1 && optind == old(optind) && Reported() == old(Reported())
    {
      var current := place.Rest();
      optind := optind + 1;
      var eq := IndexOf(current, '=');
      var value := if eq.Some? then Some(current[eq.value + 1..]) else None;
      assert value == LongValue(current);
      var m := LookUp(table, if eq.Some? then current[..eq.value] else current, shortToo);
      code := TakeMatch(nargc, argv, cfg, table, m, value, shortToo, next);
    }

    // ---- console_logger/getopt.h:527-581, a short option -------------------

    /** Lines 560-579: a letter that takes an argument. */
    method TakeArgument(nargc: nat, argv: array<Arg>, cfg: Config, optional: bool, optchar: char,
                        ghost next: Option<string>) returns (code: int)
      requires ArgvOk(nargc, argv) && optind < nargc && optarg == None
      requires next == ArgAt(nargc, argv, optind + 1)
      requires 0 < place.off <= |place.text| && place.text[place.off - 1] == optchar
      modifies this`place, this`optind, this`optarg, this`optopt
      ensures var r := ReadArgument(cfg, old(place.text), old(place.off) - 1, optional, next);
        && code == r.out.code && optind == old(optind) + r.used && place == EMSG
        && Reported() == Apply(old(Reported()), r.out)
    {
      if !place.AtEnd() {
        optarg := Some(place.Rest());
      } else if !optional {
        optind := optind + 1;
        if optind >= nargc {
          place := EMSG;
          optopt := optchar as int;
          return BadArg(cfg);
        }
        optarg := Some(argv[optind].text);
      }
      place := EMSG;
      optind := optind + 1;
      return optchar as int;
    }

    /** Lines 545-558: -W. */
    method TakeW(nargc: nat, argv: array<Arg>, cfg: Config, table: seq<LongOption>, optchar: char,
                 ghost next: Option<string>, ghost next2: Option<string>) returns (code: int)
      requires ArgvOk(nargc, argv) && optind < nargc && optarg == None
      requires next == ArgAt(nargc, argv, optind + 1) && next2 == ArgAt(nargc, argv, optind + 2)
      requires 0 < place.off <= |place.text| && place.text[place.off - 1] == optchar
      modifies this`place, this`optind, this`optarg, this`optopt, this`longIndex, this`flags
      ensures var r := ReadW(cfg, table, old(place.text), old(place.off) - 1, next, next2);
        && code == r.out.code && optind == old(optind) + r.used && place == EMSG
        && Reported() == Apply(old(Reported()), r.out)
    {
      if place.AtEnd() {
        optind := optind + 1;
        if optind >= nargc {
          place := EMSG;
          optopt := optchar as int;
          return BadArg(cfg);
        }
        place := Pointer(argv[optind].text, 0);
        assert next == Some(place.Rest());
      }
      code := ParseLongOptions(nargc, argv, cfg, table, false, if optind == old(optind) then next else next2);
      place := EMSG;
    }

    method ReadShortOption(nargc: nat, argv: array<Arg>, cfg: Config,
                           ghost next: Option<string>, ghost next2: Option<string>) returns (code: int)
      requires ArgvOk(nargc, argv) && optind < nargc && optarg == None
      requires next == ArgAt(nargc, argv, optind + 1) && next2 == ArgAt(nargc, argv, optind + 2)
      requires !place.AtEnd()
      modifies this`place, this`optind, this`optarg, this`optopt, this`longIndex, this`flags
      ensures match ReadShort(cfg, old(place.text), old(place.off), next, next2)
        case Reading(out, used, off) =>
          && code == out.code && optind == old(optind) + used && PlaceIs(old(place.text), off)
          && Reported() == Apply(old(Reported()), out)
        case LoneDash =>
          && code == -1 && optind == old(optind) && place.AtEnd()
          && Reported() == old(Reported())
    {
      var optchar := place.Char();
      place := place.Advanced(1);
      var oli := IndexOf(cfg.options, optchar);
      if optchar == ':' || (optchar == '-' && !place.AtEnd()) || oli.None? {
        if optchar == '-' && place.AtEnd() {
          return -1;
        }
        if place.AtEnd() {
          optind := optind + 1;
        }
        optopt := optchar as int;
        return BADCH;
      }
      if cfg.longs.Some? && optchar == 'W' && CharAt(cfg.options, oli.value + 1) == ';' {
        code := TakeW(nargc, argv, cfg, cfg.longs.value, optchar, next, next2);
        return;
      }
      if CharAt(cfg.options, oli.value + 1) != ':' {
        if place.AtEnd() {
          optind := optind + 1;
        }
        return optchar as int;
      }
      code := TakeArgument(nargc, argv, cfg, CharAt(cfg.options, oli.value + 2) == ':', optchar, next);
    }

    // ---- console_logger/getopt.h:399-582, getopt_internal ------------------

    /** Lines 514-524: the argument as a long option, spelled after a second
        dash or, for getopt_long_only, after the first. An entry that delivers -1
        is taken for none, with optind and place behind what has been read. */
    method TryLong(nargc: nat, argv: array<Arg>, cfg: Config, table: seq<LongOption>, ghost next: Option<string>)
        returns (code: int)
      requires ArgvOk(nargc, argv) && cfg.longs == Some(table) && optind < nargc && optarg == None
      requires next == ArgAt(nargc, argv, optind + 1)
      requires !place.AtEnd()
      modifies this`place, this`optind, this`optarg, this`optopt, this`longIndex, this`flags
      ensures match ReadLong(cfg, table, LongSpelling(old(place.text), old(place.off)),
                             next, ShortToo(cfg, old(place.text)[old(place.off)]))
        case Some(r) =>
          && code == r.out.code && optind == old(optind) + r.used
          && (if code != -1 then place == EMSG
              else place.Rest() == LongSpelling(old(place.text), old(place.off)))
          && Reported() == Apply(old(Reported()), r.out)
        case None =>
          && code == -1 && optind == old(optind) && place == old(place)
          && Reported() == old(Reported())
    {
      ghost var spelling := LongSpelling(place.text, place.off);
      var shortToo := false;
      if place.Char() == '-' {
        place := place.Advanced(1);
      } else if place.Char() != ':' && IndexOf(cfg.options, place.Char()).Some? {
        shortToo := true;
      }
      assert place.Rest() == spelling;
      assert shortToo == ShortToo(cfg, old(place.text)[old(place.off)]);
      code := ParseLongOptions(nargc, argv, cfg, table, shortToo, next);
      if code != -1 {
        place := EMSG;
      }
    }

    /** Lines 506-581: the option that place points to. */
    method ReadHere(nargc: nat, argv: array<Arg>, cfg: Config, ghost reading: Reading,
                    ghost next: Option<string>, ghost next2: Option<string>) returns (code: int)
      requires ArgvOk(nargc, argv) && optind < nargc && optarg == None
      requires next == ArgAt(nargc, argv, optind + 1) && next2 == ArgAt(nargc, argv, optind + 2)
      requires !place.AtEnd() && argv[optind] == Str(place.text)
      requires !Misread(cfg, place.text, place.off, next)
      requires reading == ReadOption(cfg, place.text, place.off, next, next2)
      modifies this`place, this`optind, this`optarg, this`optopt, this`longIndex, this`flags
      ensures match reading
        case Reading(out, used, off) =>
          && code == out.code && optind == old(optind) + used && PlaceIs(old(place.text), off)
          && Reported() == Apply(old(Reported()), out)
        case LoneDash =>
          && code == -1 && optind == old(optind) && place.AtEnd()
          && Reported() == old(Reported())
    {
      if cfg.longs.Some? && !(place.off == 0 && argv[optind] == Str(place.text))
         && (place.Char() == '-' || cfg.longOnly) {
        code := TryLong(nargc, argv, cfg, cfg.longs.value, next);
        if code != -1 {
          return;
        }
      }
      code := ReadShortOption(nargc, argv, cfg, next, next2);
    }

    /** The call of permute_args that puts the non-options between the markers
        behind the options that follow them. */
    method ExchangeBlocks(nargc: nat, argv: array<Arg>)
      requires ArgvOk(nargc, argv) && 1 <= nonoptStart < nonoptEnd < optind <= Stop(nargc)
      modifies argv
      ensures ArgvOk(nargc, argv)
      ensures Words(nargc, argv) == Exchanged(old(Words(nargc, argv)), nonoptStart, nonoptEnd, optind)
    {
      ghost var before := argv[..];
      PermuteArgs(nonoptStart, nonoptEnd, optind, argv);
      ExchangeKeepsArgs(before, nonoptStart, nonoptEnd, optind, nargc);
      ExchangeWords(before, nonoptStart, nonoptEnd, optind, Stop(nargc));
      assert argv[nargc] == argv[..][nargc];
      assert forall i :: 0 <= i < nargc ==> argv[i] == argv[..][i];
    }

    /** Lines 440-451 and 497-501: the end of the options. The non-options
        passed over go behind the options, and optind to the first of them. */
    method Settle(nargc: nat, argv: array<Arg>, ghost v: View)
      requires ArgvOk(nargc, argv)
      requires MarkersOk(Words(nargc, argv), optind, nonoptStart, nonoptEnd, 0)
      requires v == ViewOf(Words(nargc, argv), optind, nonoptStart, nonoptEnd, 0)
      modifies argv, this`optind, this`nonoptStart, this`nonoptEnd
      ensures ArgvOk(nargc, argv)
      ensures nonoptStart == UNSET && nonoptEnd == UNSET
      ensures Words(nargc, argv) == v.Settled().Argv() && optind == |v.Options()|
    {
      ghost var w := Words(nargc, argv);
      if nonoptEnd != UNSET {
        SettleExchanged(w, optind, nonoptStart, nonoptEnd);
        ExchangeBlocks(nargc, argv);
        optind := optind - (nonoptEnd - nonoptStart);
      } else {
        SettleUnmoved(w, optind, nonoptStart);
        if nonoptStart != UNSET {
          optind := nonoptStart;
        }
      }
      nonoptStart, nonoptEnd := UNSET, UNSET;
    }

    /** Lines 475-478: non-options passed over go behind the options read since. */
    method MoveOperandsBack(nargc: nat, argv: array<Arg>, ghost v: View)
      requires ArgvOk(nargc, argv) && optind < Stop(nargc) && nonoptEnd != UNSET
      requires MarkersOk(Words(nargc, argv), optind, nonoptStart, nonoptEnd, 0)
      requires v == ViewOf(Words(nargc, argv), optind, nonoptStart, nonoptEnd, 0)
      modifies argv, this`nonoptStart, this`nonoptEnd
      ensures ArgvOk(nargc, argv) && 1 <= nonoptStart < optind && nonoptEnd == UNSET
      ensures ViewOf(Words(nargc, argv), optind, nonoptStart, UNSET, 0) == v.Settled()
    {
      ExchangeSettlesView(Words(nargc, argv), optind, nonoptStart, nonoptEnd);
      ExchangeBlocks(nargc, argv);
      nonoptStart := optind - (nonoptEnd - nonoptStart);
      nonoptEnd := UNSET;
    }

    /** Lines 473-480: pass over a non-option. */
    method PassNonOption(nargc: nat, argv: array<Arg>, ghost v: View)
      requires ArgvOk(nargc, argv) && optind < Stop(nargc)
      requires MarkersOk(Words(nargc, argv), optind, nonoptStart, nonoptEnd, 0)
      requires v == ViewOf(Words(nargc, argv), optind, nonoptStart, nonoptEnd, 0)
      modifies argv, this`optind, this`nonoptStart, this`nonoptEnd
      ensures ArgvOk(nargc, argv)
      ensures MarkersOk(Words(nargc, argv), optind, nonoptStart, nonoptEnd, 0) && optind == old(optind) + 1
      ensures v.rest != [] && ViewOf(Words(nargc, argv), optind, nonoptStart, nonoptEnd, 0) == v.Passed()
    {
      hide ViewOf;
      ghost var u := v;
      if nonoptEnd != UNSET {
        MoveOperandsBack(nargc, argv, v);
        u := v.Settled();
      }
      ghost var w, start := Words(nargc, argv), nonoptStart;
      if nonoptStart == UNSET {
        nonoptStart := optind;
      }
      PassOver(w, optind, start, nonoptStart, u);
      optind := optind + 1;
      assert Words(nargc, argv) == w;
    }

    /** The markers while no argument is half read. */
    ghost predicate Between(nargc: nat, argv: array<Arg>, cfg: Config)
      reads this, argv
    {
      && ArgvOk(nargc, argv)
      && MarkersOk(Words(nargc, argv), optind, nonoptStart, nonoptEnd, 0)
      && (!cfg.mode.Permute? ==> nonoptStart == UNSET)
    }

    ghost predicate MarkersInRange()
      reads this
    {
      && (nonoptStart != UNSET ==> 0 <= nonoptStart <= optind)
      && (nonoptEnd != UNSET ==> nonoptStart != UNSET && nonoptStart <= nonoptEnd <= optind)
    }

    /** The scan in progress while no argument is half read. */
    ghost function Now(nargc: nat, argv: array<Arg>): View
      requires nargc < argv.Length && optind <= Stop(nargc) && MarkersInRange()
      reads this, argv
    {
      ViewOf(Words(nargc, argv), optind, nonoptStart, nonoptEnd, 0)
    }

    /** Lines 457-464: a non-option is returned in order. */
    method ReturnNonOption(nargc: nat, argv: array<Arg>, cfg: Config, ghost v: View)
      requires Between(nargc, argv, cfg) && !cfg.mode.Permute? && optind < nargc
      requires v == Now(nargc, argv)
      modifies this`optind, this`optarg, this`place
      ensures Between(nargc, argv, cfg) && place == EMSG
      ensures optarg == Some(v.rest[0])
      ensures Now(nargc, argv) == v.Used(1, 0)
    {
      UseUp(Words(nargc, argv), optind, nonoptStart, nonoptEnd, 0, 1, 0);
      optarg := Some(argv[optind].text);
      optind := optind + 1;
      place := EMSG;
    }

    /** Lines 484-485: an option after non-options. */
    method MarkOption(nargc: nat, argv: array<Arg>, cfg: Config, ghost v: View)
      requires Between(nargc, argv, cfg) && optind < nargc && v == Now(nargc, argv)
      modifies this`nonoptEnd
      ensures MarkersInRange() && Now(nargc, argv) == v
      ensures nonoptStart == UNSET ==> nonoptEnd == UNSET
      ensures nonoptStart != UNSET ==> nonoptEnd != UNSET && nonoptStart < nonoptEnd
    {
      if nonoptStart != UNSET && nonoptEnd == UNSET {
        MarkEnd(Words(nargc, argv), optind, nonoptStart, 0);
        nonoptEnd := optind;
      }
    }

    /** Lines 491-502: "--". */
    method EndAtDashes(nargc: nat, argv: array<Arg>, ghost v: View)
      requires ArgvOk(nargc, argv) && 1 <= optind < nargc
      requires nonoptStart == UNSET ==> nonoptEnd == UNSET
      requires nonoptStart != UNSET ==> 1 <= nonoptStart < nonoptEnd <= optind
      requires v == Now(nargc, argv)
      modifies argv, this`optind, this`place, this`nonoptStart, this`nonoptEnd
      ensures ArgvOk(nargc, argv) && place == EMSG
      ensures nonoptStart == UNSET && nonoptEnd == UNSET
      ensures v.rest != [] && Words(nargc, argv) == v.Used(1, 0).Settled().Argv() && optind == |v.Used(1, 0).Options()|
    {
      UseUp(Words(nargc, argv), optind, nonoptStart, nonoptEnd, 0, 1, 0);
      optind := optind + 1;
      place := EMSG;
      // nonoptEnd is set whenever nonoptStart is, so there is an exchange or nothing to do
      Settle(nargc, argv, v.Used(1, 0));
    }

    /** place points into the argument at optind, which is an option. */
    ghost predicate Pending(nargc: nat, argv: array<Arg>)
      reads this, argv
    {
      && ArgvOk(nargc, argv)
      && 1 <= optind < nargc && argv[optind] == Str(place.text) && !place.AtEnd()
      && (nonoptStart == UNSET ==> nonoptEnd == UNSET)
      && (nonoptStart != UNSET ==> 1 <= nonoptStart < nonoptEnd <= optind)
    }

    /** The scan is at v, and reading that option takes it to r. */
    ghost predicate Reads(nargc: nat, argv: array<Arg>, cfg: Config, v: View, r: StepResult)
      requires Pending(nargc, argv)
      reads this, argv
    {
      && v == Now(nargc, argv)
      && v.rest != [] && place.off < |v.rest[0]|
      && r == ReadStep(cfg, v, place.off)
    }

    /** How the scan stands after one argument has been looked at, if the call
        is to bring about r. */
    ghost predicate Looked(nargc: nat, argv: array<Arg>, cfg: Config, ended: bool, code: int, v: View, r: StepResult)
      requires nargc < argv.Length
      reads this, argv
    {
      if ended then
        && Between(nargc, argv, cfg) && place == EMSG
        && match r
           case Got(out, next) =>
             code == INORDER && out == Plain(INORDER, optarg) && next == Now(nargc, argv)
           case Finished(f) =>
             && code == -1 && optarg == None && nonoptStart == UNSET
             && Words(nargc, argv) == f.Argv() && optind == |f.done|
           case _ => false
      else
        && Pending(nargc, argv) && optarg == None
        && (!cfg.mode.Permute? ==> nonoptStart == UNSET)
        && Reads(nargc, argv, cfg, v, r)
    }

    /** Lines 456-481: a non-option. */
    method LookAtNonOption(nargc: nat, argv: array<Arg>, cfg: Config, ghost r: StepResult)
        returns (passed: bool, code: int, ghost v: View)
      requires Between(nargc, argv, cfg) && optind < nargc && optarg == None
      requires IsNonOption(cfg, Words(nargc, argv)[optind])
      requires r == Step(cfg, Now(nargc, argv))
      modifies argv, this`optind, this`optarg, this`place, this`nonoptStart, this`nonoptEnd
      ensures passed ==>
        && Between(nargc, argv, cfg) && optarg == None && optind == old(optind) + 1
        && r == Step(cfg, Now(nargc, argv))
      ensures !passed ==> ArgvOk(nargc, argv) && Looked(nargc, argv, cfg, true, code, v, r)
    {
      hide Step, IsNonOption;
      v := Now(nargc, argv);
      StepAtNonOption(cfg, v);
      if cfg.mode.InOrder? {
        ReturnNonOption(nargc, argv, cfg, v);
        passed, code := false, INORDER;
        return;
      }
      place := EMSG;
      if !cfg.mode.Permute? {
        SettleUnmoved(Words(nargc, argv), optind, nonoptStart);
        passed, code := false, -1;
        return;
      }
      PassNonOption(nargc, argv, v);
      passed, code := true, 0;
    }

    /** Lines 484-503: an option, or "--". */
    method LookAtOption(nargc: nat, argv: array<Arg>, cfg: Config, ghost r: StepResult)
        returns (ended: bool, code: int, ghost v: View)
      requires Between(nargc, argv, cfg) && optind < nargc && optarg == None
      requires !IsNonOption(cfg, Words(nargc, argv)[optind])
      requires r == Step(cfg, Now(nargc, argv))
      modifies argv, this`optind, this`optarg, this`place, this`nonoptStart, this`nonoptEnd
      ensures ArgvOk(nargc, argv) && Looked(nargc, argv, cfg, ended, code, v, r)
    {
      var arg := argv[optind].text;
      v := Now(nargc, argv);
      StepAtOption(cfg, v, arg);
      MarkOption(nargc, argv, cfg, v);
      if arg == "--" {
        EndAtDashes(nargc, argv, v);
        ended, code := true, -1;
        return;
      }
      place := Pointer(arg, FirstLetter(arg));
      ended, code := false, 0;
    }

    /** Lines 454-503: one argument, which is passed over or not. */
    method LookAt(nargc: nat, argv: array<Arg>, cfg: Config, ghost r: StepResult)
        returns (passed: bool, ended: bool, code: int, ghost v: View)
      requires Between(nargc, argv, cfg) && optind < nargc && optarg == None
      requires r == Step(cfg, Now(nargc, argv))
      modifies argv, this`optind, this`optarg, this`place, this`nonoptStart, this`nonoptEnd
      ensures passed ==>
        && Between(nargc, argv, cfg) && optarg == None && optind == old(optind) + 1
        && r == Step(cfg, Now(nargc, argv))
      ensures !passed ==> ArgvOk(nargc, argv) && Looked(nargc, argv, cfg, ended, code, v, r)
    {
      var arg := argv[optind].text;
      if CharAt(arg, 0) != '-' || (|arg| == 1 && IndexOf(cfg.options, '-').None?) {
        ended := true;
        passed, code, v := LookAtNonOption(nargc, argv, cfg, r);
        return;
      }
      ended, code, v := LookAtOption(nargc, argv, cfg, r);
      passed := false;
    }

    /** Lines 435-504: on to the next option, or to the end of the options. */
    method NextArgument(nargc: nat, argv: array<Arg>, cfg: Config, ghost r: StepResult)
        returns (ended: bool, code: int, ghost v: View)
      requires Between(nargc, argv, cfg) && optarg == None
      requires r == Step(cfg, Now(nargc, argv))
      modifies argv, this`optind, this`optarg, this`place, this`nonoptStart, this`nonoptEnd
      ensures ArgvOk(nargc, argv) && Looked(nargc, argv, cfg, ended, code, v, r)
    {
      while optind < nargc
        invariant Between(nargc, argv, cfg) && optarg == None
        invariant r == Step(cfg, Now(nargc, argv))
        decreases Stop(nargc) - optind
      {
        var passed;
        passed, ended, code, v := LookAt(nargc, argv, cfg, r);
        if !passed {
          return;
        }
      }
      place := EMSG;
      v := Now(nargc, argv);
      Settle(nargc, argv, v);
      ended, code := true, -1;
    }

    /** What a call of the scanner brings about. */
    ghost predicate Performed(nargc: nat, argv: array<Arg>, cfg: Config, code: int, r: StepResult, before: Report)
      requires nargc < argv.Length
      reads this, argv
    {
      match r
      case Got(out, next) =>
        && Valid(nargc, argv, cfg) && code == out.code
        && next == Progress(nargc, argv)
        && Reported() == Apply(before, out)
      case Finished(f) =>
        && Valid(nargc, argv, cfg) && code == -1
        && Words(nargc, argv) == f.Argv() && optind == |f.done|
        && nonoptStart == UNSET && place.AtEnd()
        && Reported() == before
      case StoppedAtDash(at) =>
        && ArgvOk(nargc, argv) && code == -1 && optind <= Stop(nargc) && MarkersInRange()
        && at == Now(nargc, argv)
        && Reported() == before
      case Misled => true
    }

    /** Lines 506-581 for a reading that keeps the markers in order. */
    method ReadAndAdvance(nargc: nat, argv: array<Arg>, cfg: Config, ghost w: seq<string>, ghost reading: Reading,
                          ghost r: StepResult) returns (code: int)
      requires Pending(nargc, argv) && optarg == None && !optreset
      requires !cfg.mode.Permute? ==> nonoptStart == UNSET
      requires w == Words(nargc, argv)
      requires reading
        == ReadOption(cfg, place.text, place.off, ArgAt(nargc, argv, optind + 1), ArgAt(nargc, argv, optind + 2))
      requires Foretold(cfg, w, optind, nonoptStart, nonoptEnd, place, ArgAt(nargc, argv, optind + 1), reading, r)
      modifies this`place, this`optind, this`optarg, this`optopt, this`longIndex, this`flags
      ensures Performed(nargc, argv, cfg, code, r, old(Reported()))
    {
      hide ReadOption, Misread, ViewOf;
      code := ReadHere(nargc, argv, cfg, reading, ArgAt(nargc, argv, optind + 1), ArgAt(nargc, argv, optind + 2));
      assert Words(nargc, argv) == w;
      if reading.Reading? {
        assert Offset() == reading.off;
        assert Valid(nargc, argv, cfg);
      }
    }

    /** Lines 506-581, seen on the lists. */
    method ReadPending(nargc: nat, argv: array<Arg>, cfg: Config, ghost v: View, ghost r: StepResult)
        returns (code: int)
      requires Pending(nargc, argv) && optarg == None && !optreset
      requires !cfg.mode.Permute? ==> nonoptStart == UNSET
      requires Reads(nargc, argv, cfg, v, r) && !r.Misled?
      modifies this`place, this`optind, this`optarg, this`optopt, this`longIndex, this`flags
      ensures Performed(nargc, argv, cfg, code, r, old(Reported()))
    {
      hide ReadStep, Advance, ReadOption, Misread, ViewOf;
      ghost var w := Words(nargc, argv);
      ghost var reading := ReadOption(cfg, place.text, place.off,
                                      ArgAt(nargc, argv, optind + 1), ArgAt(nargc, argv, optind + 2));
      assert Foretold(cfg, w, optind, nonoptStart, nonoptEnd, place, ArgAt(nargc, argv, optind + 1), reading, r) by {
        ReadingInArgv(nargc, argv, cfg, w, optind, nonoptStart, nonoptEnd, place, v, reading, r);
      }
      code := ReadAndAdvance(nargc, argv, cfg, w, reading, r);
    }

    /** Lines 435-581, when no argument is half read. */
    method ReadNext(nargc: nat, argv: array<Arg>, cfg: Config, ghost r: StepResult) returns (code: int)
      requires Between(nargc, argv, cfg) && optarg == None && !optreset
      requires r == Step(cfg, Now(nargc, argv)) && !r.Misled?
      modifies argv, this`place, this`optind, this`optarg, this`optopt, this`longIndex, this`flags,
               this`nonoptStart, this`nonoptEnd
      ensures nargc < argv.Length && Performed(nargc, argv, cfg, code, r, old(Reported()))
    {
      hide Step, ReadStep, ViewOf;
      var ended;
      ghost var v;
      ended, code, v := NextArgument(nargc, argv, cfg, r);
      if !ended {
        code := ReadPending(nargc, argv, cfg, v, r);
      }
    }

    /** Lines 409-437: take up a reset; true if no argument is half read. */
    method TakeUp(nargc: nat, argv: array<Arg>, cfg: Config, ghost r: StepResult) returns (idle: bool, ghost v: View)
      requires Overrun(nargc) || (Ready(nargc, argv, cfg) && r == Step(cfg, Entry(nargc, argv, cfg)))
      modifies this`optind, this`optarg, this`optreset, this`nonoptStart, this`nonoptEnd
      ensures Reported() == old(Reported().(optarg := None)) && !optreset
      ensures old(Overrun(nargc)) ==> idle && optind == old(optind) && nonoptStart == UNSET && nonoptEnd == UNSET
      ensures !old(Overrun(nargc)) && idle ==> Between(nargc, argv, cfg) && r == Step(cfg, Now(nargc, argv))
      ensures !idle ==>
        && Pending(nargc, argv) && place.off > 0
        && (!cfg.mode.Permute? ==> nonoptStart == UNSET)
        && Reads(nargc, argv, cfg, v, r)
    {
      hide Step, ReadStep;
      if !Overrun(nargc) && Entry(nargc, argv, cfg).off > 0 {
        StepWithin(cfg, Entry(nargc, argv, cfg));
      }
      if optind == 0 {
        optind, optreset := 1, true;
      }
      optarg := None;
      if optreset {
        nonoptStart, nonoptEnd := UNSET, UNSET;
      }
      idle := optreset || place.AtEnd();
      optreset := false;
      v := if MarkersInRange() && optind <= Stop(nargc) && nargc < argv.Length then Now(nargc, argv)
           else View([], [], [], [], 0);
    }

    /** One call: it brings about what one step on the lists does. Behind the end
        of argv it only returns -1. */
    method GetoptInternal(nargc: nat, argv: array<Arg>, cfg: Config) returns (code: int, ghost r: StepResult)
      requires Overrun(nargc) || (Ready(nargc, argv, cfg) && !Step(cfg, Entry(nargc, argv, cfg)).Misled?)
      modifies argv, this
      ensures !old(Overrun(nargc)) ==>
        && nargc < argv.Length && r == Step(cfg, old(Entry(nargc, argv, cfg)))
        && Performed(nargc, argv, cfg, code, r, old(Reported().(optarg := None)))
      ensures old(Overrun(nargc)) ==>
        && code == -1 && optind == old(optind) && argv[..] == old(argv[..])
        && Overrun(nargc) && !optreset && Reported() == old(Reported().(optarg := None))
    {
      r := if Overrun(nargc) then Misled else Step(cfg, Entry(nargc, argv, cfg));
      var idle, v := TakeUp(nargc, argv, cfg, r);
      if idle && optind > Stop(nargc) {
        // lines 438-451 with no non-options passed over
        place := EMSG;
        code := -1;
        return;
      }
      if idle {
        code := ReadNext(nargc, argv, cfg, r);
      } else {
        code := ReadPending(nargc, argv, cfg, v, r);
      }
    }
  }

  lemma StepWithin(cfg: Config, v: View)
    requires WellFormed(v) && v.off > 0
    ensures Step(cfg, v) == ReadStep(cfg, v.(off := 0), v.off)
  {
  }

  lemma StepAtNonOption(cfg: Config, v: View)
    requires WellFormed(v) && v.off == 0 && v.rest != [] && IsNonOption(cfg, v.rest[0])
    ensures Step(cfg, v)
      == match cfg.mode
         case InOrder => Got(Plain(INORDER, Some(v.rest[0])), v.Used(1, 0))
         case StopAtFirst => Finished(v.Settled())
         case Permute => Step(cfg, v.Passed())
  {
  }

  lemma StepAtOption(cfg: Config, v: View, arg: string)
    requires WellFormed(v) && v.off == 0 && v.rest != [] && v.rest[0] == arg && !IsNonOption(cfg, arg)
    ensures Step(cfg, v)
      == if arg == "--" then Finished(v.Used(1, 0).Settled())
         else ReadStep(cfg, v, FirstLetter(arg))
  {
  }

  /** Reading r takes the scan on to `step` and keeps the markers in order. */
  ghost predicate Foretold(cfg: Config, w: seq<string>, optind: nat, start: int, end: int, place: Pointer,
                           next: Option<string>, r: Reading, step: StepResult)
    requires !place.AtEnd()
  {
    && !Misread(cfg, place.text, place.off, next)
    && (r.Reading? ==> MarkersOk(w, optind + r.used, start, end, r.off) && (r.off > 0 ==> r.used == 0))
    && optind <= |w|
    && (start != UNSET ==> 0 <= start <= optind)
    && (end != UNSET ==> start != UNSET && start <= end <= optind)
    && step == Advance(w, optind, start, end, r)
  }

  lemma NotMisled(cfg: Config, v: View, off: nat)
    requires v.rest != [] && off < |v.rest[0]| && !ReadStep(cfg, v, off).Misled?
    ensures !Misread(cfg, v.rest[0], off, Nth(v.rest, 1))
    ensures ReadStep(cfg, v, off) == AfterReading(v, ReadFirst(cfg, v.rest, off))
  {
  }

  lemma ReadingForetold(cfg: Config, w: seq<string>, optind: nat, start: int, end: int, place: Pointer,
                        next: Option<string>, next2: Option<string>, v: View, r: Reading, step: StepResult)
    requires 1 <= optind < |w| && w[optind] == place.text && !place.AtEnd()
    requires next == Nth(w, optind + 1) && next2 == Nth(w, optind + 2)
    requires start == UNSET ==> end == UNSET
    requires start != UNSET ==> 1 <= start < end <= optind
    requires v == ViewOf(w, optind, start, end, 0) && v.rest == w[optind..]
    requires step == ReadStep(cfg, v, place.off) && !step.Misled?
    requires r == ReadOption(cfg, place.text, place.off, next, next2)
    ensures Foretold(cfg, w, optind, start, end, place, next, r, step)
  {
    hide ViewOf, AfterReading, ReadFirst, ReadOption, ReadStep, Misread, Advance;
    NotMisled(cfg, v, place.off);
    assert v.rest[0] == place.text && Nth(v.rest, 1) == next;
    var r', step' := ReadingAdvances(cfg, w, optind, start, end, place.off);
  }

  /** ReadingAdvances, with the arguments read from argv. */
  lemma ReadingInArgv(nargc: nat, argv: array<Arg>, cfg: Config, w: seq<string>, optind: nat, start: int, end: int,
                      place: Pointer, v: View, r: Reading, step: StepResult)
    requires ArgvOk(nargc, argv) && 1 <= optind < nargc && argv[optind] == Str(place.text) && !place.AtEnd()
    requires start == UNSET ==> end == UNSET
    requires start != UNSET ==> 1 <= start < end <= optind
    requires w == Words(nargc, argv) && v == ViewOf(w, optind, start, end, 0)
    requires v.rest != [] && place.off < |v.rest[0]| && step == ReadStep(cfg, v, place.off) && !step.Misled?
    requires r == ReadOption(cfg, place.text, place.off, ArgAt(nargc, argv, optind + 1), ArgAt(nargc, argv, optind + 2))
    ensures Foretold(cfg, w, optind, start, end, place, ArgAt(nargc, argv, optind + 1), r, step)
  {
    hide ReadStep, ReadOption, Misread, Advance;
    assert v.rest == w[optind..] && w[optind] == place.text;
    ArgAtIsNth(nargc, argv, optind + 1);
    ArgAtIsNth(nargc, argv, optind + 2);
    ReadingForetold(cfg, w, optind, start, end, place, ArgAt(nargc, argv, optind + 1), ArgAt(nargc, argv, optind + 2),
                    v, r, step);
  }
}
