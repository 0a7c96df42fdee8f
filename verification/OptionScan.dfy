// What option scanning means, on sequences and without any permutation:
// the reading of one option, one call of the scanner on a list of remaining
// arguments, and a whole left-to-right scan.
module OptionScan {
  import opened Wrappers
  import opened LongOptions

  /** What becomes of an argument that is not an option: it is skipped over,
      ends the scan, or is returned as the argument of option code 1. */
  datatype Mode = Permute | StopAtFirst | InOrder

  /** The parameters of a scan. `options` has lost a leading '+' or '-'. */
  datatype Config = Config(options: string, longs: Option<seq<LongOption>>, longOnly: bool, mode: Mode)

  /** console_logger/getopt.h:425-430. */
  function Configure(options: string, longs: Option<seq<LongOption>>, longOnly: bool,
                     permute: bool, posixlyCorrect: bool): Config
  {
    var first := CharAt(options, 0);
    Config(if first == '+' || first == '-' then options[1..] else options, longs, longOnly,
           if first == '-' then InOrder
           else if posixlyCorrect || first == '+' || !permute then StopAtFirst
           else Permute)
  }

  /** The character at index i, NUL at the end of the string. */
  function CharAt(s: string, i: nat): char {
    if i < |s| then s[i] else '\0'
  }

  function IndexOf(s: string, c: char): (r: Option<nat>)
    ensures r.Some? ==> r.value < |s| && s[r.value] == c && c !in s[..r.value]
    ensures r.None? ==> c !in s
  {
    if s == "" then None
    else if s[0] == c then Some(0)
    else
      var r := IndexOf(s[1..], c);
      if r.Some? then Some(r.value + 1) else None
  }

  const BADCH: int := '?' as int
  const INORDER: int := 1

  function BadArg(cfg: Config): int {
    if CharAt(cfg.options, 0) == ':' then ':' as int else '?' as int
  }

  /** What one call reports: the code, optarg, and the values it gives to
      optopt, to *idx and to an option's flag variable, if any. */
  datatype Outcome = Outcome(code: int, optarg: Option<string>, optopt: Option<int>,
                             index: Option<nat>, store: Option<(nat, int)>)

  function Plain(code: int, optarg: Option<string>): Outcome {
    Outcome(code, optarg, None, None, None)
  }

  function Complaint(code: int, optopt: int): Outcome {
    Outcome(code, None, Some(optopt), None, None)
  }

  /** The reading of an option: it uses up `used` arguments, or none and leaves
      the scan at offset `off` of the present one. A lone '-' within a group of
      short options is no option at all. */
  datatype Reading = Reading(out: Outcome, used: nat, off: nat) | LoneDash

  /** The name and the attached value of a long option. */
  function LongName(arg: string): string {
    var eq := IndexOf(arg, '=');
    if eq.Some? then arg[..eq.value] else arg
  }

  function LongValue(arg: string): Option<string> {
    var eq := IndexOf(arg, '=');
    if eq.Some? then Some(arg[eq.value + 1..]) else None
  }

  function LongComplaint(cfg: Config, o: LongOption): Outcome {
    Complaint(BadArg(cfg), if o.flag.None? then o.val else 0)
  }

  /** The reading of a long option once its name has been looked up. */
  function ReadMatch(cfg: Config, table: seq<LongOption>, m: Match, value: Option<string>,
                     next: Option<string>, shortToo: bool): (r: Option<Reading>)
    requires m.Found? ==> m.index < |table|
    ensures r.Some? ==> r.value.Reading? && 1 <= r.value.used <= Ahead(next, None) && r.value.off == 0
    ensures r.None? ==> shortToo
  {
    match m
    case Ambiguous => Some(Reading(Complaint(BADCH, 0), 1, 0))
    case Unknown => if shortToo then None else Some(Reading(Complaint(BADCH, 0), 1, 0))
    case Found(k) =>
      var o := table[k];
      if o.hasArg == NO_ARGUMENT && value.Some? then
        Some(Reading(LongComplaint(cfg, o), 1, 0))
      else if o.hasArg == REQUIRED_ARGUMENT && value.None? then
        if next.None? then Some(Reading(LongComplaint(cfg, o), 1, 0))
        else Some(Reading(FoundLong(o, k, next), 2, 0))
      else if o.hasArg == REQUIRED_ARGUMENT || o.hasArg == OPTIONAL_ARGUMENT then
        Some(Reading(FoundLong(o, k, value), 1, 0))
      else
        Some(Reading(FoundLong(o, k, None), 1, 0))
  }

  function FoundLong(o: LongOption, k: nat, optarg: Option<string>): Outcome {
    if o.flag.Some? then Outcome(0, optarg, None, Some(k), Some((o.flag.value, o.val)))
    else Outcome(o.val, optarg, None, Some(k), None)
  }

  /** How many arguments can be used: the present one and the known next ones. */
  function Ahead(next: Option<string>, next2: Option<string>): nat {
    if next.None? then 1 else if next2.None? then 2 else 3
  }

  /** A long option spelled `arg`, followed by the argument `next`; None if it
      is unknown and may still be a short option. */
  function ReadLong(cfg: Config, table: seq<LongOption>, arg: string, next: Option<string>,
                    shortToo: bool): (r: Option<Reading>)
    ensures r.Some? ==> r.value.Reading? && 1 <= r.value.used <= Ahead(next, None) && r.value.off == 0
    ensures r.None? ==> shortToo
  {
    ReadMatch(cfg, table, Resolve(table, LongName(arg), shortToo), LongValue(arg), next, shortToo)
  }

  predicate IsLongForShort(cfg: Config, oli: nat, c: char) {
    cfg.longs.Some? && c == 'W' && CharAt(cfg.options, oli + 1) == ';'
  }

  /** What a reading may use up, and where it may stay. */
  predicate Fits(r: Reading, arg: string, off: nat, limit: nat) {
    r.Reading? ==>
      && r.used <= limit
      && (r.used == 0 ==> off < r.off < |arg|)
      && (r.used > 0 ==> r.off == 0)
  }

  /** The option -W: what follows is a long option. */
  function ReadW(cfg: Config, table: seq<LongOption>, arg: string, off: nat,
                 next: Option<string>, next2: Option<string>): (r: Reading)
    requires off < |arg|
    ensures r.Reading? && Fits(r, arg, off, Ahead(next, next2))
  {
    if off + 1 < |arg| then ReadLong(cfg, table, arg[off + 1..], next, false).value
    else if next.None? then Reading(Complaint(BadArg(cfg), arg[off] as int), 1, 0)
    else
      var r := ReadLong(cfg, table, next.value, next2, false).value;
      Reading(r.out, r.used + 1, 0)
  }

  /** An option letter that takes an argument. */
  function ReadArgument(cfg: Config, arg: string, off: nat, optional: bool, next: Option<string>): (r: Reading)
    requires off < |arg|
    ensures r.Reading? && Fits(r, arg, off, Ahead(next, None))
  {
    var c := arg[off] as int;
    if off + 1 < |arg| then Reading(Plain(c, Some(arg[off + 1..])), 1, 0)
    else if optional then Reading(Plain(c, None), 1, 0)
    else if next.None? then Reading(Complaint(BadArg(cfg), c), 1, 0)
    else Reading(Plain(c, next), 2, 0)
  }

  /** Only the letter itself is read. */
  function ReadLetter(arg: string, off: nat, out: Outcome): (r: Reading)
    requires off < |arg|
    ensures r.Reading? && Fits(r, arg, off, 1)
  {
    if off + 1 == |arg| then Reading(out, 1, 0) else Reading(out, 0, off + 1)
  }

  /** The short option at offset `off` of `arg`, with the arguments after it. */
  function ReadShort(cfg: Config, arg: string, off: nat, next: Option<string>, next2: Option<string>): (r: Reading)
    requires off < |arg|
    ensures Fits(r, arg, off, Ahead(next, next2))
  {
    var c := arg[off];
    var last := off + 1 == |arg|;
    var oli := IndexOf(cfg.options, c);
    if c == ':' || (c == '-' && !last) || oli.None? then
      if c == '-' && last then LoneDash
      else ReadLetter(arg, off, Complaint(BADCH, c as int))
    else if IsLongForShort(cfg, oli.value, c) then
      ReadW(cfg, cfg.longs.value, arg, off, next, next2)
    else if CharAt(cfg.options, oli.value + 1) != ':' then
      ReadLetter(arg, off, Plain(c as int, None))
    else
      ReadArgument(cfg, arg, off, CharAt(cfg.options, oli.value + 2) == ':', next)
  }

  predicate MayBeLong(cfg: Config, arg: string, off: nat)
    requires off < |arg|
  {
    cfg.longs.Some? && off > 0 && (arg[off] == '-' || cfg.longOnly)
  }

  predicate ShortToo(cfg: Config, c: char) {
    c != '-' && c != ':' && c in cfg.options
  }

  function LongSpelling(arg: string, off: nat): string
    requires off < |arg|
  {
    if arg[off] == '-' then arg[off + 1..] else arg[off..]
  }

  /** The option at offset `off` of `arg`, with the arguments after it. */
  function ReadOption(cfg: Config, arg: string, off: nat, next: Option<string>, next2: Option<string>): (r: Reading)
    requires off < |arg|
    ensures Fits(r, arg, off, Ahead(next, next2))
  {
    if MayBeLong(cfg, arg, off) then
      var r := ReadLong(cfg, cfg.longs.value, LongSpelling(arg, off), next, ShortToo(cfg, arg[off]));
      if r.Some? then r.value else ReadShort(cfg, arg, off, next, next2)
    else
      ReadShort(cfg, arg, off, next, next2)
  }

  /** The entry found for the option at offset `off` delivers -1, the code that
      means "not found" to the scanner: it goes on to read the name as short
      options, although optind has moved on. */
  predicate Misread(cfg: Config, arg: string, off: nat, next: Option<string>)
    requires off < |arg|
  {
    && MayBeLong(cfg, arg, off)
    && var r := ReadLong(cfg, cfg.longs.value, LongSpelling(arg, off), next, ShortToo(cfg, arg[off]));
       r.Some? && r.value.out.code == -1
  }

  /** The i-th of a list of arguments, if there is one. */
  function Nth(args: seq<string>, i: nat): Option<string> {
    if i < |args| then Some(args[i]) else None
  }

  /** The option at offset `off` of the first of `args`. */
  function ReadFirst(cfg: Config, args: seq<string>, off: nat): (r: Reading)
    requires args != [] && off < |args[0]|
    ensures Fits(r, args[0], off, |args|)
  {
    ReadOption(cfg, args[0], off, Nth(args, 1), Nth(args, 2))
  }

  predicate IsNonOption(cfg: Config, arg: string) {
    CharAt(arg, 0) != '-' || (|arg| == 1 && '-' !in cfg.options)
  }

  /** Where the letters of an option argument begin. */
  function FirstLetter(arg: string): nat {
    if |arg| > 1 then 1 else 0
  }

  // ---- One call, on lists -------------------------------------------------

  /** A scan in progress: the options dealt with, the non-options passed over,
      the options read since, the arguments still to come, and how far the first
      of these has been read (0 if not at all). In this order they are argv. */
  datatype View = View(done: seq<string>, operands: seq<string>, since: seq<string>, rest: seq<string>, off: nat) {
    function Argv(): seq<string> {
      done + operands + since + rest
    }

    /** The options, with the arguments used by them. */
    function Options(): seq<string> {
      done + since
    }

    /** A non-option is passed over: those before it come up to it. */
    function Passed(): View
      requires rest != []
    {
      View(done + since, operands + [rest[0]], [], rest[1..], 0)
    }

    /** An option uses n arguments. */
    function Used(n: nat, to: nat): View
      requires n <= |rest|
    {
      if operands == [] then View(done + rest[..n], [], since, rest[n..], to)
      else View(done, operands, since + rest[..n], rest[n..], to)
    }

    /** The non-options go behind all the options. */
    function Settled(): View {
      View(done + since, operands, [], rest, off)
    }
  }

  predicate WellFormed(v: View) {
    && (v.operands == [] ==> v.since == [])
    && (v.off > 0 ==> v.rest != [] && v.off < |v.rest[0]|)
  }

  /** A call returns a result, ends the scan, stops at a lone dash, or takes an
      entry it has found for none: what it does then is not followed here. */
  datatype StepResult =
    | Got(out: Outcome, next: View)
    | Finished(final: View)
    | StoppedAtDash(at: View)
    | Misled

  function AfterReading(v: View, r: Reading): StepResult
    requires v.rest != [] && (r.Reading? ==> r.used <= |v.rest|)
  {
    match r
    case LoneDash => StoppedAtDash(v.(off := 0))
    case Reading(out, used, off) =>
      Got(out, v.Used(used, off))
  }

  /** What comes of reading the option at offset `off` of the first argument. */
  function ReadStep(cfg: Config, v: View, off: nat): StepResult
    requires v.rest != [] && off < |v.rest[0]|
  {
    if Misread(cfg, v.rest[0], off, Nth(v.rest, 1)) then Misled
    else AfterReading(v, ReadFirst(cfg, v.rest, off))
  }

  /** One call of the scanner. */
  function Step(cfg: Config, v: View): (r: StepResult)
    requires WellFormed(v)
    ensures r.Got? ==> WellFormed(r.next)
    decreases |v.rest|
  {
    if v.off > 0 then
      ReadStep(cfg, v, v.off)
    else if v.rest == [] then
      Finished(v.Settled())
    else
      var arg := v.rest[0];
      if IsNonOption(cfg, arg) then
        match cfg.mode
        case InOrder => Got(Plain(INORDER, Some(arg)), v.Used(1, 0))
        case StopAtFirst => Finished(v.Settled())
        case Permute => Step(cfg, v.Passed())
      else if arg == "--" then
        Finished(v.Used(1, 0).Settled())
      else
        ReadStep(cfg, v, FirstLetter(arg))
  }
}
