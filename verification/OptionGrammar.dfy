// What command lines mean, from the side of the one who writes them: how an
// option with its argument is spelled, and that the scan reads it back.
module OptionGrammar {
  import opened Wrappers
  import opened LongOptions
  import opened OptionScan
  import opened OptionRun
  import opened Reordering

  // ---- Short options -------------------------------------------------------

  /** c is an option letter, first found at index i, and not the letter W that
      stands for a long option. */
  predicate IsLetter(cfg: Config, c: char, i: nat) {
    && c != ':' && c != '-'
    && i < |cfg.options| && cfg.options[i] == c && c !in cfg.options[..i]
    && !(cfg.longs.Some? && c == 'W' && ";" <= cfg.options[i + 1..])
  }

  predicate TakesArgument(cfg: Config, i: nat) {
    i < |cfg.options| && ":" <= cfg.options[i + 1..]
  }

  predicate MayLackArgument(cfg: Config, i: nat) {
    i < |cfg.options| && "::" <= cfg.options[i + 1..]
  }

  /** A single dash begins letters only. */
  predicate LettersOnly(cfg: Config) {
    cfg.longs.Some? ==> !cfg.longOnly
  }

  function Result(code: int, optarg: Option<string>): Outcome {
    Outcome(code, optarg, None, None, None)
  }

  /** A missing or unwanted argument is reported by ':' if the option letters
      begin with one, and by '?' otherwise. */
  function BadArgument(cfg: Config, optopt: int): Outcome {
    Outcome(if ":" <= cfg.options then ':' as int else '?' as int, None, Some(optopt), None, None)
  }

  function Unknown(optopt: int): Outcome {
    Outcome('?' as int, None, Some(optopt), None, None)
  }

  lemma FirstIndex(s: string, c: char, i: nat)
    requires i < |s| && s[i] == c && c !in s[..i]
    ensures IndexOf(s, c) == Some(i)
  {
  }

  lemma LetterAt(pre: string, c: char, post: string)
    ensures (pre + [c] + post)[|pre|] == c && (pre + [c] + post)[|pre| + 1..] == post
  {
  }

  lemma BehindLetter(o: string, i: nat)
    requires i < |o|
    ensures ":" <= o[i + 1..] <==> CharAt(o, i + 1) == ':'
    ensures "::" <= o[i + 1..] <==> CharAt(o, i + 1) == ':' && CharAt(o, i + 2) == ':'
    ensures ";" <= o[i + 1..] <==> CharAt(o, i + 1) == ';'
  {
  }

  lemma ReadAt(cfg: Config, pre: string, c: char, post: string, rest: seq<string>)
    ensures var args := [pre + [c] + post] + rest;
      ReadFirst(cfg, args, |pre|) == ReadOption(cfg, pre + [c] + post, |pre|, Nth(rest, 0), Nth(rest, 1))
  {
    var args := [pre + [c] + post] + rest;
    assert Nth(args, 1) == Nth(rest, 0) && Nth(args, 2) == Nth(rest, 1);
  }

  /** A letter without argument, within a group of letters or at its end. */
  lemma PlainLetter(cfg: Config, pre: string, c: char, post: string, rest: seq<string>, i: nat)
    requires LettersOnly(cfg) && IsLetter(cfg, c, i) && !TakesArgument(cfg, i)
    ensures ReadFirst(cfg, [pre + [c] + post] + rest, |pre|)
      == if post == "" then Reading(Result(c as int, None), 1, 0) else Reading(Result(c as int, None), 0, |pre| + 1)
  {
  }

  /** What is attached to a letter that takes an argument is its argument. */
  lemma AttachedArgument(cfg: Config, pre: string, c: char, v: string, rest: seq<string>, i: nat)
    requires LettersOnly(cfg) && IsLetter(cfg, c, i) && TakesArgument(cfg, i) && v != ""
    ensures ReadFirst(cfg, [pre + [c] + v] + rest, |pre|) == Reading(Result(c as int, Some(v)), 1, 0)
  {
  }

  /** Otherwise the next argument is, or none if it may be left out; a missing one
      is an error. */
  lemma FollowingArgument(cfg: Config, pre: string, c: char, rest: seq<string>, i: nat)
    requires LettersOnly(cfg) && IsLetter(cfg, c, i) && TakesArgument(cfg, i)
    ensures ReadFirst(cfg, [pre + [c] + ""] + rest, |pre|)
      == if MayLackArgument(cfg, i) then Reading(Result(c as int, None), 1, 0)
         else if rest != [] then Reading(Result(c as int, Some(rest[0])), 2, 0)
         else Reading(BadArgument(cfg, c as int), 1, 0)
  {
  }

  /** A character that is no option letter, and the colon, are reported. */
  lemma UnknownLetter(cfg: Config, pre: string, c: char, post: string, rest: seq<string>)
    requires LettersOnly(cfg) && c != '-' && (c == ':' || c !in cfg.options)
    ensures ReadFirst(cfg, [pre + [c] + post] + rest, |pre|)
      == if post == "" then Reading(Unknown(c as int), 1, 0) else Reading(Unknown(c as int), 0, |pre| + 1)
  {
  }

  /** A dash among letters, without a table of long options. */
  lemma DashAmongLetters(cfg: Config, pre: string, post: string, rest: seq<string>)
    requires cfg.longs.None? && (post == "" ==> '-' !in cfg.options)
    ensures ReadFirst(cfg, [pre + "-" + post] + rest, |pre|)
      == if post == "" then LoneDash else Reading(Unknown('-' as int), 0, |pre| + 1)
  {
  }

  /** A dash that ends the letters, or stands alone, and is an option letter. */
  lemma DashAsLetter(cfg: Config, pre: string, rest: seq<string>, i: nat)
    requires pre == "" || cfg.longs.None?
    requires i < |cfg.options| && cfg.options[i] == '-' && '-' !in cfg.options[..i]
    ensures ReadFirst(cfg, [pre + "-" + ""] + rest, |pre|)
      == if !TakesArgument(cfg, i) || MayLackArgument(cfg, i) then Reading(Result('-' as int, None), 1, 0)
         else if rest != [] then Reading(Result('-' as int, Some(rest[0])), 2, 0)
         else Reading(BadArgument(cfg, '-' as int), 1, 0)
  {
  }

  // ---- Long options --------------------------------------------------------

  /** What an entry of the table delivers: its value, or 0 with the value stored
      in its flag variable. */
  function Delivered(o: LongOption, k: nat, optarg: Option<string>): Outcome {
    match o.flag
    case None => Outcome(o.val, optarg, None, Some(k), None)
    case Some(flag) => Outcome(0, optarg, None, Some(k), Some((flag, o.val)))
  }

  /** In an error report an entry with a flag variable is named by 0. */
  function NameOf(o: LongOption): int {
    if o.flag.None? then o.val else 0
  }

  /** The reading of a name with the meaning m, with an attached value or none. */
  function Expected(cfg: Config, table: seq<LongOption>, m: Match, value: Option<string>, rest: seq<string>): Reading
    requires m.Found? ==> m.index < |table|
  {
    match m
    case Unknown => Reading(Unknown(0), 1, 0)
    case Ambiguous => Reading(Unknown(0), 1, 0)
    case Found(k) =>
      var o := table[k];
      match value
      case Some(v) =>
        if o.hasArg == REQUIRED_ARGUMENT || o.hasArg == OPTIONAL_ARGUMENT then Reading(Delivered(o, k, Some(v)), 1, 0)
        else if o.hasArg == NO_ARGUMENT then Reading(BadArgument(cfg, NameOf(o)), 1, 0)
        else Reading(Delivered(o, k, None), 1, 0)
      case None =>
        if o.hasArg != REQUIRED_ARGUMENT then Reading(Delivered(o, k, None), 1, 0)
        else if rest != [] then Reading(Delivered(o, k, Some(rest[0])), 2, 0)
        else Reading(BadArgument(cfg, NameOf(o)), 1, 0)
  }

  /** name, or name=value. */
  function Spelling(name: string, value: Option<string>): string {
    match value
    case None => name
    case Some(v) => name + "=" + v
  }

  lemma SpellingParts(name: string, value: Option<string>)
    requires '=' !in name
    ensures LongName(Spelling(name, value)) == name && LongValue(Spelling(name, value)) == value
  {
    var s := Spelling(name, value);
    if value.Some? {
      assert s[..|name|] == name && s[|name|] == '=' && s[|name| + 1..] == value.value;
      FirstIndex(s, '=', |name|);
    } else {
      assert '=' !in s;
    }
  }

  lemma LongReads(cfg: Config, table: seq<LongOption>, name: string, value: Option<string>, rest: seq<string>,
                  shortToo: bool, m: Match)
    requires '=' !in name && Means(table, name, shortToo, m) && !(m.Unknown? && shortToo)
    ensures ReadLong(cfg, table, Spelling(name, value), Nth(rest, 0), shortToo)
      == Some(Expected(cfg, table, m, value, rest))
  {
    SpellingParts(name, value);
    ResolveMeans(table, name, shortToo);
    MeaningIsUnique(table, name, shortToo, m, Resolve(table, name, shortToo));
    assert ":" <= cfg.options <==> CharAt(cfg.options, 0) == ':';
  }

  /** A long option behind two dashes; or behind letters and a dash. */
  lemma LongOptionReads(cfg: Config, pre: string, name: string, value: Option<string>, rest: seq<string>, m: Match)
    requires pre != "" && cfg.longs.Some? && '=' !in name && Means(cfg.longs.value, name, false, m)
    ensures ReadFirst(cfg, [pre + "-" + Spelling(name, value)] + rest, |pre|)
      == Expected(cfg, cfg.longs.value, m, value, rest)
  {
    var s := Spelling(name, value);
    ReadAt(cfg, pre, '-', s, rest);
    LetterAt(pre, '-', s);
    LongReads(cfg, cfg.longs.value, name, value, rest, false, m);
  }

  /** With getopt_long_only one dash will do. If the name is unknown and may be
      short options, it is read as such. */
  lemma LongOnlyReads(cfg: Config, pre: string, name: string, value: Option<string>, rest: seq<string>, m: Match)
    requires pre != "" && cfg.longs.Some? && cfg.longOnly && '=' !in name
    requires var s := Spelling(name, value);
      && s != "" && s[0] != '-'
      && Means(cfg.longs.value, name, s[0] != ':' && s[0] in cfg.options, m)
    ensures var s := Spelling(name, value);
      ReadFirst(cfg, [pre + s] + rest, |pre|)
      == if m.Unknown? && s[0] != ':' && s[0] in cfg.options then
           ReadFirst(cfg.(longOnly := false), [pre + s] + rest, |pre|)
         else
           Expected(cfg, cfg.longs.value, m, value, rest)
  {
    var s := Spelling(name, value);
    var c, post := s[0], s[1..];
    assert [c] + post == s && pre + [c] + post == pre + s;
    ReadAt(cfg, pre, c, post, rest);
    ReadAt(cfg.(longOnly := false), pre, c, post, rest);
    LetterAt(pre, c, post);
    var shortToo := c != ':' && c in cfg.options;
    assert LongSpelling(pre + s, |pre|) == s;
    if m.Unknown? && shortToo {
      SpellingParts(name, value);
      ResolveMeans(cfg.longs.value, name, shortToo);
      MeaningIsUnique(cfg.longs.value, name, shortToo, m, Resolve(cfg.longs.value, name, shortToo));
      SameShort(cfg, pre + s, |pre|, Nth(rest, 0), Nth(rest, 1));
    } else {
      LongReads(cfg, cfg.longs.value, name, value, rest, shortToo, m);
    }
  }

  lemma SameShort(cfg: Config, arg: string, off: nat, next: Option<string>, next2: Option<string>)
    requires off < |arg|
    ensures ReadShort(cfg.(longOnly := false), arg, off, next, next2) == ReadShort(cfg, arg, off, next, next2)
  {
    hide ReadLong;
    if cfg.longs.Some? {
      SameLong(cfg, cfg.longs.value, arg[off + 1..], next);
      if next.Some? {
        SameLong(cfg, cfg.longs.value, next.value, next2);
      }
    }
  }

  lemma SameLong(cfg: Config, table: seq<LongOption>, arg: string, next: Option<string>)
    ensures ReadLong(cfg.(longOnly := false), table, arg, next, false) == ReadLong(cfg, table, arg, next, false)
  {
  }

  /** The letter W followed by ';' stands for a long option. */
  predicate WStandsForLong(cfg: Config, i: nat) {
    && cfg.longs.Some? && !cfg.longOnly
    && i < |cfg.options| && cfg.options[i] == 'W' && 'W' !in cfg.options[..i] && ";" <= cfg.options[i + 1..]
  }

  /** "-Wname" and "-W name" are read as "--name" is; a missing name is an error. */
  lemma WReads(cfg: Config, pre: string, name: string, value: Option<string>, rest: seq<string>, i: nat, m: Match)
    requires WStandsForLong(cfg, i) && '=' !in name && Means(cfg.longs.value, name, false, m)
    ensures var s, r := Spelling(name, value), Expected(cfg, cfg.longs.value, m, value, rest);
      && (s != "" ==> ReadFirst(cfg, [pre + "W" + s] + rest, |pre|) == r)
      && ReadFirst(cfg, [pre + "W" + ""] + ([s] + rest), |pre|) == r.(used := r.used + 1)
  {
    var s := Spelling(name, value);
    ReadAt(cfg, pre, 'W', s, rest);
    ReadAt(cfg, pre, 'W', "", [s] + rest);
    LetterAt(pre, 'W', s);
    LetterAt(pre, 'W', "");
    FirstIndex(cfg.options, 'W', i);
    BehindLetter(cfg.options, i);
    assert Nth([s] + rest, 1) == Nth(rest, 0);
    LongReads(cfg, cfg.longs.value, name, value, rest, false, m);
  }

  lemma WLacksName(cfg: Config, pre: string, i: nat)
    requires WStandsForLong(cfg, i)
    ensures ReadFirst(cfg, [pre + "W" + ""] + [], |pre|) == Reading(BadArgument(cfg, 'W' as int), 1, 0)
  {
  }

  // ---- Command lines -------------------------------------------------------

  datatype Argument = Nothing | Attached(v: string) | Following(v: string)

  /** Letters without arguments and a last letter, with its argument or none; a
      dash that is an option letter; a long option; the same behind -W; or an
      argument that is no option. */
  datatype Item =
    | Letters(flags: string, last: char, arg: Argument)
    | Dash(arg: Argument)
    | Name(name: string, index: nat, arg: Argument)
    | BehindW(together: bool, name: string, index: nat, arg: Argument)
    | Word(text: string)

  function Attach(arg: Argument): Option<string> {
    if arg.Attached? then Some(arg.v) else None
  }

  function Follow(arg: Argument): seq<string> {
    if arg.Following? then [arg.v] else []
  }

  function Value(arg: Argument): Option<string> {
    match arg
    case Nothing => None
    case Attached(v) => Some(v)
    case Following(v) => Some(v)
  }

  /** How an item is spelled. */
  function Spelled(item: Item): seq<string> {
    match item
    case Letters(flags, last, arg) => ["-" + flags + [last] + Attach(arg).GetOr("")] + Follow(arg)
    case Dash(arg) => ["-"] + Follow(arg)
    case Name(name, _, arg) => ["--" + Spelling(name, Attach(arg))] + Follow(arg)
    case BehindW(together, name, _, arg) =>
      (if together then ["-W" + Spelling(name, Attach(arg))] else ["-W", Spelling(name, Attach(arg))]) + Follow(arg)
    case Word(text) => [text]
  }

  function SpelledAll(items: seq<Item>): seq<string> {
    if items == [] then [] else Spelled(items[0]) + SpelledAll(items[1..])
  }

  ghost predicate IsFlag(cfg: Config, c: char) {
    exists i: nat :: IsLetter(cfg, c, i) && !TakesArgument(cfg, i)
  }

  /** A letter takes an argument, or may lack it, as the option letters say. */
  ghost predicate LetterTakes(cfg: Config, c: char, arg: Argument) {
    exists i: nat :: IsLetter(cfg, c, i) &&
      match arg
      case Nothing => TakesArgument(cfg, i) ==> MayLackArgument(cfg, i)
      case Attached(v) => TakesArgument(cfg, i) && v != ""
      case Following(_) => TakesArgument(cfg, i) && !MayLackArgument(cfg, i)
  }

  ghost predicate DashTakes(cfg: Config, arg: Argument) {
    exists i: nat :: i < |cfg.options| && cfg.options[i] == '-' && '-' !in cfg.options[..i] &&
      match arg
      case Nothing => TakesArgument(cfg, i) ==> MayLackArgument(cfg, i)
      case Attached(_) => false
      case Following(_) => TakesArgument(cfg, i) && !MayLackArgument(cfg, i)
  }

  /** So does an entry of the table that the name means. */
  ghost predicate NameTakes(cfg: Config, name: string, k: nat, arg: Argument) {
    && cfg.longs.Some? && k < |cfg.longs.value|
    && name != "" && '=' !in name && Means(cfg.longs.value, name, false, Found(k))
    && var hasArg := cfg.longs.value[k].hasArg;
       match arg
       case Nothing => hasArg != REQUIRED_ARGUMENT
       case Attached(_) => hasArg == REQUIRED_ARGUMENT || hasArg == OPTIONAL_ARGUMENT
       case Following(_) => hasArg == REQUIRED_ARGUMENT
  }

  /** No dash in front, or a lone dash that is no option letter. */
  predicate IsWord(cfg: Config, text: string) {
    !("-" <= text) || (text == "-" && '-' !in cfg.options)
  }

  ghost predicate IsItem(cfg: Config, item: Item) {
    match item
    case Letters(flags, last, arg) =>
      LettersOnly(cfg) && (forall c :: c in flags ==> IsFlag(cfg, c)) && LetterTakes(cfg, last, arg)
    case Dash(arg) => DashTakes(cfg, arg)
    case Name(name, k, arg) => NameTakes(cfg, name, k, arg)
    case BehindW(_, name, k, arg) => NameTakes(cfg, name, k, arg) && exists i: nat :: WStandsForLong(cfg, i)
    case Word(text) => !cfg.mode.StopAtFirst? && IsWord(cfg, text)
  }

  function FlagResults(flags: string): seq<Outcome> {
    if flags == "" then [] else [Result(flags[0] as int, None)] + FlagResults(flags[1..])
  }

  /** What an item is to report. */
  function Results(cfg: Config, item: Item): seq<Outcome>
    requires (item.Name? || item.BehindW?) ==> cfg.longs.Some? && item.index < |cfg.longs.value|
  {
    match item
    case Letters(flags, last, arg) => FlagResults(flags) + [Result(last as int, Value(arg))]
    case Dash(arg) => [Result('-' as int, Value(arg))]
    case Name(_, k, arg) => [Delivered(cfg.longs.value[k], k, Value(arg))]
    case BehindW(_, _, k, arg) => [Delivered(cfg.longs.value[k], k, Value(arg))]
    case Word(text) => if cfg.mode.InOrder? then [Result(1, Some(text))] else []
  }

  function RoleOf(cfg: Config, item: Item): Role {
    if item.Word? && cfg.mode.Permute? then Operand else OptionPart
  }

  /** What is read is the first result, be it an option or an error, and the scan
      goes on behind the arguments used. */
  lemma ReadingScans(cfg: Config, args: seq<string>, off: nat, r: Reading)
    requires args != [] && off < |args[0]| && ReadFirst(cfg, args, off) == r && r.Reading?
    ensures var p, q := ScanOption(cfg, args, off), Scan(cfg, args[r.used..], r.off);
      && p.events == [r.out] + q.events && p.roles == Repeat(OptionPart, r.used) + q.roles
      && (!WantsMore(cfg, args, off) ==> p.ending == q.ending)
  {
  }

  /** An option wants more if it would use more with two more arguments, or as many
      as are missing, behind it. */
  lemma WantsMoreIs(cfg: Config, args: seq<string>, off: nat)
    requires args != [] && off < |args[0]|
    ensures var filled := [args[0]] + [Nth(args, 1).GetOr(""), Nth(args, 2).GetOr("")];
      var r := ReadFirst(cfg, filled, off);
      WantsMore(cfg, args, off) <==> r.Reading? && r.used > |args|
  {
    hide ReadOption;
    var filled := [args[0]] + [Nth(args, 1).GetOr(""), Nth(args, 2).GetOr("")];
    assert Nth(filled, 1) == Some(Nth(args, 1).GetOr("")) && Nth(filled, 2) == Some(Nth(args, 2).GetOr(""));
  }

  lemma LastLetterReads(cfg: Config, pre: string, last: char, arg: Argument, rest: seq<string>)
    requires LettersOnly(cfg) && LetterTakes(cfg, last, arg)
    ensures ReadFirst(cfg, [pre + [last] + Attach(arg).GetOr("")] + (Follow(arg) + rest), |pre|)
      == Reading(Result(last as int, Value(arg)), 1 + |Follow(arg)|, 0)
  {
    hide ReadFirst;
    match arg
    case Nothing =>
      var i: nat :| IsLetter(cfg, last, i) && (TakesArgument(cfg, i) ==> MayLackArgument(cfg, i));
      if TakesArgument(cfg, i) {
        FollowingArgument(cfg, pre, last, [] + rest, i);
      } else {
        PlainLetter(cfg, pre, last, "", [] + rest, i);
      }
    case Attached(v) =>
      var i: nat :| IsLetter(cfg, last, i) && TakesArgument(cfg, i) && v != "";
      AttachedArgument(cfg, pre, last, v, [] + rest, i);
    case Following(v) =>
      var i: nat :| IsLetter(cfg, last, i) && TakesArgument(cfg, i) && !MayLackArgument(cfg, i);
      FollowingArgument(cfg, pre, last, [v] + rest, i);
  }

  lemma LastLetterScans(cfg: Config, pre: string, last: char, arg: Argument, rest: seq<string>)
    requires LettersOnly(cfg) && LetterTakes(cfg, last, arg)
    ensures var args := [pre + [last] + Attach(arg).GetOr("")] + (Follow(arg) + rest);
      && |pre| < |args[0]|
      && ScansFrom(cfg, args, |pre|, [Result(last as int, Value(arg))], 1 + |Follow(arg)|, rest)
  {
    hide ReadFirst, ScanOption, Scan;
    var first := pre + [last] + Attach(arg).GetOr("");
    var args := [first] + (Follow(arg) + rest);
    var n1, n2 := Nth(args, 1).GetOr(""), Nth(args, 2).GetOr("");
    LastLetterReads(cfg, pre, last, arg, rest);
    LastLetterReads(cfg, pre, last, arg, if arg.Following? then [n2] else [n1, n2]);
    assert [first] + (Follow(arg) + if arg.Following? then [n2] else [n1, n2]) == [first] + [n1, n2];
    WantsMoreIs(cfg, args, |pre|);
    ReadingScans(cfg, args, |pre|, Reading(Result(last as int, Value(arg)), 1 + |Follow(arg)|, 0));
    assert args[1 + |Follow(arg)|..] == rest;
  }

  /** What is found from offset `off` of the first argument on: `results`, with n
      arguments, and then what the rest reports. */
  ghost predicate ScansFrom(cfg: Config, args: seq<string>, off: nat, results: seq<Outcome>, n: nat, rest: seq<string>)
    requires args != [] && off < |args[0]|
  {
    var p, q := ScanOption(cfg, args, off), Scan(cfg, rest, 0);
    p.events == results + q.events && p.roles == Repeat(OptionPart, n) + q.roles && p.ending == q.ending
  }

  lemma FlagScans(cfg: Config, pre: string, c: char, post: string, more: seq<string>, results: seq<Outcome>, n: nat,
                  rest: seq<string>)
    requires LettersOnly(cfg) && IsFlag(cfg, c) && post != ""
    requires ScansFrom(cfg, [pre + [c] + post] + more, |pre| + 1, results, n, rest)
    ensures ScansFrom(cfg, [pre + [c] + post] + more, |pre|, [Result(c as int, None)] + results, n, rest)
  {
    var args := [pre + [c] + post] + more;
    var i: nat :| IsLetter(cfg, c, i) && !TakesArgument(cfg, i);
    PlainLetter(cfg, pre, c, post, more, i);
    PlainLetter(cfg, pre, c, post, [Nth(args, 1).GetOr(""), Nth(args, 2).GetOr("")], i);
    WantsMoreIs(cfg, args, |pre|);
    ReadingScans(cfg, args, |pre|, Reading(Result(c as int, None), 0, |pre| + 1));
    hide ReadFirst, ScanOption;
    assert args[0..] == args && Repeat(OptionPart, 0) == [];
    assert Scan(cfg, args, |pre| + 1) == ScanOption(cfg, args, |pre| + 1);
    var q := Scan(cfg, rest, 0);
    assert [Result(c as int, None)] + (results + q.events) == [Result(c as int, None)] + results + q.events;
    assert [] + (Repeat(OptionPart, n) + q.roles) == Repeat(OptionPart, n) + q.roles;
  }

  lemma {:induction false} LettersScan(cfg: Config, pre: string, flags: string, last: char, arg: Argument,
                                       rest: seq<string>)
    requires LettersOnly(cfg) && (forall c :: c in flags ==> IsFlag(cfg, c)) && LetterTakes(cfg, last, arg)
    ensures var args := [pre + flags + [last] + Attach(arg).GetOr("")] + (Follow(arg) + rest);
      && |pre| < |args[0]|
      && ScansFrom(cfg, args, |pre|, FlagResults(flags) + [Result(last as int, Value(arg))], 1 + |Follow(arg)|, rest)
    decreases |flags|
  {
    hide ScansFrom;
    var behind := [last] + Attach(arg).GetOr("");
    if flags == "" {
      assert pre + "" == pre;
      LastLetterScans(cfg, pre, last, arg, rest);
      assert FlagResults("") + [Result(last as int, Value(arg))] == [Result(last as int, Value(arg))];
    } else {
      var c, more := flags[0], flags[1..];
      assert [c] + more == flags;
      assert pre + flags + [last] + Attach(arg).GetOr("") == pre + [c] + (more + behind);
      assert (pre + [c]) + more + [last] + Attach(arg).GetOr("") == pre + [c] + (more + behind);
      LettersScan(cfg, pre + [c], more, last, arg, rest);
      FlagScans(cfg, pre, c, more + behind, Follow(arg) + rest,
                FlagResults(more) + [Result(last as int, Value(arg))], 1 + |Follow(arg)|, rest);
      assert [Result(c as int, None)] + (FlagResults(more) + [Result(last as int, Value(arg))])
        == FlagResults(flags) + [Result(last as int, Value(arg))];
    }
  }

  // ---- Whole command lines -------------------------------------------------

  /** Words and what follows them are scanned as the words are to be, and then as
      the rest is. */
  ghost predicate ScansAs(cfg: Config, words: seq<string>, results: seq<Outcome>, roles: seq<Role>, tail: seq<string>) {
    var p, q := Scan(cfg, words + tail, 0), Scan(cfg, tail, 0);
    p.events == results + q.events && p.roles == roles + q.roles && p.ending == q.ending
  }

  lemma OptionScans(cfg: Config, args: seq<string>, results: seq<Outcome>, n: nat, words: seq<string>,
                    tail: seq<string>)
    requires args != [] && args == words + tail && n == |words|
    requires "-" <= args[0] && !IsWord(cfg, args[0]) && args[0] != "--"
    requires ScansFrom(cfg, args, FirstLetter(args[0]), results, n, tail)
    ensures ScansAs(cfg, words, results, Repeat(OptionPart, n), tail)
  {
  }

  lemma LettersItemScans(cfg: Config, item: Item, tail: seq<string>)
    requires item.Letters? && IsItem(cfg, item)
    ensures ScansAs(cfg, Spelled(item), Results(cfg, item), Repeat(OptionPart, |Spelled(item)|), tail)
  {
    hide ScansFrom, ScansAs;
    var flags, last, arg := item.flags, item.last, item.arg;
    var first := "-" + flags + [last] + Attach(arg).GetOr("");
    LettersScan(cfg, "-", flags, last, arg, tail);
    assert Spelled(item) + tail == [first] + (Follow(arg) + tail);
    assert first[1] == if flags == "" then last else flags[0];
    OptionScans(cfg, [first] + (Follow(arg) + tail), Results(cfg, item), 1 + |Follow(arg)|, Spelled(item), tail);
  }

  /** What is read for a name of the table with the argument it takes. */
  lemma NameReads(cfg: Config, name: string, k: nat, arg: Argument, tail: seq<string>)
    requires NameTakes(cfg, name, k, arg)
    ensures Expected(cfg, cfg.longs.value, Found(k), Attach(arg), Follow(arg) + tail)
      == Reading(Delivered(cfg.longs.value[k], k, Value(arg)), 1 + |Follow(arg)|, 0)
  {
  }

  /** The first argument and two behind it, empty ones where there are none. */
  function Filled(args: seq<string>): seq<string>
    requires args != []
  {
    [args[0]] + [Nth(args, 1).GetOr(""), Nth(args, 2).GetOr("")]
  }

  /** An option that is read alike whatever follows it. */
  lemma ReadAlike(cfg: Config, words: seq<string>, out: Outcome, tail: seq<string>)
    requires words != [] && "-" <= words[0] && !IsWord(cfg, words[0]) && words[0] != "--" && |words| <= 3
    requires forall rest :: ReadFirst(cfg, words + rest, FirstLetter(words[0])) == Reading(out, |words|, 0)
    ensures ScansAs(cfg, words, [out], Repeat(OptionPart, |words|), tail)
  {
    hide ReadFirst, ScanOption, Scan;
    var args, off := words + tail, FirstLetter(words[0]);
    assert ReadFirst(cfg, args, off) == Reading(out, |words|, 0);
    assert Filled(args) == words + Filled(args)[|words|..];
    WantsMoreIs(cfg, args, off);
    ReadingScans(cfg, args, off, Reading(out, |words|, 0));
    assert args[|words|..] == tail;
    OptionScans(cfg, args, [out], |words|, words, tail);
  }

  lemma DashItemScans(cfg: Config, item: Item, tail: seq<string>)
    requires item.Dash? && IsItem(cfg, item)
    ensures ScansAs(cfg, Spelled(item), Results(cfg, item), Repeat(OptionPart, |Spelled(item)|), tail)
  {
    hide ReadFirst, ScansAs;
    var words := Spelled(item);
    var i: nat :| i < |cfg.options| && cfg.options[i] == '-' && '-' !in cfg.options[..i]
      && match item.arg
         case Nothing => TakesArgument(cfg, i) ==> MayLackArgument(cfg, i)
         case Attached(_) => false
         case Following(_) => TakesArgument(cfg, i) && !MayLackArgument(cfg, i);
    forall rest
      ensures ReadFirst(cfg, words + rest, 0) == Reading(Results(cfg, item)[0], |words|, 0)
    {
      DashAsLetter(cfg, "", Follow(item.arg) + rest, i);
      assert "" + "-" + "" == "-" && words + rest == ["-"] + (Follow(item.arg) + rest);
    }
    ReadAlike(cfg, words, Results(cfg, item)[0], tail);
  }

  lemma NameItemScans(cfg: Config, item: Item, tail: seq<string>)
    requires item.Name? && IsItem(cfg, item)
    ensures ScansAs(cfg, Spelled(item), Results(cfg, item), Repeat(OptionPart, |Spelled(item)|), tail)
  {
    hide ReadFirst, ScansAs;
    var name, k, arg := item.name, item.index, item.arg;
    var words := Spelled(item);
    forall rest
      ensures ReadFirst(cfg, words + rest, 1) == Reading(Results(cfg, item)[0], |words|, 0)
    {
      NameReads(cfg, name, k, arg, rest);
      LongOptionReads(cfg, "-", name, Attach(arg), Follow(arg) + rest, Found(k));
      assert "-" + "-" + Spelling(name, Attach(arg)) == "--" + Spelling(name, Attach(arg));
      assert words + rest == ["--" + Spelling(name, Attach(arg))] + (Follow(arg) + rest);
    }
    assert words[0][2] == name[0];
    ReadAlike(cfg, words, Results(cfg, item)[0], tail);
  }

  lemma BehindWItemScans(cfg: Config, item: Item, tail: seq<string>)
    requires item.BehindW? && IsItem(cfg, item)
    ensures ScansAs(cfg, Spelled(item), Results(cfg, item), Repeat(OptionPart, |Spelled(item)|), tail)
  {
    hide ReadFirst, ScansAs;
    var name, k, arg := item.name, item.index, item.arg;
    var words, s := Spelled(item), Spelling(item.name, Attach(item.arg));
    var i: nat :| WStandsForLong(cfg, i);
    forall rest
      ensures ReadFirst(cfg, words + rest, 1) == Reading(Results(cfg, item)[0], |words|, 0)
    {
      NameReads(cfg, name, k, arg, rest);
      WReads(cfg, "-", name, Attach(arg), Follow(arg) + rest, i, Found(k));
      assert "-" + "W" + s == "-W" + s && "-" + "W" + "" == "-W";
      if item.together {
        assert words + rest == ["-W" + s] + (Follow(arg) + rest);
      } else {
        assert words + rest == ["-W"] + ([s] + (Follow(arg) + rest));
      }
    }
    assert words[0][1] == 'W';
    ReadAlike(cfg, words, Results(cfg, item)[0], tail);
  }

  lemma WordScans(cfg: Config, item: Item, tail: seq<string>)
    requires item.Word? && IsItem(cfg, item)
    ensures ScansAs(cfg, Spelled(item), Results(cfg, item), [RoleOf(cfg, item)], tail)
  {
  }

  lemma ItemScans(cfg: Config, item: Item, tail: seq<string>)
    requires IsItem(cfg, item)
    ensures ScansAs(cfg, Spelled(item), Results(cfg, item), Repeat(RoleOf(cfg, item), |Spelled(item)|), tail)
  {
    hide ScansAs;
    match item
    case Letters(_, _, _) => LettersItemScans(cfg, item, tail);
    case Dash(_) => DashItemScans(cfg, item, tail);
    case Name(_, _, _) => NameItemScans(cfg, item, tail);
    case BehindW(_, _, _, _) => BehindWItemScans(cfg, item, tail);
    case Word(text) =>
      WordScans(cfg, item, tail);
      assert Repeat(RoleOf(cfg, item), 1) == [RoleOf(cfg, item)];
  }

  ghost predicate AreItems(cfg: Config, items: seq<Item>) {
    forall i :: 0 <= i < |items| ==> IsItem(cfg, items[i])
  }

  ghost function ResultsAll(cfg: Config, items: seq<Item>): seq<Outcome>
    requires AreItems(cfg, items)
  {
    if items == [] then [] else Results(cfg, items[0]) + ResultsAll(cfg, items[1..])
  }

  function RolesAll(cfg: Config, items: seq<Item>): (roles: seq<Role>)
    ensures |roles| == |SpelledAll(items)|
  {
    if items == [] then [] else Repeat(RoleOf(cfg, items[0]), |Spelled(items[0])|) + RolesAll(cfg, items[1..])
  }

  lemma ScansInTurn(cfg: Config, words: seq<string>, results: seq<Outcome>, roles: seq<Role>,
                    words': seq<string>, results': seq<Outcome>, roles': seq<Role>, tail: seq<string>)
    requires ScansAs(cfg, words, results, roles, words' + tail) && ScansAs(cfg, words', results', roles', tail)
    ensures ScansAs(cfg, words + words', results + results', roles + roles', tail)
  {
    hide Scan;
    var q := Scan(cfg, tail, 0);
    assert words + words' + tail == words + (words' + tail);
    assert results + results' + q.events == results + (results' + q.events);
    assert roles + roles' + q.roles == roles + (roles' + q.roles);
  }

  /** The scan of a command line made of items finds these items, and goes on with
      what follows them. */
  lemma {:induction false} ItemsScan(cfg: Config, items: seq<Item>, tail: seq<string>)
    requires AreItems(cfg, items)
    ensures ScansAs(cfg, SpelledAll(items), ResultsAll(cfg, items), RolesAll(cfg, items), tail)
  {
    if items == [] {
      var q := Scan(cfg, tail, 0);
      assert [] + tail == tail && [] + q.events == q.events && [] + q.roles == q.roles;
    } else {
      hide ScansAs;
      ItemsScan(cfg, items[1..], tail);
      ItemScans(cfg, items[0], SpelledAll(items[1..]) + tail);
      ScansInTurn(cfg, Spelled(items[0]), Results(cfg, items[0]),
                  Repeat(RoleOf(cfg, items[0]), |Spelled(items[0])|), SpelledAll(items[1..]),
                  ResultsAll(cfg, items[1..]), RolesAll(cfg, items[1..]), tail);
    }
  }

  /** The items whose words play a part. */
  function WithRole(cfg: Config, items: seq<Item>, role: Role): seq<Item> {
    if items == [] then []
    else (if RoleOf(cfg, items[0]) == role then [items[0]] else []) + WithRole(cfg, items[1..], role)
  }

  lemma SpelledFirst(item: Item, items: seq<Item>)
    ensures SpelledAll([item] + items) == Spelled(item) + SpelledAll(items)
  {
    assert ([item] + items)[1..] == items;
  }

  lemma {:induction false} SelectItems(cfg: Config, items: seq<Item>, role: Role)
    ensures Select(SpelledAll(items), RolesAll(cfg, items), role) == SpelledAll(WithRole(cfg, items, role))
  {
    if items == [] {
    } else {
      var item, rest := items[0], items[1..];
      SelectItems(cfg, rest, role);
      SelectConcat(Spelled(item), SpelledAll(rest), Repeat(RoleOf(cfg, item), |Spelled(item)|), RolesAll(cfg, rest),
                   role);
      SelectAll(Spelled(item), Repeat(RoleOf(cfg, item), |Spelled(item)|), role, RoleOf(cfg, item));
      hide Select;
      if RoleOf(cfg, item) == role {
        SpelledFirst(item, WithRole(cfg, rest, role));
      } else {
        assert [] + WithRole(cfg, rest, role) == WithRole(cfg, rest, role);
        assert [] + SpelledAll(WithRole(cfg, rest, role)) == SpelledAll(WithRole(cfg, rest, role));
      }
    }
  }

  /** How a command line closes behind its items: not at all, with "--", or with a
      non-option that ends the scan. */
  datatype Close = Open | Dashes(rest: seq<string>) | NonOption(rest: seq<string>)

  predicate IsClose(cfg: Config, close: Close) {
    close.NonOption? ==> cfg.mode.StopAtFirst? && close.rest != [] && IsWord(cfg, close.rest[0])
  }

  function Closing(close: Close): seq<string> {
    match close
    case Open => []
    case Dashes(rest) => ["--"] + rest
    case NonOption(rest) => rest
  }

  lemma ClosingScans(cfg: Config, close: Close)
    requires IsClose(cfg, close)
    ensures var tail := Closing(close);
      var p, used := Scan(cfg, tail, 0), if close.Dashes? then 1 else 0;
      && used <= |tail| && p.events == []
      && p.roles == Repeat(OptionPart, used) + Repeat(Untouched, |tail| - used)
      && p.ending == match close
                     case Open => AtEnd
                     case Dashes(_) => AtDashes
                     case NonOption(_) => AtNonOption
  {
  }

  /** A command line made of items is taken apart into these items: the results are
      those of the items, the options are the words of the items that are options,
      the operands the other words, and what closes it is left alone. */
  lemma CommandLineMeans(cfg: Config, items: seq<Item>, close: Close)
    requires AreItems(cfg, items) && IsClose(cfg, close)
    ensures var args := SpelledAll(items) + Closing(close);
      && Scan(cfg, args, 0).events == ResultsAll(cfg, items)
      && OptionsOf(cfg, args, 0)
         == SpelledAll(WithRole(cfg, items, OptionPart)) + (if close.Dashes? then ["--"] else [])
      && OperandsOf(cfg, args) == SpelledAll(WithRole(cfg, items, Operand))
      && UntouchedOf(cfg, args) == (if close.Open? then [] else close.rest)
      && Scan(cfg, args, 0).ending == match close
                                      case Open => AtEnd
                                      case Dashes(_) => AtDashes
                                      case NonOption(_) => AtNonOption
  {
    hide Scan, Select;
    var words, tail := SpelledAll(items), Closing(close);
    var used := if close.Dashes? then 1 else 0;
    ItemsScan(cfg, items, tail);
    ClosingScans(cfg, close);
    assert ResultsAll(cfg, items) + [] == ResultsAll(cfg, items);
    NoneUntouched(cfg, items);
    forall role
      ensures Select(words + tail, Scan(cfg, words + tail, 0).roles, role)
        == SpelledAll(WithRole(cfg, items, role))
           + ((if role == OptionPart then tail[..used] else []) + (if role == Untouched then tail[used..] else []))
    {
      SelectConcat(words, tail, RolesAll(cfg, items), Scan(cfg, tail, 0).roles, role);
      SelectItems(cfg, items, role);
      SelectAfter(tail, used, OptionPart, Repeat(Untouched, |tail| - used), role);
      SelectAll(tail[used..], Repeat(Untouched, |tail| - used), role, Untouched);
    }
    assert tail[..used] == if close.Dashes? then ["--"] else [];
    assert tail[used..] == if close.Open? then [] else close.rest;
    assert forall s: seq<string> :: s + [] == s && [] + s == s;
  }

  lemma {:induction false} NoneUntouched(cfg: Config, items: seq<Item>)
    ensures WithRole(cfg, items, Untouched) == []
  {
    if items == [] {
    } else {
      NoneUntouched(cfg, items[1..]);
    }
  }

  // ---- The first character of the option letters ------------------------------

  /** '+' and '-' are no option letters: the one makes the scan stop at the first
      non-option, the other returns non-options in order. Without them the scan
      stops there if permuting is not wanted. */
  lemma ConfigureReads(o: string, longs: Option<seq<LongOption>>, longOnly: bool, permute: bool, posix: bool)
    ensures Configure("+" + o, longs, longOnly, permute, posix) == Config(o, longs, longOnly, StopAtFirst)
    ensures Configure("-" + o, longs, longOnly, permute, posix) == Config(o, longs, longOnly, InOrder)
    ensures !("+" <= o) && !("-" <= o) ==>
      Configure(o, longs, longOnly, permute, posix)
      == Config(o, longs, longOnly, if permute && !posix then Permute else StopAtFirst)
  {
  }
}
