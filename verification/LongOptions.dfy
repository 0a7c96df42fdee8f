// console_logger/getopt.h, parse_long_options: which entry of the option table
// a (possibly abbreviated) long name selects.
module LongOptions {
  import opened Wrappers

  const NO_ARGUMENT: int := 0
  const REQUIRED_ARGUMENT: int := 1
  const OPTIONAL_ARGUMENT: int := 2

  /** An entry of the table. `flag` identifies the variable that receives val,
      None being the null pointer. */
  datatype LongOption = LongOption(name: string, hasArg: int, flag: Option<nat>, val: int)

  datatype Match = Unknown | Ambiguous | Found(index: nat)

  predicate SameInterpretation(a: LongOption, b: LongOption) {
    a.hasArg == b.hasArg && a.flag == b.flag && a.val == b.val
  }

  predicate IsExact(o: LongOption, name: string) {
    o.name == name
  }

  /** A proper abbreviation that may be used: a single character that is also a
      short option does not count as one. */
  predicate IsAbbreviation(o: LongOption, name: string, shortToo: bool) {
    name < o.name && !(shortToo && |name| == 1)
  }

  /** What a name means: the first entry of that very name; failing that, the
      first entry it abbreviates, provided all the entries it abbreviates mean
      the same thing. */
  ghost predicate Means(table: seq<LongOption>, name: string, shortToo: bool, m: Match) {
    match m
    case Unknown =>
      forall i :: 0 <= i < |table| ==> !IsExact(table[i], name) && !IsAbbreviation(table[i], name, shortToo)
    case Ambiguous =>
      && (forall i :: 0 <= i < |table| ==> !IsExact(table[i], name))
      && exists i, j :: 0 <= i < j < |table|
           && IsAbbreviation(table[i], name, shortToo) && IsAbbreviation(table[j], name, shortToo)
           && !SameInterpretation(table[i], table[j])
    case Found(k) =>
      && k < |table|
      && if IsExact(table[k], name) then
           forall i :: 0 <= i < k ==> !IsExact(table[i], name)
         else
           && (forall i :: 0 <= i < |table| ==> !IsExact(table[i], name))
           && IsAbbreviation(table[k], name, shortToo)
           && (forall i :: 0 <= i < k ==> !IsAbbreviation(table[i], name, shortToo))
           && (forall i :: 0 <= i < |table| && IsAbbreviation(table[i], name, shortToo) ==>
                 SameInterpretation(table[i], table[k]))
  }

  /** A name has at most one meaning. */
  lemma MeaningIsUnique(table: seq<LongOption>, name: string, shortToo: bool, m: Match, m': Match)
    requires Means(table, name, shortToo, m) && Means(table, name, shortToo, m')
    ensures m == m'
  {
  }

  function FirstExact(table: seq<LongOption>, name: string): (r: Option<nat>)
    ensures r.Some? ==> r.value < |table|
  {
    if table == [] then None
    else if IsExact(table[0], name) then Some(0)
    else
      var r := FirstExact(table[1..], name);
      if r.Some? then Some(r.value + 1) else None
  }

  function FirstAbbreviation(table: seq<LongOption>, name: string, shortToo: bool): (r: Option<nat>)
    ensures r.Some? ==> r.value < |table|
  {
    if table == [] then None
    else if IsAbbreviation(table[0], name, shortToo) then Some(0)
    else
      var r := FirstAbbreviation(table[1..], name, shortToo);
      if r.Some? then Some(r.value + 1) else None
  }

  predicate AllAgree(table: seq<LongOption>, name: string, shortToo: bool, o: LongOption) {
    forall i :: 0 <= i < |table| && IsAbbreviation(table[i], name, shortToo) ==> SameInterpretation(table[i], o)
  }

  /** The meaning of a name. */
  function Resolve(table: seq<LongOption>, name: string, shortToo: bool): (m: Match)
    ensures m.Found? ==> m.index < |table|
  {
    var exact := FirstExact(table, name);
    var first := FirstAbbreviation(table, name, shortToo);
    if exact.Some? then Found(exact.value)
    else if first.None? then Unknown
    else if AllAgree(table, name, shortToo, table[first.value]) then Found(first.value)
    else Ambiguous
  }

  lemma {:induction false} FirstExactIsFirst(table: seq<LongOption>, name: string)
    ensures var r := FirstExact(table, name);
      && (r.Some? ==> IsExact(table[r.value], name))
      && forall i :: 0 <= i < (if r.Some? then r.value else |table|) ==> !IsExact(table[i], name)
  {
    if table == [] {
    } else {
      FirstExactIsFirst(table[1..], name);
      assert forall i :: 1 <= i < |table| ==> table[i] == table[1..][i - 1];
    }
  }

  lemma {:induction false} FirstAbbreviationIsFirst(table: seq<LongOption>, name: string, shortToo: bool)
    ensures var r := FirstAbbreviation(table, name, shortToo);
      && (r.Some? ==> IsAbbreviation(table[r.value], name, shortToo))
      && forall i :: 0 <= i < (if r.Some? then r.value else |table|) ==> !IsAbbreviation(table[i], name, shortToo)
  {
    if table == [] {
    } else {
      FirstAbbreviationIsFirst(table[1..], name, shortToo);
      assert forall i :: 1 <= i < |table| ==> table[i] == table[1..][i - 1];
    }
  }

  lemma ResolveMeans(table: seq<LongOption>, name: string, shortToo: bool)
    ensures Means(table, name, shortToo, Resolve(table, name, shortToo))
  {
    FirstExactIsFirst(table, name);
    FirstAbbreviationIsFirst(table, name, shortToo);
    var first := FirstAbbreviation(table, name, shortToo);
    if Resolve(table, name, shortToo) == Ambiguous {
      var i :| 0 <= i < |table| && IsAbbreviation(table[i], name, shortToo)
               && !SameInterpretation(table[i], table[first.value]);
      assert first.value < i;
    }
  }

  /** console_logger/getopt.h:303-325, the loop over the table. The flag and the
      candidate found so far describe the entries below i. */
  method FindMatch(table: seq<LongOption>, name: string, shortToo: bool) returns (m: Match)
    ensures Means(table, name, shortToo, m)
  {
    var candidate: Option<nat> := None;
    var ambiguous := false;
    var i := 0;
    while i < |table|
      invariant i <= |table|
      invariant forall j :: 0 <= j < i ==> !IsExact(table[j], name)
      invariant candidate.None? ==> !ambiguous && forall j :: 0 <= j < i ==> !IsAbbreviation(table[j], name, shortToo)
      invariant candidate.Some? ==>
                  && candidate.value < i
                  && IsAbbreviation(table[candidate.value], name, shortToo)
                  && forall j :: 0 <= j < candidate.value ==> !IsAbbreviation(table[j], name, shortToo)
      invariant candidate.Some? ==> (ambiguous <==>
                  exists j :: candidate.value < j < i && IsAbbreviation(table[j], name, shortToo)
                    && !SameInterpretation(table[candidate.value], table[j]))
    {
      var o := table[i];
      if !(name <= o.name) {
        // no match
      } else if |o.name| == |name| {
        return Found(i);
      } else if shortToo && |name| == 1 {
        // a known short option is not an abbreviation
      } else if candidate.None? {
        candidate := Some(i);
      } else if !SameInterpretation(table[i], table[candidate.value]) {
        ambiguous := true;
      }
      i := i + 1;
    }
    m := if ambiguous then Ambiguous else if candidate.Some? then Found(candidate.value) else Unknown;
  }

  method LookUp(table: seq<LongOption>, name: string, shortToo: bool) returns (m: Match)
    ensures m == Resolve(table, name, shortToo)
  {
    m := FindMatch(table, name, shortToo);
    ResolveMeans(table, name, shortToo);
    MeaningIsUnique(table, name, shortToo, m, Resolve(table, name, shortToo));
  }

  /** A name means entry k exactly if k is the first entry of that name; or if no
      entry has that name, k is the first that it begins, all that it begins are to
      be interpreted alike, and it is not a single known option letter. */
  lemma FoundIff(table: seq<LongOption>, name: string, shortToo: bool, k: nat)
    requires k < |table|
    ensures Resolve(table, name, shortToo) == Found(k) <==>
      || (table[k].name == name && forall i :: 0 <= i < k ==> table[i].name != name)
      || (&& (forall i :: 0 <= i < |table| ==> table[i].name != name)
          && !(shortToo && |name| == 1)
          && name < table[k].name && (forall i :: 0 <= i < k ==> !(name < table[i].name))
          && forall i :: 0 <= i < |table| && name < table[i].name ==>
               table[i].hasArg == table[k].hasArg && table[i].flag == table[k].flag && table[i].val == table[k].val)
  {
    var m := Resolve(table, name, shortToo);
    ResolveMeans(table, name, shortToo);
    if table[k].name == name && forall i :: 0 <= i < k ==> table[i].name != name {
      assert IsExact(table[k], name);
      MeaningIsUnique(table, name, shortToo, m, Found(k));
    } else if
         && (forall i :: 0 <= i < |table| ==> table[i].name != name)
         && !(shortToo && |name| == 1)
         && name < table[k].name && (forall i :: 0 <= i < k ==> !(name < table[i].name))
         && forall i :: 0 <= i < |table| && name < table[i].name ==> SameInterpretation(table[i], table[k]) {
      assert Means(table, name, shortToo, Found(k));
      MeaningIsUnique(table, name, shortToo, m, Found(k));
    }
  }

  /** A name is ambiguous exactly when no entry has that name and two entries that
      it begins are to be interpreted differently, unless it is a single known
      option letter. */
  lemma AmbiguousIff(table: seq<LongOption>, name: string, shortToo: bool)
    ensures Resolve(table, name, shortToo) == Ambiguous <==>
      && (forall i :: 0 <= i < |table| ==> table[i].name != name)
      && !(shortToo && |name| == 1)
      && exists i, j :: 0 <= i < |table| && 0 <= j < |table|
           && name < table[i].name && name < table[j].name
           && !(table[i].hasArg == table[j].hasArg && table[i].flag == table[j].flag && table[i].val == table[j].val)
  {
    var m := Resolve(table, name, shortToo);
    ResolveMeans(table, name, shortToo);
    if m.Found? && !IsExact(table[m.index], name) {
      assert forall i :: 0 <= i < |table| && IsAbbreviation(table[i], name, shortToo) ==>
          SameInterpretation(table[i], table[m.index]);
    }
    assert forall i :: 0 <= i < |table| ==> (IsExact(table[i], name) <==> table[i].name == name);
    assert forall i :: 0 <= i < |table| ==>
        (IsAbbreviation(table[i], name, shortToo) <==> name < table[i].name && !(shortToo && |name| == 1));
  }

  /** A name is unknown exactly when it neither is nor begins an entry's name, or
      only begins one, being a single known option letter. */
  lemma UnknownIff(table: seq<LongOption>, name: string, shortToo: bool)
    ensures Resolve(table, name, shortToo) == Unknown <==>
      forall i :: 0 <= i < |table| ==> table[i].name != name && (name < table[i].name ==> shortToo && |name| == 1)
  {
    var m := Resolve(table, name, shortToo);
    ResolveMeans(table, name, shortToo);
    assert forall i :: 0 <= i < |table| ==> (IsExact(table[i], name) <==> table[i].name == name);
    assert forall i :: 0 <= i < |table| ==>
        (IsAbbreviation(table[i], name, shortToo) <==> name < table[i].name && !(shortToo && |name| == 1));
  }

  /** An exact name wins over any abbreviation, wherever they stand. */
  lemma ExactNameWins(table: seq<LongOption>, name: string, shortToo: bool, k: nat)
    requires k < |table| && table[k].name == name
    ensures exists j: nat :: j <= k && table[j].name == name && Resolve(table, name, shortToo) == Found(j)
  {
    var m := Resolve(table, name, shortToo);
    ResolveMeans(table, name, shortToo);
    assert IsExact(table[k], name);
    assert m.Found? && m.index <= k;
  }
}
