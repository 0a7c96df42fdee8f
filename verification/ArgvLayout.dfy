// How the scanner lays out argv while it puts off exchanging blocks: what the
// markers nonopt_start and nonopt_end say about the arguments before optind.
module ArgvLayout {
  import opened Permutation
  import opened OptionScan

  const UNSET: int := -1

  /** The markers between and during calls. `off` is how far the argument at
      optind has been read, 0 if not at all. */
  ghost predicate MarkersOk(w: seq<string>, optind: nat, start: int, end: int, off: nat) {
    && 1 <= optind <= |w|
    && (start == UNSET ==> end == UNSET)
    && (start != UNSET ==> 1 <= start < optind)
    && (end != UNSET ==> start < end <= optind)
    && (off == 0 && end != UNSET ==> end < optind)
    && (off > 0 ==> optind < |w| && off < |w[optind]|)
    && (off > 0 && start != UNSET ==> end != UNSET)
  }

  /** The scan that a layout stands for: the non-options passed over sit between
      the markers. */
  ghost function ViewOf(w: seq<string>, optind: nat, start: int, end: int, off: nat): View
    requires optind <= |w|
    requires start != UNSET ==> 0 <= start <= optind
    requires end != UNSET ==> start != UNSET && start <= end <= optind
  {
    var s := if start == UNSET then optind else start;
    var e := if end == UNSET then optind else end;
    View(w[..s], w[s..e], w[e..optind], w[optind..], off)
  }

  /** Nothing is left out of it. */
  lemma ViewIsArgv(w: seq<string>, optind: nat, start: int, end: int, off: nat)
    requires optind <= |w|
    requires start != UNSET ==> 0 <= start <= optind
    requires end != UNSET ==> start != UNSET && start <= end <= optind
    ensures var v := ViewOf(w, optind, start, end, off);
      && v.Argv() == w
      && optind == |v.done| + |v.operands| + |v.since|
      && (start == UNSET ==> v.operands == [] && v.since == [])
  {
  }

  /** Exchanging the blocks brings the options read since the non-options in front
      of them, and changes nothing else. */
  lemma ExchangeSettlesView(w: seq<string>, optind: nat, start: nat, end: nat)
    requires start <= end <= optind <= |w|
    ensures ViewOf(Exchanged(w, start, end, optind), optind, optind - (end - start), UNSET, 0)
      == ViewOf(w, optind, start, end, 0).Settled()
    ensures |Exchanged(w, start, end, optind)| == |w|
    ensures Exchanged(w, start, end, optind)[optind..] == w[optind..]
  {
    var x := Exchanged(w, start, end, optind);
    var s := optind - (end - start);
    assert x[..s] == w[..start] + w[end..optind];
    assert x[s..optind] == w[start..end];
    assert x[optind..optind] == [];
  }

  /** Passing over a non-option. */
  lemma PassOver(w: seq<string>, optind: nat, start: int, start': int, v: View)
    requires 1 <= optind < |w| && (start != UNSET ==> 1 <= start < optind)
    requires start' == if start == UNSET then optind else start
    requires v == ViewOf(w, optind, start, UNSET, 0)
    ensures MarkersOk(w, optind + 1, start', UNSET, 0)
    ensures v.rest != []
    ensures ViewOf(w, optind + 1, start', UNSET, 0) == v.Passed()
  {
    assert w[optind..][1..] == w[optind + 1..];
  }

  /** Using up k arguments of an option. */
  lemma UseUp(w: seq<string>, optind: nat, start: int, end: int, off: nat, k: nat, off': nat)
    requires optind + k <= |w|
    requires start == UNSET ==> end == UNSET
    requires start != UNSET ==> 0 <= start < end <= optind
    ensures ViewOf(w, optind + k, start, end, off') == ViewOf(w, optind, start, end, off).Used(k, off')
  {
    assert w[optind..][k..] == w[optind + k..];
    if start == UNSET {
      assert w[..optind] + w[optind..][..k] == w[..optind + k];
    } else {
      assert w[end..optind] + w[optind..][..k] == w[end..optind + k];
    }
  }

  /** Setting nonopt_end when an option follows non-options. */
  lemma MarkEnd(w: seq<string>, optind: nat, start: int, off: nat)
    requires optind <= |w| && start != UNSET && 0 <= start <= optind
    ensures ViewOf(w, optind, start, optind, off) == ViewOf(w, optind, start, UNSET, off)
  {
  }

  /** The last exchange leaves options, non-options and the rest in that order. */
  lemma SettleExchanged(w: seq<string>, optind: nat, start: nat, end: nat)
    requires start <= end <= optind <= |w|
    ensures var v := ViewOf(w, optind, start, end, 0);
      && Exchanged(w, start, end, optind) == v.Settled().Argv()
      && optind - (end - start) == |v.Options()|
  {
  }

  lemma SettleUnmoved(w: seq<string>, optind: nat, start: int)
    requires optind <= |w| && (start != UNSET ==> 0 <= start <= optind)
    ensures var v := ViewOf(w, optind, start, UNSET, 0);
      && w == v.Settled().Argv()
      && (if start == UNSET then optind else start) == |v.Options()|
  {
  }

  /** The result of a call that reads the option at optind, in this layout. */
  ghost function Advance(w: seq<string>, optind: nat, start: int, end: int, r: Reading): StepResult
    requires start != UNSET ==> 0 <= start <= optind
    requires end != UNSET ==> start != UNSET && start <= end <= optind
    requires optind <= |w| && (r.Reading? ==> optind + r.used <= |w|)
  {
    if r.LoneDash? then StoppedAtDash(ViewOf(w, optind, start, end, 0))
    else Got(r.out, ViewOf(w, optind + r.used, start, end, r.off))
  }

  lemma ReadFirstOf(cfg: Config, w: seq<string>, optind: nat, off: nat)
    requires optind < |w| && off < |w[optind]|
    ensures ReadFirst(cfg, w[optind..], off) == ReadOption(cfg, w[optind], off, Nth(w, optind + 1), Nth(w, optind + 2))
  {
    assert Nth(w[optind..], 1) == Nth(w, optind + 1) && Nth(w[optind..], 2) == Nth(w, optind + 2);
  }

  /** A reading keeps the markers in order. */
  lemma ReadingKeepsMarkers(w: seq<string>, optind: nat, start: int, end: int, off: nat, r: Reading)
    requires 1 <= optind < |w| && off < |w[optind]|
    requires start == UNSET ==> end == UNSET
    requires start != UNSET ==> 1 <= start < end <= optind
    requires r.Reading? && Fits(r, w[optind], off, |w| - optind)
    ensures MarkersOk(w, optind + r.used, start, end, r.off) && (r.off > 0 ==> r.used == 0)
  {
  }

  lemma ReadingAdvancesView(w: seq<string>, optind: nat, start: int, end: int, r: Reading)
    requires optind < |w| && (r.Reading? ==> optind + r.used <= |w|)
    requires start == UNSET ==> end == UNSET
    requires start != UNSET ==> 1 <= start < end <= optind
    ensures AfterReading(ViewOf(w, optind, start, end, 0), r) == Advance(w, optind, start, end, r)
  {
    if r.Reading? {
      UseUp(w, optind, start, end, 0, r.used, r.off);
    }
  }

  /** A reading of the option at optind moves the scan on within the layout. */
  lemma ReadingAdvances(cfg: Config, w: seq<string>, optind: nat, start: int, end: int, off: nat)
      returns (r: Reading, step: StepResult)
    requires 1 <= optind < |w| && off < |w[optind]|
    requires start == UNSET ==> end == UNSET
    requires start != UNSET ==> 1 <= start < end <= optind
    ensures r == ReadOption(cfg, w[optind], off, Nth(w, optind + 1), Nth(w, optind + 2))
    ensures r.Reading? ==> MarkersOk(w, optind + r.used, start, end, r.off) && (r.off > 0 ==> r.used == 0)
    ensures var v := ViewOf(w, optind, start, end, 0);
      && v.rest == w[optind..]
      && step == AfterReading(v, ReadFirst(cfg, v.rest, off))
      && step == Advance(w, optind, start, end, r)
  {
    r := ReadFirst(cfg, w[optind..], off);
    ReadFirstOf(cfg, w, optind, off);
    if r.Reading? {
      ReadingKeepsMarkers(w, optind, start, end, off, r);
    }
    ReadingAdvancesView(w, optind, start, end, r);
    step := AfterReading(ViewOf(w, optind, start, end, 0), r);
  }
}
