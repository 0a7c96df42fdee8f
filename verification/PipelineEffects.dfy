// What the pipeline does for those who call it, without the fold: which calls
// are queued, what is in each message a handler gets, and what it writes.
module PipelineEffects {
  import opened Wrappers
  import opened LogUtil
  import opened Pipeline
  import opened PipelineInvariant
  import opened PipelineSafety

  // ---- The severity limit ----------------------------------------------------

  /** The limits set by the work done. */
  function Limits(done: seq<Done>): seq<Option<int>> {
    seq(|done|, i requires 0 <= i < |done| =>
      match done[i].work
      case SeverityWork(level) => Some(level)
      case _ => None)
  }

  /** The limit is the one set last, and that of a notice before any is set. */
  lemma {:induction false} LimitIsLastSet(done: seq<Done>)
    ensures IsLast(Limits(done), 5, SettingsAfter(done).minSeverity)
  {
    if done == [] {
    } else {
      var before, last := done[..|done| - 1], done[|done| - 1];
      LimitIsLastSet(before);
      assert done == before + [last];
      assert Limits(done) == Limits(before) + [Limits([last])[0]];
      LastOfNext(Limits(before), 5, SettingsAfter(before).minSeverity, Limits([last])[0]);
    }
  }

  lemma OnlyLast<T>(given: seq<Option<T>>, before: T, x: T, y: T)
    requires IsLast(given, before, x) && IsLast(given, before, y)
    ensures x == y
  {
  }

  /** A call of log is queued exactly if its severity is not above the limit in
      force when it reads it; every other call is queued. */
  lemma CallIsQueued(states: seq<System>, steps: seq<Step>, p: nat, limit: int)
    requires IsRun(states, steps) && p < |steps| && steps[p].Invoke?
    requires steps[p].seen <= |states[p].done| && IsLast(Limits(states[p].done[..steps[p].seen]), 5, limit)
    ensures var s, s', w := states[p], states[p + 1], steps[p].work;
      s'.enqueued == s.enqueued + if w.LogWork? && w.severity > limit then [] else [w]
  {
    assert Enabled(states[p], steps[p]) && states[p + 1] == Apply(states[p], steps[p]);
    var seen := states[p].done[..steps[p].seen];
    LimitIsLastSet(seen);
    OnlyLast(Limits(seen), 5, limit, SettingsAfter(seen).minSeverity);
  }

  /** Once a call of setMinSeverity is done, a later call of log is queued exactly
      if its severity is not above the level given, unless another level was set
      before it read the limit. */
  lemma SetMinSeverityTakesEffect(states: seq<System>, steps: seq<Step>, m: nat, n: nat, p: nat, level: int)
    requires IsRun(states, steps) && m < n <= p < |steps|
    requires steps[m].Invoke? && steps[m].work == SeverityWork(level) && CallDone(states, steps, m, n)
    requires steps[p].Invoke? && steps[p].work.LogWork? && steps[p].seen >= |states[n].done|
    requires forall k :: |states[m].enqueued| < k < steps[p].seen && k < |states[p].done| ==>
               !states[p].done[k].work.SeverityWork?
    ensures var w := steps[p].work;
      states[p + 1].enqueued == states[p].enqueued + if w.severity <= level then [w] else []
  {
    assert Enabled(states[m], steps[m]);
    CallIsDone(states, steps, m, n, SeverityWork(level));
    QueuesGrow(states, steps, n, p);
    assert Enabled(states[p], steps[p]);
    var k, seen := |states[m].enqueued|, states[p].done[..steps[p].seen];
    assert Limits(seen)[k] == Some(level);
    CallIsQueued(states, steps, p, level);
  }

  // ---- Registrations ---------------------------------------------------------

  /** The registrations of handler h not yet undone. */
  ghost function Standing(done: seq<Done>, h: nat): set<nat> {
    set i: nat | i < |done| && done[i].work == AddHandlerWork(h)
                 && forall j :: i < j < |done| ==> done[j].work != RemoveAllWork
  }

  lemma StandingAfter(before: seq<Done>, last: Done, h: nat)
    ensures Standing(before + [last], h)
      == if last.work == RemoveAllWork then {}
         else if last.work == AddHandlerWork(h) then Standing(before, h) + {|before|}
         else Standing(before, h)
    ensures |before| !in Standing(before, h)
  {
    var done := before + [last];
    assert done[|before|] == last && forall i :: 0 <= i < |before| ==> done[i] == before[i];
    forall i: nat
      ensures i in Standing(done, h)
        <==> last.work != RemoveAllWork
             && (i in Standing(before, h) || (i == |before| && last.work == AddHandlerWork(h)))
    {
    }
  }

  /** A handler is registered as often as it was added since all were removed. */
  lemma {:induction false} RegisteredAsOftenAsAdded(done: seq<Done>, h: nat)
    ensures Times(SettingsAfter(done).handlers, h) == |Standing(done, h)|
  {
    if done == [] {
    } else {
      hide Standing, Times;
      var before, last := done[..|done| - 1], done[|done| - 1];
      assert done == before + [last];
      RegisteredAsOftenAsAdded(before, h);
      StandingAfter(before, last, h);
      if last.work.AddHandlerWork? {
        TimesAppend(SettingsAfter(before).handlers, last.work.handler, h);
      } else if last.work.RemoveAllWork? {
        NotRegistered([], h);
      }
    }
  }

  // ---- What is in a message --------------------------------------------------

  /** The host names, and the process ids and names, found by the work done. */
  function Hosts(done: seq<Done>): seq<Option<string>> {
    seq(|done|, i requires 0 <= i < |done| =>
      match done[i].work
      case IdentityWork(host, _, _) => host
      case _ => None)
  }

  function Processes(done: seq<Done>): seq<Option<(int, string)>> {
    seq(|done|, i requires 0 <= i < |done| =>
      match done[i].work
      case IdentityWork(_, id, name) => Some((id, name))
      case _ => None)
  }

  lemma {:induction false} IdentityIsLastFound(done: seq<Done>)
    ensures var base := SettingsAfter(done).base;
      IsLast(Hosts(done), "", base.host) && IsLast(Processes(done), (-1, ""), (base.processId, base.processName))
  {
    if done == [] {
    } else {
      var before, last := done[..|done| - 1], done[|done| - 1];
      var base := SettingsAfter(before).base;
      IdentityIsLastFound(before);
      assert done == before + [last];
      assert Hosts(done) == Hosts(before) + [Hosts([last])[0]];
      assert Processes(done) == Processes(before) + [Processes([last])[0]];
      LastOfNext(Hosts(before), "", base.host, Hosts([last])[0]);
      LastOfNext(Processes(before), (-1, ""), (base.processId, base.processName), Processes([last])[0]);
    }
  }

  /** Each key has the value written last, and the keys are in the order in which
      they were first written. */
  ghost predicate FieldsAre(fields: Fields, writes: Fields) {
    && UniqueKeys(fields) && Keys(fields) == Distinct(Keys(writes))
    && forall key :: Lookup(fields, key) == LastWritten(writes, key)
  }

  lemma {:induction false} PutAllInTurn(fields: Fields, a: Fields, b: Fields)
    ensures PutAll(fields, a + b) == PutAll(PutAll(fields, a), b)
  {
    if b == [] {
      assert a + b == a;
    } else {
      assert (a + b)[..|a + b| - 1] == a + b[..|b| - 1];
      PutAllInTurn(fields, a, b[..|b| - 1]);
    }
  }

  lemma FieldsOf(writes: Fields)
    ensures FieldsAre(PutAll([], writes), writes)
  {
    KeysPutAll([], writes);
    assert Keys([]) + Keys(writes) == Keys(writes);
    forall key
      ensures Lookup(PutAll([], writes), key) == LastWritten(writes, key)
    {
      LookupPutAll([], writes, key);
    }
  }

  /** The message r is what was logged by the j-th work done: it has the text, the
      severity and the thread of the call and the time at which the work was done,
      host and process as they were found last, and the fields added until then,
      with those of the call. */
  ghost predicate Tells(r: Record, done: seq<Done>, j: nat) {
    && j < |done| && done[j].work.LogWork?
    && var w := done[j].work;
       && r.messageString == w.text && r.severity == w.severity && r.threadId == w.threadId
       && r.timestamp == done[j].now
       && IsLast(Hosts(done[..j]), "", r.host)
       && IsLast(Processes(done[..j]), (-1, ""), (r.processId, r.processName))
       && FieldsAre(r.fields, FieldWrites(done[..j]) + w.extra)
  }

  lemma ComposedTells(done: seq<Done>, j: nat)
    requires j < |done| && done[j].work.LogWork?
    ensures Tells(Compose(SettingsAfter(done[..j]).base, done[j].work, done[j].now), done, j)
  {
    hide SettingsAfter, FieldWrites, IsLast, FieldsAre;
    var extra := done[j].work.extra;
    IdentityIsLastFound(done[..j]);
    BaseFields(done[..j]);
    PutAllInTurn([], FieldWrites(done[..j]), extra);
    FieldsOf(FieldWrites(done[..j]) + extra);
  }

  lemma TellsLater(r: Record, done: seq<Done>, d: Done, j: nat)
    requires Tells(r, done, j)
    ensures Tells(r, done + [d], j)
  {
    assert (done + [d])[..j] == done[..j];
  }

  /** Message i of handler h tells of work which[i]. */
  ghost predicate Told(messages: seq<Record>, done: seq<Done>, which: seq<nat>) {
    |messages| == |which| && forall i :: 0 <= i < |which| ==> Tells(messages[i], done, which[i])
  }

  predicate InOrder(which: seq<nat>) {
    forall i, j :: 0 <= i < j < |which| ==> which[i] <= which[j]
  }

  function Often(which: seq<nat>, j: nat): nat {
    multiset(which)[j]
  }

  /** Each call of log occurs as often as h was registered then. */
  ghost predicate AsOftenAsRegistered(which: seq<nat>, done: seq<Done>, h: nat) {
    forall j: nat :: Often(which, j) == if j < |done| && done[j].work.LogWork? then |Standing(done[..j], h)| else 0
  }

  lemma {:induction false} OftenAfter(which: seq<nat>, x: nat, n: nat, j: nat)
    ensures Often(which + Repeated<nat>(x, n), j) == Often(which, j) + if j == x then n else 0
  {
    if n == 0 {
      assert which + Repeated(x, 0) == which;
    } else {
      RepeatedOnce(x, n);
      OftenAfter(which, x, n - 1, j);
      assert which + Repeated<nat>(x, n) == which + Repeated<nat>(x, n - 1) + [x];
    }
  }

  lemma ToldNext(messages: seq<Record>, before: seq<Done>, last: Done, which: seq<nat>, r: Record, n: nat)
    requires Told(messages, before, which)
    requires n > 0 ==> Tells(r, before + [last], |before|)
    ensures Told(messages + Repeated(r, n), before + [last], which + Repeated<nat>(|before|, n))
  {
    hide Tells;
    forall i | 0 <= i < |which|
      ensures Tells(messages[i], before + [last], which[i])
    {
      TellsLater(messages[i], before, last, which[i]);
    }
  }

  lemma InOrderNext(messages: seq<Record>, before: seq<Done>, which: seq<nat>, n: nat)
    requires Told(messages, before, which) && InOrder(which)
    ensures InOrder(which + Repeated<nat>(|before|, n))
  {
    forall i | 0 <= i < |which|
      ensures which[i] < |before|
    {
      assert Tells(messages[i], before, which[i]);
    }
  }

  lemma OftenNext(which: seq<nat>, before: seq<Done>, last: Done, h: nat, n: nat)
    requires AsOftenAsRegistered(which, before, h)
    requires n == if last.work.LogWork? then |Standing(before, h)| else 0
    ensures AsOftenAsRegistered(which + Repeated<nat>(|before|, n), before + [last], h)
  {
    var done := before + [last];
    assert done[..|before|] == before && done[|before|] == last;
    forall j: nat
      ensures Often(which + Repeated<nat>(|before|, n), j)
        == if j < |done| && done[j].work.LogWork? then |Standing(done[..j], h)| else 0
    {
      OftenAfter(which, |before|, n, j);
      if j < |before| {
        assert done[..j] == before[..j] && done[j] == before[j];
      }
    }
  }

  /** What one more work sends to a handler: as many messages as it has
      registrations, if it is a call of log. */
  lemma ReceivedNext(before: seq<Done>, last: Done, h: nat) returns (r: Record, n: nat)
    ensures n == if last.work.LogWork? then |Standing(before, h)| else 0
    ensures Received(h, before + [last]) == Received(h, before) + Repeated(r, n)
    ensures n > 0 ==> Tells(r, before + [last], |before|)
  {
    hide Standing, Tells, Compose, SettingsAfter;
    ReceivedAppend(h, before, last);
    if last.work.LogWork? {
      RegisteredAsOftenAsAdded(before, h);
      assert (before + [last])[..|before|] == before;
      ComposedTells(before + [last], |before|);
      r, n := Compose(SettingsAfter(before).base, last.work, last.now), |Standing(before, h)|;
    } else {
      r, n := EMPTY_RECORD, 0;
    }
  }

  /** Each handler gets, for each call of log in turn, one message for each time it
      is registered then, and each message tells what was logged. */
  lemma {:induction false} MessagesTell(done: seq<Done>, h: nat) returns (which: seq<nat>)
    ensures Told(Received(h, done), done, which)
    ensures InOrder(which) && AsOftenAsRegistered(which, done, h)
  {
    if done == [] {
      which := [];
    } else {
      var before, last := done[..|done| - 1], done[|done| - 1];
      assert done == before + [last];
      hide Told, InOrder, AsOftenAsRegistered, Standing, Received, Tells;
      which := MessagesTell(before, h);
      var r, n := ReceivedNext(before, last, h);
      ToldNext(Received(h, before), before, last, which, r, n);
      InOrderNext(Received(h, before), before, which, n);
      OftenNext(which, before, last, h, n);
      which := which + Repeated<nat>(|before|, n);
    }
  }

  /** A message logged after the call that added a handler has returned is among
      those the handler gets, unless all handlers are removed in between. */
  lemma LaterMessageTold(states: seq<System>, steps: seq<Step>, m: nat, n: nat, p: nat, q: nat, h: nat, log: Work)
    requires IsRun(states, steps) && m < n <= p < q < |states|
    requires Calls(states, steps, m, AddHandlerWork(h)) && CallDone(states, steps, m, n)
    requires log.LogWork? && Calls(states, steps, p, log) && CallDone(states, steps, p, q)
    requires var done := states[q].done;
      forall k :: |states[m].enqueued| < k < |states[p].enqueued| ==> done[k].work != RemoveAllWork
    ensures var done, j := states[q].done, |states[p].enqueued|;
      exists r :: r in Received(h, done) && Tells(r, done, j)
        && r.messageString == log.text && r.severity == log.severity && r.threadId == log.threadId
        && r.timestamp == done[j].now
  {
    hide Received, SettingsAfter, Compose, FieldsAre;
    AddedHandlerGetsLaterMessages(states, steps, m, n, p, q, h, log);
    ComposedTells(states[q].done, |states[p].enqueued|);
  }

  /** The calls of log from work k on. */
  ghost predicate AreLogs(which: seq<nat>, done: seq<Done>, k: nat) {
    && (forall i, j :: 0 <= i < j < |which| ==> which[i] < which[j])
    && forall j: nat :: j in which <==> k <= j < |done| && done[j].work.LogWork?
  }

  lemma LogsNext(which: seq<nat>, before: seq<Done>, last: Done, k: nat)
    requires AreLogs(which, before, k) && k <= |before|
    ensures AreLogs(if last.work.LogWork? then which + [|before|] else which, before + [last], k)
  {
    assert forall i :: 0 <= i < |which| ==> which[i] in which;
    assert forall j: nat :: j in which ==> j < |before|;
  }

  lemma {:induction false} MessagesFromTell(done: seq<Done>, k: nat) returns (which: seq<nat>)
    requires k <= |done|
    ensures Told(MessagesFrom(done, k), done, which) && AreLogs(which, done, k)
  {
    if |done| == k {
      which := [];
    } else {
      var before, last := done[..|done| - 1], done[|done| - 1];
      assert done == before + [last];
      hide Tells, AreLogs, Told, MessagesFrom;
      which := MessagesFromTell(before, k);
      LogsNext(which, before, last, k);
      which := MessagesNext(before, last, k, which);
    }
  }

  lemma MessagesNext(before: seq<Done>, last: Done, k: nat, which: seq<nat>) returns (more: seq<nat>)
    requires k <= |before| && Told(MessagesFrom(before, k), before, which)
    ensures more == if last.work.LogWork? then which + [|before|] else which
    ensures Told(MessagesFrom(before + [last], k), before + [last], more)
  {
    var done, messages := before + [last], MessagesFrom(before, k);
    assert done[..|before|] == before;
    var r := if last.work.LogWork? then Compose(SettingsAfter(before).base, last.work, last.now) else EMPTY_RECORD;
    assert MessagesFrom(done, k) == messages + if last.work.LogWork? then [r] else [];
    hide Tells, Told, MessagesFrom, SettingsAfter, Compose;
    if last.work.LogWork? {
      ComposedTells(done, |before|);
      ToldNext(messages, before, last, which, r, 1);
      assert Repeated(r, 1) == [r] && Repeated<nat>(|before|, 1) == [|before|];
      more := which + [|before|];
    } else {
      ToldNext(messages, before, last, which, r, 0);
      assert messages + Repeated(r, 0) == messages + [] == messages && which + Repeated<nat>(|before|, 0) == which;
      more := which;
    }
  }

  /** A handler registered once, and neither removed nor registered again since,
      gets exactly one message for each call of log since, in their order. */
  lemma EachToldOnce(done: seq<Done>, k: nat, h: nat) returns (which: seq<nat>)
    requires k < |done| && done[k].work == AddHandlerWork(h) && h !in SettingsAfter(done[..k]).handlers
    requires NotAdded(done, k + 1, h) && forall i :: k < i < |done| ==> done[i].work != RemoveAllWork
    ensures AreLogs(which, done, k + 1) && Received(h, done[..k]) <= Received(h, done)
    ensures Told(Received(h, done)[|Received(h, done[..k])|..], done, which)
  {
    RegisteredGetsEachOnce(done, k, h);
    which := MessagesFromTell(done, k + 1);
    assert Received(h, done)[|Received(h, done[..k])|..] == MessagesFrom(done, k + 1);
  }

  // ---- What a handler writes -------------------------------------------------

  /** The functions set among a handler's work. */
  function Parsers(works: seq<SinkWork>): seq<Option<Record -> string>> {
    seq(|works|, i requires 0 <= i < |works| => if works[i].SetParser? then Some(works[i].parser) else None)
  }

  lemma {:induction false} ParserIsLastSet(w: Writer, works: seq<SinkWork>, goods: seq<bool>)
    requires |works| == |goods|
    ensures IsLast(Parsers(works), w.parser, WriteAll(w, works, goods).parser)
  {
    if works == [] {
    } else {
      var k := |works| - 1;
      var x := WriteAll(w, works[..k], goods[..k]).parser;
      ParserIsLastSet(w, works[..k], goods[..k]);
      assert Parsers(works) == Parsers(works[..k]) + [Parsers([works[k]])[0]];
      LastOfNext(Parsers(works[..k]), w.parser, x, Parsers([works[k]])[0]);
    }
  }

  /** The line is the text of the message that is the j-th work, by the function
      set last before it, or the one that the handler started with. */
  ghost predicate LineOf(line: string, works: seq<SinkWork>, j: nat, start: Record -> string) {
    && j < |works| && works[j].Deliver?
    && exists parser: Record -> string ::
         IsLast(Parsers(works[..j]), start, parser) && line == parser(works[j].record)
  }

  /** Line i is the text of the message that is work which[i]. */
  ghost predicate LinesOf(lines: seq<string>, works: seq<SinkWork>, which: seq<nat>, start: Record -> string) {
    |lines| == |which| && forall i :: 0 <= i < |which| ==> LineOf(lines[i], works, which[i], start)
  }

  /** The messages that come while the stream is good. */
  ghost predicate AreTaken(which: seq<nat>, works: seq<SinkWork>, goods: seq<bool>)
    requires |works| == |goods|
  {
    && (forall i, j :: 0 <= i < j < |which| ==> which[i] < which[j])
    && forall j: nat :: j in which <==> j < |works| && works[j].Deliver? && goods[j]
  }

  lemma TakenNext(which: seq<nat>, works: seq<SinkWork>, goods: seq<bool>, k: nat)
    requires |works| == |goods| == k + 1 && AreTaken(which, works[..k], goods[..k])
    ensures AreTaken(if works[k].Deliver? && goods[k] then which + [k] else which, works, goods)
  {
    var which' := if works[k].Deliver? && goods[k] then which + [k] else which;
    forall i | 0 <= i < |which|
      ensures which[i] < k
    {
      assert which[i] in which;
    }
    forall j: nat
      ensures j in which' <==> j < |works| && works[j].Deliver? && goods[j]
    {
      assert j in which <==> j < k && works[j].Deliver? && goods[j];
    }
  }

  lemma LinesNext(lines: seq<string>, works: seq<SinkWork>, which: seq<nat>, start: Record -> string, k: nat)
    requires k + 1 == |works| && LinesOf(lines, works[..k], which, start)
    ensures LinesOf(lines, works, which, start)
  {
    forall i | 0 <= i < |which|
      ensures LineOf(lines[i], works, which[i], start)
    {
      assert LineOf(lines[i], works[..k], which[i], start);
      assert works[..k][..which[i]] == works[..which[i]];
    }
  }

  /** A handler writes one line for each message that comes while its stream is
      good, in their order, and nothing else. */
  lemma {:induction false} WritesLines(w: Writer, works: seq<SinkWork>, goods: seq<bool>)
      returns (lines: seq<string>, which: seq<nat>)
    requires |works| == |goods|
    ensures WriteAll(w, works, goods).output == w.output + lines
    ensures LinesOf(lines, works, which, w.parser) && AreTaken(which, works, goods)
  {
    if works == [] {
      lines, which := [], [];
      assert w.output + [] == w.output;
    } else {
      hide *;
      var k := |works| - 1;
      lines, which := WritesLines(w, works[..k], goods[..k]);
      lines, which := LinesAndNext(w, works, goods, lines, which, k);
    }
  }

  lemma LinesAndNext(w: Writer, works: seq<SinkWork>, goods: seq<bool>, lines: seq<string>, which: seq<nat>, k: nat)
      returns (lines': seq<string>, which': seq<nat>)
    requires |works| == |goods| == k + 1
    requires WriteAll(w, works[..k], goods[..k]).output == w.output + lines
    requires LinesOf(lines, works[..k], which, w.parser) && AreTaken(which, works[..k], goods[..k])
    ensures WriteAll(w, works, goods).output == w.output + lines'
    ensures LinesOf(lines', works, which', w.parser) && AreTaken(which', works, goods)
  {
    hide *;
    TakenNext(which, works, goods, k);
    LinesNext(lines, works, which, w.parser, k);
    if works[k].Deliver? && goods[k] {
      var line := NextLine(w, works, goods, lines, which, k);
      lines', which' := lines + [line], which + [k];
      assert w.output + lines + [line] == w.output + lines';
    } else {
      NoLine(w, works, goods, k);
      lines', which' := lines, which;
    }
  }

  lemma NoLine(w: Writer, works: seq<SinkWork>, goods: seq<bool>, k: nat)
    requires |works| == |goods| == k + 1 && !(works[k].Deliver? && goods[k])
    ensures WriteAll(w, works, goods).output == WriteAll(w, works[..k], goods[..k]).output
  {
  }

  lemma NextLine(w: Writer, works: seq<SinkWork>, goods: seq<bool>, lines: seq<string>, which: seq<nat>, k: nat)
      returns (line: string)
    requires |works| == |goods| == k + 1 && works[k].Deliver? && goods[k]
    requires LinesOf(lines, works, which, w.parser)
    ensures WriteAll(w, works, goods).output == WriteAll(w, works[..k], goods[..k]).output + [line]
    ensures LinesOf(lines + [line], works, which + [k], w.parser)
  {
    var before := WriteAll(w, works[..k], goods[..k]);
    line := before.parser(works[k].record);
    ParserIsLastSet(w, works[..k], goods[..k]);
    assert LineOf(line, works, k, w.parser);
  }

  /** So it is in every run, for the work that the handler has done. */
  lemma HandlerWrites(states: seq<System>, steps: seq<Step>, n: nat, h: nat)
      returns (lines: seq<string>, which: seq<nat>)
    requires IsRun(states, steps) && n < |states| && h < |states[n].sinks|
    ensures var sink := states[n].sinks[h];
      && |sink.goods| <= |sink.accepted|
      && sink.writer.output == sink.start.output + lines
      && LinesOf(lines, sink.accepted[..|sink.goods|], which, sink.start.parser)
      && AreTaken(which, sink.accepted[..|sink.goods|], sink.goods)
  {
    PipelineRefinesFold(states, steps, n, h);
    var sink := states[n].sinks[h];
    lines, which := WritesLines(sink.start, sink.accepted[..sink.Count()], sink.goods);
  }

  /** Only the handler h is changed. */
  ghost predicate OthersKept(s: System, s': System, h: nat) {
    && h < |s.sinks| == |s'.sinks|
    && forall k :: 0 <= k < |s.sinks| && k != h ==> s'.sinks[k] == s.sinks[k]
  }

  /** A function set directly goes behind the messages that the handler was sent
      before, and only that handler gets it. */
  lemma ParserIsQueued(states: seq<System>, steps: seq<Step>, n: nat)
    requires IsRun(states, steps) && n < |steps| && steps[n].ChangeParser?
    ensures var s, s', h := states[n], states[n + 1], steps[n].handler;
      && OthersKept(s, s', h) && s' == s.(sinks := s'.sinks)
      && s'.sinks[h] == s.sinks[h].(accepted := s.sinks[h].accepted + [SetParser(steps[n].parser)])
  {
    assert Enabled(states[n], steps[n]) && states[n + 1] == Apply(states[n], steps[n]);
  }

  /** A handler's worker does the next of its work, and leaves the rest alone. */
  lemma SinkDoesNext(states: seq<System>, steps: seq<Step>, n: nat)
    requires IsRun(states, steps) && n < |steps| && steps[n].SinkRun?
    ensures var s, s', h := states[n], states[n + 1], steps[n].handler;
      && OthersKept(s, s', h) && s' == s.(sinks := s'.sinks)
      && s'.sinks[h].accepted == s.sinks[h].accepted && s'.sinks[h].start == s.sinks[h].start
      && s'.sinks[h].goods == s.sinks[h].goods + [steps[n].good]
  {
    assert Enabled(states[n], steps[n]) && states[n + 1] == Apply(states[n], steps[n]);
  }

  // ---- Flush -----------------------------------------------------------------

  /** When a flush is done each handler registered is to be asked. */
  lemma FlushAsks(states: seq<System>, steps: seq<Step>, n: nat)
    requires IsRun(states, steps) && n < |steps| && steps[n].Execute?
    requires |states[n].done| < |states[n].enqueued| && states[n].enqueued[|states[n].done|].FlushWork?
    ensures var s, s', handlers := states[n], states[n + 1], SettingsAfter(states[n].done).handlers;
      && s'.sinks == s.sinks && s'.settings == s.settings && s'.enqueued == s.enqueued
      && s'.flushing.Some? && |s'.flushing.value| == |handlers|
      && forall k :: 0 <= k < |handlers| ==> s'.flushing.value[k] == FlushPart(handlers[k], false, None)
  {
    ReachableInvariant(states, steps, n);
    assert Enabled(states[n], steps[n]) && states[n + 1] == Apply(states[n], steps[n]);
  }

  /** A handler that is asked puts the marker behind all that it was sent before;
      other handlers are not concerned. */
  lemma MarkerIsQueued(states: seq<System>, steps: seq<Step>, n: nat)
    requires IsRun(states, steps) && n < |steps| && steps[n].SendMarker?
    ensures var s, s', k := states[n], states[n + 1], steps[n].part;
      && s.flushing.Some? && k < |SettingsAfter(s.done).handlers| && s.done != []
      && var h, f := SettingsAfter(s.done).handlers[k], |s.done| - 1;
         && OthersKept(s, s', h)
         && s'.sinks[h] == s.sinks[h].(accepted := s.sinks[h].accepted + [Marker(f, k)])
  {
    ReachableInvariant(states, steps, n);
    assert Enabled(states[n], steps[n]) && states[n + 1] == Apply(states[n], steps[n]);
  }

  /** It may answer in time only if its worker has come to that marker, and so past
      every message it had been sent before. */
  lemma AnswerInTime(states: seq<System>, steps: seq<Step>, n: nat)
    requires IsRun(states, steps) && n < |steps| && steps[n].Answer?
    ensures var s, s', k := states[n], states[n + 1], steps[n].part;
      && s.flushing.Some? && s'.flushing.Some? && k < |s.flushing.value| == |s'.flushing.value|
      && s'.flushing.value[k].answer == Some(steps[n].inTime)
      && (forall i :: 0 <= i < |s.flushing.value| && i != k ==> s'.flushing.value[i] == s.flushing.value[i])
      && var h := s.flushing.value[k].handler;
         h < |s.sinks| && (steps[n].inTime ==> Received(h, s.done) <= Processed(s.sinks[h]))
  {
    ReachableInvariant(states, steps, n);
    ReachableInvariant(states, steps, n + 1);
    assert Enabled(states[n], steps[n]) && states[n + 1] == Apply(states[n], steps[n]);
    var k := steps[n].part;
    assert PartOk(states[n + 1], k, states[n + 1].flushing.value[k]);
  }

  /** A flush asks each handler registered when it is done, and returns true exactly
      if each has answered that its marker was reached in time. */
  lemma FlushResult(states: seq<System>, steps: seq<Step>, n: nat)
    requires IsRun(states, steps) && n < |steps| && steps[n].FinishFlush?
    ensures var s, s' := states[n], states[n + 1];
      && s.done != [] && s.flushing.Some? && s.done[|s.done| - 1].work == FlushWork
      && var f, parts, handlers := |s.done| - 1, s.flushing.value, SettingsAfter(s.done).handlers;
         && |parts| == |handlers| && (forall k :: 0 <= k < |parts| ==> parts[k].handler == handlers[k])
         && s'.results.Keys == s.results.Keys + {f}
         && (s'.results[f] <==> forall k :: 0 <= k < |parts| ==> parts[k].answer == Some(true))
         && (!s'.results[f] <==> exists k :: 0 <= k < |parts| && parts[k].answer == Some(false))
         && s'.flushing.None?
  {
    ReachableInvariant(states, steps, n);
    assert Enabled(states[n], steps[n]) && states[n + 1] == Apply(states[n], steps[n]);
    var parts := states[n].flushing.value;
    if k :| 0 <= k < |parts| && parts[k].answer != Some(true) {
      var inTime := parts[k].answer.value;
      assert parts[k].answer == Some(inTime);
    }
  }
}
