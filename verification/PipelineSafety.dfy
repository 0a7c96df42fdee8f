// What the invariant means for the users of the pipeline.
module PipelineSafety {
  import opened LogUtil
  import opened Pipeline
  import opened PipelineInvariant
  import opened Executor

  /** Whatever the threads did in between: the severity limit, the base message
      and the handlers are those of a fold over the work done; the work done is
      the first part of the calls that passed the limit when they were made; and
      each handler has been sent the messages of that fold, in order and once
      each, and has written those it has come to with the function set last. */
  lemma PipelineRefinesFold(states: seq<System>, steps: seq<Step>, n: nat, h: nat)
    requires IsRun(states, steps) && n < |states| && h < |states[n].sinks|
    ensures var s := states[n];
      && s.settings == SettingsAfter(s.done)
      && s.enqueued == Passed(s.calls, s.done)
      && |s.done| <= |s.enqueued| && (forall i :: 0 <= i < |s.done| ==> s.done[i].work == s.enqueued[i])
      && Deliveries(s.sinks[h].accepted) == Received(h, s.done)
      && s.sinks[h].Count() <= |s.sinks[h].accepted|
      && s.sinks[h].writer
         == WriteAll(s.sinks[h].start, s.sinks[h].accepted[..s.sinks[h].Count()], s.sinks[h].goods)
  {
    ReachableInvariant(states, steps, n);
    assert SinkOk(states[n].sinks[h], h, states[n].done);
  }

  /** The texts of messages, by one and the same function. */
  function Texts(parser: Record -> string, messages: seq<Record>): seq<string> {
    seq(|messages|, i requires 0 <= i < |messages| => parser(messages[i]))
  }

  lemma {:induction false} WritesTexts(w: Writer, works: seq<SinkWork>, goods: seq<bool>)
    requires |works| == |goods| && forall i :: 0 <= i < |works| ==> !works[i].SetParser? && goods[i]
    ensures WriteAll(w, works, goods) == w.(output := w.output + Texts(w.parser, Deliveries(works)))
  {
    if works == [] {
      assert w.output + Texts(w.parser, []) == w.output;
    } else {
      var before, last := works[..|works| - 1], works[|works| - 1];
      WritesTexts(w, before, goods[..|works| - 1]);
      assert works == before + [last];
      DeliveriesAppend(before, last);
      if last.Deliver? {
        assert Texts(w.parser, Deliveries(before) + [last.record])
          == Texts(w.parser, Deliveries(before)) + [w.parser(last.record)];
      }
    }
  }

  /** Once all queues are empty, a handler whose function was not changed and
      whose stream was always good has written exactly the messages of the fold
      over all the calls. */
  lemma DrainedOutput(states: seq<System>, steps: seq<Step>, n: nat, h: nat)
    requires IsRun(states, steps) && n < |states| && h < |states[n].sinks|
    requires var s := states[n];
      && |s.done| == |s.enqueued| && s.sinks[h].Count() == |s.sinks[h].accepted|
      && forall i :: 0 <= i < s.sinks[h].Count() ==> !s.sinks[h].accepted[i].SetParser? && s.sinks[h].goods[i]
    ensures var s := states[n];
      s.sinks[h].writer.output == s.sinks[h].start.output + Texts(s.sinks[h].start.parser, Received(h, s.done))
  {
    PipelineRefinesFold(states, steps, n, h);
    var sink := states[n].sinks[h];
    assert sink.accepted[..sink.Count()] == sink.accepted;
    WritesTexts(sink.start, sink.accepted, sink.goods);
  }

  /** If the flush carried out as the f-th work returned true, every handler
      registered then has dealt with every message logged before it. */
  lemma FlushTrueMeansProcessed(states: seq<System>, steps: seq<Step>, n: nat, f: nat, h: nat)
    requires IsRun(states, steps) && n < |states|
    requires f in states[n].results && states[n].results[f]
    requires f <= |states[n].done| && h in SettingsAfter(states[n].done[..f]).handlers
    ensures var s := states[n];
      && f < |s.done| && s.done[f].work == FlushWork && h < |s.sinks|
      && Received(h, s.done[..f]) <= Processed(s.sinks[h])
  {
    ReachableInvariant(states, steps, n);
    assert AllFlushed(states[n], f);
  }

  // ---- Calls that wait for the worker --------------------------------------

  lemma StepGrowsQueues(s: System, step: Step)
    requires Enabled(s, step)
    ensures s.enqueued <= Apply(s, step).enqueued && s.done <= Apply(s, step).done
  {
  }

  lemma {:induction false} QueuesGrow(states: seq<System>, steps: seq<Step>, m: nat, n: nat)
    requires IsRun(states, steps) && m <= n < |states|
    ensures states[m].enqueued <= states[n].enqueued && states[m].done <= states[n].done
  {
    hide Pipeline.Apply, Pipeline.Enabled;
    if m == n {
    } else {
      QueuesGrow(states, steps, m, n - 1);
      StepGrowsQueues(states[n - 1], steps[n - 1]);
    }
  }

  /** Step m is a call that is not given up: its work takes the next place in the
      queue. */
  ghost predicate Calls(states: seq<System>, steps: seq<Step>, m: nat, work: Work)
    requires IsRun(states, steps) && m < |steps|
  {
    && steps[m].Invoke? && steps[m].work == work && steps[m].seen <= |states[m].done|
    && Passes(work, SettingsAfter(states[m].done[..steps[m].seen]).minSeverity)
  }

  /** The work of that call has been done in state n, which is what a call that
      waits for the worker waits for. */
  ghost predicate CallDone(states: seq<System>, steps: seq<Step>, m: nat, n: nat)
    requires IsRun(states, steps) && m < n < |states|
  {
    |states[m].enqueued| < |states[n].done|
  }

  lemma CallIsDone(states: seq<System>, steps: seq<Step>, m: nat, n: nat, work: Work)
    requires IsRun(states, steps) && m < n < |states| && Calls(states, steps, m, work) && CallDone(states, steps, m, n)
    ensures states[n].done[|states[m].enqueued|].work == work
  {
    assert Enabled(states[m], steps[m]) && states[m + 1] == Apply(states[m], steps[m]);
    assert states[m + 1].enqueued == states[m].enqueued + [work];
    QueuesGrow(states, steps, m + 1, n);
    ReachableInvariant(states, steps, n);
  }

  lemma {:induction false} StaysRegistered(done: seq<Done>, i: nat, j: nat, h: nat)
    requires i < j <= |done| && done[i].work == AddHandlerWork(h)
    requires forall k :: i < k < j ==> done[k].work != RemoveAllWork
    ensures h in SettingsAfter(done[..j]).handlers
  {
    assert done[..j] == done[..j - 1] + [done[j - 1]];
    SettingsAppend(done[..j - 1], done[j - 1]);
    if j == i + 1 {
      var handlers := SettingsAfter(done[..i]).handlers;
      assert (handlers + [h])[|handlers|] == h;
    } else {
      StaysRegistered(done, i, j - 1, h);
      var k :| 0 <= k < |SettingsAfter(done[..j - 1]).handlers| && SettingsAfter(done[..j - 1]).handlers[k] == h;
      assert SettingsAfter(done[..j]).handlers[k] == h;
    }
  }

  /** A handler is registered for every message logged after the call that added
      it has returned, unless all handlers are removed in between. */
  lemma AddedHandlerGetsLaterMessages(states: seq<System>, steps: seq<Step>, m: nat, n: nat, p: nat, q: nat,
                                      h: nat, log: Work)
    requires IsRun(states, steps) && m < n <= p < q < |states|
    requires Calls(states, steps, m, AddHandlerWork(h)) && CallDone(states, steps, m, n)
    requires log.LogWork? && Calls(states, steps, p, log) && CallDone(states, steps, p, q)
    requires var done := states[q].done;
      forall k :: |states[m].enqueued| < k < |states[p].enqueued| ==> done[k].work != RemoveAllWork
    ensures var done, j := states[q].done, |states[p].enqueued|;
      && done[j].work == log
      && h in SettingsAfter(done[..j]).handlers
      && Compose(SettingsAfter(done[..j]).base, log, done[j].now) in Received(h, done)
  {
    var done, i, j := states[q].done, |states[m].enqueued|, |states[p].enqueued|;
    CallIsDone(states, steps, m, n, AddHandlerWork(h));
    CallIsDone(states, steps, p, q, log);
    QueuesGrow(states, steps, n, q);
    QueuesGrow(states, steps, n, p);
    ReachableInvariant(states, steps, n);
    StaysRegistered(done, i, j, h);
    MessageReceived(done, j, h);
  }

  lemma {:induction false} RegisteredOften(handlers: seq<nat>, h: nat)
    requires h in handlers
    ensures Times(handlers, h) > 0
  {
    if handlers[0] == h {
    } else {
      RegisteredOften(handlers[1..], h);
    }
  }

  /** What is sent to a handler registered at the time stays among its messages. */
  lemma {:induction false} MessageReceived(done: seq<Done>, j: nat, h: nat)
    requires j < |done| && done[j].work.LogWork? && h in SettingsAfter(done[..j]).handlers
    ensures Compose(SettingsAfter(done[..j]).base, done[j].work, done[j].now) in Received(h, done)
  {
    var before, last := done[..|done| - 1], done[|done| - 1];
    assert done == before + [last];
    ReceivedAppend(h, before, last);
    if j == |done| - 1 {
      RegisteredOften(SettingsAfter(before).handlers, h);
      var sent := Repeated(Compose(SettingsAfter(before).base, last.work, last.now),
                           Times(SettingsAfter(before).handlers, h));
      assert sent[0] == Compose(SettingsAfter(before).base, last.work, last.now);
      assert Received(h, done)[|Received(h, before)|] == sent[0];
    } else {
      assert before[..j] == done[..j];
      MessageReceived(before, j, h);
      var x := Compose(SettingsAfter(done[..j]).base, done[j].work, done[j].now);
      var k :| 0 <= k < |Received(h, before)| && Received(h, before)[k] == x;
      assert Received(h, done)[k] == x;
    }
  }

  // ---- Destruction ---------------------------------------------------------

  function WorksOf(done: seq<Done>): seq<Work> {
    seq(|done|, i requires 0 <= i < |done| => done[i].work)
  }

  /** The logger's executor is destroyed in state m, and its worker's loop has
      ended in state n, `behind` being what was sent behind the stop item. */
  ghost predicate LoggerEnded(states: seq<System>, m: nat, n: nat, behind: seq<Job<Work>>)
    requires m <= n < |states|
  {
    WorksOf(states[n].done) == TasksBeforeStop(Tasks(states[m].enqueued) + [Stop] + behind)
  }

  /** So are the executor of handler h in state m and its worker in state n. */
  ghost predicate HandlerEnded(states: seq<System>, m: nat, n: nat, h: nat, behind: seq<Job<SinkWork>>)
    requires m <= n < |states|
  {
    && h < |states[m].sinks| && h < |states[n].sinks|
    && var sink := states[n].sinks[h];
       && sink.Count() <= |sink.accepted|
       && sink.accepted[..sink.Count()] == TasksBeforeStop(Tasks(states[m].sinks[h].accepted) + [Stop] + behind)
  }

  lemma StepGrowsSink(s: System, step: Step, h: nat)
    requires Enabled(s, step) && h < |s.sinks|
    ensures |Apply(s, step).sinks| == |s.sinks|
    ensures s.sinks[h].accepted <= Apply(s, step).sinks[h].accepted
  {
  }

  lemma {:induction false} SinkGrows(states: seq<System>, steps: seq<Step>, m: nat, n: nat, h: nat)
    requires IsRun(states, steps) && m <= n < |states| && h < |states[m].sinks|
    ensures |states[n].sinks| == |states[m].sinks| && states[m].sinks[h].accepted <= states[n].sinks[h].accepted
  {
    hide Pipeline.Apply, Pipeline.Enabled;
    if m == n {
    } else {
      SinkGrows(states, steps, m, n - 1, h);
      StepGrowsSink(states[n - 1], steps[n - 1], h);
    }
  }

  /** When the logger's worker has ended, exactly the work sent before the
      destructor has been done, and each handler has been sent its messages. */
  lemma DestroyedMeansSent(states: seq<System>, steps: seq<Step>, m: nat, n: nat, h: nat, behind: seq<Job<Work>>)
    requires IsRun(states, steps) && m <= n < |states| && h < |states[n].sinks|
    requires LoggerEnded(states, m, n, behind)
    ensures WorksOf(states[n].done) == states[m].enqueued
    ensures Deliveries(states[n].sinks[h].accepted) == Received(h, states[n].done)
  {
    StopBehindTasks(states[m].enqueued, behind);
    PipelineRefinesFold(states, steps, n, h);
  }

  /** When the handler's worker has ended as well, the handler has dealt with all
      those messages, each written if its stream was good; among them every
      message logged before the logger was destroyed, if the handler was
      registered when it came to the message. */
  lemma DestroyedMeansProcessed(states: seq<System>, steps: seq<Step>, p: nat, m: nat, n: nat, q: nat, r: nat, h: nat,
                                log: Work, behind: seq<Job<Work>>, behind': seq<Job<SinkWork>>)
    requires IsRun(states, steps) && p < m <= n <= q <= r < |states| && h < |states[n].sinks|
    requires LoggerEnded(states, m, n, behind) && HandlerEnded(states, q, r, h, behind')
    requires log.LogWork? && Calls(states, steps, p, log)
    ensures var done, j, sink := states[n].done, |states[p].enqueued|, states[r].sinks[h];
      && j < |done| && done[j].work == log
      && Received(h, done) <= Processed(sink)
      && (h in SettingsAfter(done[..j]).handlers ==>
            Compose(SettingsAfter(done[..j]).base, log, done[j].now) in Processed(sink))
      && sink.Count() == |states[q].sinks[h].accepted|
      && sink.writer == WriteAll(sink.start, states[q].sinks[h].accepted, sink.goods)
  {
    var done, j, sink := states[n].done, |states[p].enqueued|, states[r].sinks[h];
    DestroyedMeansSent(states, steps, m, n, h, behind);
    assert Enabled(states[p], steps[p]) && states[p + 1] == Apply(states[p], steps[p]);
    QueuesGrow(states, steps, p + 1, m);
    assert |done| == |WorksOf(done)| && WorksOf(done)[j] == done[j].work;
    StopBehindTasks(states[q].sinks[h].accepted, behind');
    SinkGrows(states, steps, n, q, h);
    var sent := states[q].sinks[h].accepted;
    assert sent[..|states[n].sinks[h].accepted|] == states[n].sinks[h].accepted && sent[..|sent|] == sent;
    DeliveriesMonotone(sent, |states[n].sinks[h].accepted|, |sent|);
    PipelineRefinesFold(states, steps, r, h);
    if h in SettingsAfter(done[..j]).handlers {
      MessageReceived(done, j, h);
    }
  }

  // ---- The fold ------------------------------------------------------------

  /** A message that a registered handler gets is the base message with each
      field's value replaced by the last one given in the call, if any. */
  lemma ComposedFields(base: Record, w: Work, now: int, key: string)
    requires w.LogWork?
    ensures var r := Compose(base, w, now);
      && Lookup(r.fields, key)
         == (if LastWritten(w.extra, key).Some? then LastWritten(w.extra, key) else Lookup(base.fields, key))
      && (UniqueKeys(base.fields) ==>
            UniqueKeys(r.fields) && Keys(r.fields) == Distinct(Keys(base.fields) + Keys(w.extra)))
  {
    LookupPutAll(base.fields, w.extra, key);
    if UniqueKeys(base.fields) {
      KeysPutAll(base.fields, w.extra);
    }
  }

  /** The writes that addField has made to the base message. */
  function FieldWrites(done: seq<Done>): Fields {
    if done == [] then []
    else
      var last := done[|done| - 1].work;
      FieldWrites(done[..|done| - 1]) + if last.FieldWork? then [(last.key, last.value)] else []
  }

  /** The base message has the fields written so far; log never changes it. */
  lemma {:induction false} BaseFields(done: seq<Done>)
    ensures SettingsAfter(done).base.fields == PutAll([], FieldWrites(done))
  {
    if done != [] {
      var before, last := done[..|done| - 1], done[|done| - 1].work;
      BaseFields(before);
      if last.FieldWork? {
        assert FieldWrites(done)[..|FieldWrites(before)|] == FieldWrites(before);
      } else {
        assert FieldWrites(done) == FieldWrites(before);
      }
    }
  }

  /** So its keys are unique, in the order in which they were first added. */
  lemma BaseKeys(done: seq<Done>)
    ensures UniqueKeys(SettingsAfter(done).base.fields)
    ensures Keys(SettingsAfter(done).base.fields) == Distinct(Keys(FieldWrites(done)))
  {
    BaseFields(done);
    KeysPutAll([], FieldWrites(done));
    assert Keys([]) + Keys(FieldWrites(done)) == Keys(FieldWrites(done));
  }

  /** From work k on handler h is not registered again. */
  ghost predicate NotAdded(done: seq<Done>, k: nat, h: nat) {
    forall i :: k <= i < |done| ==> done[i].work != AddHandlerWork(h)
  }

  /** After all handlers were removed nothing reaches one of them until it is
      registered again, whatever else is done. */
  lemma {:induction false} RemovedGetsNothing(done: seq<Done>, k: nat, h: nat)
    requires k < |done| && done[k].work == RemoveAllWork && NotAdded(done, k, h)
    ensures h !in SettingsAfter(done).handlers
    ensures Received(h, done) == Received(h, done[..k])
  {
    var before := done[..|done| - 1];
    assert done == before + [done[|done| - 1]];
    ReceivedAppend(h, before, done[|done| - 1]);
    if k == |done| - 1 {
      assert Received(h, done) == Received(h, before) + [];
    } else {
      RemovedGetsNothing(before, k, h);
      assert before[..k] == done[..k];
      NotRegistered(SettingsAfter(before).handlers, h);
    }
  }

  /** The messages logged from work k on, as they are composed. */
  function MessagesFrom(done: seq<Done>, k: nat): seq<Record>
    decreases |done|
  {
    if |done| <= k then []
    else
      var before, last := done[..|done| - 1], done[|done| - 1];
      MessagesFrom(before, k)
        + if last.work.LogWork? then [Compose(SettingsAfter(before).base, last.work, last.now)] else []
  }

  /** A handler registered once, and neither removed nor registered again since,
      gets every message logged since exactly once, in order. */
  lemma {:induction false} RegisteredGetsEachOnce(done: seq<Done>, k: nat, h: nat)
    requires k < |done| && done[k].work == AddHandlerWork(h) && h !in SettingsAfter(done[..k]).handlers
    requires NotAdded(done, k + 1, h) && forall i :: k < i < |done| ==> done[i].work != RemoveAllWork
    ensures Times(SettingsAfter(done).handlers, h) == 1
    ensures Received(h, done) == Received(h, done[..k]) + MessagesFrom(done, k + 1)
  {
    var before, last := done[..|done| - 1], done[|done| - 1];
    assert done == before + [last];
    ReceivedAppend(h, before, last);
    SettingsAppend(before, last);
    if k == |done| - 1 {
      NotRegistered(SettingsAfter(before).handlers, h);
      TimesAppend(SettingsAfter(before).handlers, h, h);
      assert Received(h, done) == Received(h, done[..k]) + [];
    } else {
      assert before[..k] == done[..k];
      assert forall i :: 0 <= i < |before| ==> before[i] == done[i];
      RegisteredGetsEachOnce(before, k, h);
      if last.work.AddHandlerWork? {
        TimesAppend(SettingsAfter(before).handlers, last.work.handler, h);
      } else if last.work.LogWork? {
        assert Repeated(Compose(SettingsAfter(before).base, last.work, last.now), 1)
          == [Compose(SettingsAfter(before).base, last.work, last.now)];
      }
    }
  }
}
