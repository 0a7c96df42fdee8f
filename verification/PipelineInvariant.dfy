// What every reachable state of the pipeline satisfies, and that it amounts to
// a fold over the work done.
module PipelineInvariant {
  import opened Wrappers
  import opened LogUtil
  import opened Pipeline

  // ---- Sequences -----------------------------------------------------------

  lemma Regroup<T>(a: seq<T>, b: seq<T>, c: seq<T>)
    ensures (a + b) + c == a + (b + c)
  {
  }

  lemma DeliveriesAppend(works: seq<SinkWork>, w: SinkWork)
    ensures Deliveries(works + [w]) == Deliveries(works) + if w.Deliver? then [w.record] else []
  {
    assert (works + [w])[..|works|] == works;
  }

  lemma RepeatedOnce<T>(x: T, n: nat)
    requires n > 0
    ensures Repeated(x, n) == Repeated(x, n - 1) + [x]
  {
  }

  lemma {:induction false} DeliveriesRepeated(works: seq<SinkWork>, r: Record, n: nat)
    ensures Deliveries(works + Repeated(Deliver(r), n)) == Deliveries(works) + Repeated(r, n)
  {
    if n == 0 {
      assert works + Repeated(Deliver(r), 0) == works;
    } else {
      hide Deliveries, Repeated;
      DeliveriesRepeated(works, r, n - 1);
      DeliveriesAppend(works + Repeated(Deliver(r), n - 1), Deliver(r));
      RepeatedOnce(Deliver(r), n);
      RepeatedOnce(r, n);
      Regroup(works, Repeated(Deliver(r), n - 1), [Deliver(r)]);
      Regroup(Deliveries(works), Repeated(r, n - 1), [r]);
    }
  }

  lemma {:induction false} DeliveriesMonotone(works: seq<SinkWork>, i: nat, j: nat)
    requires i <= j <= |works|
    ensures Deliveries(works[..i]) <= Deliveries(works[..j])
  {
    if i == j {
    } else {
      DeliveriesMonotone(works, i, j - 1);
      DeliveriesAppend(works[..j - 1], works[j - 1]);
      assert works[..j - 1] + [works[j - 1]] == works[..j];
    }
  }

  lemma {:induction false} PassedStable(calls: seq<Call>, done: seq<Done>, d: Done)
    requires forall i :: 0 <= i < |calls| ==> calls[i].seen <= |done|
    ensures Passed(calls, done + [d]) == Passed(calls, done)
  {
    if calls == [] {
    } else {
      PassedStable(calls[..|calls| - 1], done, d);
      var seen := calls[|calls| - 1].seen;
      assert (done + [d])[..seen] == done[..seen];
    }
  }

  lemma SettingsAppend(done: seq<Done>, d: Done)
    ensures SettingsAfter(done + [d]) == After(SettingsAfter(done), d.work)
  {
    assert (done + [d])[..|done|] == done;
  }

  lemma ReceivedAppend(h: nat, done: seq<Done>, d: Done)
    ensures var s := SettingsAfter(done);
      Received(h, done + [d]) == Received(h, done)
        + if d.work.LogWork? then Repeated(Compose(s.base, d.work, d.now), Times(s.handlers, h)) else []
  {
    assert (done + [d])[..|done|] == done;
  }

  lemma {:induction false} TimesAppend(handlers: seq<nat>, x: nat, h: nat)
    ensures Times(handlers + [x], h) == Times(handlers, h) + if x == h then 1 else 0
  {
    if handlers == [] {
      assert [x][1..] == [];
    } else {
      assert (handlers + [x])[1..] == handlers[1..] + [x];
      TimesAppend(handlers[1..], x, h);
    }
  }

  lemma {:induction false} NotRegistered(handlers: seq<nat>, h: nat)
    requires forall i :: 0 <= i < |handlers| ==> handlers[i] != h
    ensures Times(handlers, h) == 0
  {
    if handlers == [] {
    } else {
      NotRegistered(handlers[1..], h);
    }
  }

  // ---- The invariant -------------------------------------------------------

  ghost predicate HistoryOk(s: System) {
    && |s.done| <= |s.enqueued|
    && (forall i :: 0 <= i < |s.done| ==> s.done[i].work == s.enqueued[i])
    && (forall i :: 0 <= i < |s.calls| ==> s.calls[i].seen <= |s.done|)
    && s.enqueued == Passed(s.calls, s.done)
    && s.settings == SettingsAfter(s.done)
  }

  ghost predicate HandlersExist(s: System) {
    && (forall i :: 0 <= i < |s.settings.handlers| ==> s.settings.handlers[i] < |s.sinks|)
    && (forall i :: 0 <= i < |s.enqueued| && s.enqueued[i].AddHandlerWork? ==> s.enqueued[i].handler < |s.sinks|)
  }

  /** A handler has been sent what the fold says, and has done part of it. */
  ghost predicate SinkOk(sink: Sink, h: nat, done: seq<Done>) {
    && sink.Count() <= |sink.accepted|
    && sink.writer == WriteAll(sink.start, sink.accepted[..sink.Count()], sink.goods)
    && Deliveries(sink.accepted) == Received(h, done)
    && (forall j :: 0 <= j < |sink.accepted| && sink.accepted[j].Marker? ==> sink.accepted[j].flush < |done|)
  }

  /** The messages a handler has dealt with. */
  function Processed(sink: Sink): seq<Record> {
    Deliveries(sink.accepted[..if sink.Count() <= |sink.accepted| then sink.Count() else |sink.accepted|])
  }

  /** A marker stands behind all the messages logged before the flush. */
  ghost predicate MarkerBehind(sink: Sink, marker: SinkWork, messages: seq<Record>) {
    forall j :: 0 <= j < |sink.accepted| && sink.accepted[j] == marker ==> messages <= Deliveries(sink.accepted[..j])
  }

  ghost predicate PartOk(s: System, k: nat, part: FlushPart) {
    && part.handler < |s.sinks| && s.done != []
    && MarkerBehind(s.sinks[part.handler], Marker(|s.done| - 1, k), Received(part.handler, s.done))
    && (part.answer == Some(true) ==> Received(part.handler, s.done) <= Processed(s.sinks[part.handler]))
  }

  ghost predicate FlushingOk(s: System) {
    s.flushing.Some? ==>
      && s.done != [] && s.done[|s.done| - 1].work == FlushWork
      && |s.flushing.value| == |s.settings.handlers|
      && forall k :: 0 <= k < |s.flushing.value| ==>
           s.flushing.value[k].handler == s.settings.handlers[k] && PartOk(s, k, s.flushing.value[k])
  }

  /** Handler h has dealt with every message logged before the flush at f. */
  ghost predicate Flushed(s: System, f: nat, h: nat) {
    h < |s.sinks| && f <= |s.done| && Received(h, s.done[..f]) <= Processed(s.sinks[h])
  }

  /** So has every handler registered then. */
  ghost predicate AllFlushed(s: System, f: nat) {
    f <= |s.done| && forall h :: h in SettingsAfter(s.done[..f]).handlers ==> Flushed(s, f, h)
  }

  ghost predicate ResultsOk(s: System) {
    forall f :: f in s.results ==>
      && f < |s.done| && s.done[f].work == FlushWork
      && (s.results[f] ==> AllFlushed(s, f))
  }

  ghost predicate Inv(s: System) {
    && HistoryOk(s)
    && HandlersExist(s)
    && (forall h :: 0 <= h < |s.sinks| ==> SinkOk(s.sinks[h], h, s.done))
    && FlushingOk(s)
    && ResultsOk(s)
  }

  // ---- Handlers that only get on -------------------------------------------

  ghost predicate GetsOn(a: Sink, b: Sink) {
    a.Count() <= |a.accepted| && a.accepted <= b.accepted && a.Count() <= b.Count() <= |b.accepted|
  }

  lemma ProcessedGrows(a: Sink, b: Sink)
    requires GetsOn(a, b)
    ensures Processed(a) <= Processed(b)
  {
    assert a.accepted[..a.Count()] == b.accepted[..a.Count()];
    DeliveriesMonotone(b.accepted, a.Count(), b.Count());
  }

  lemma AllFlushedKept(s: System, s': System, f: nat)
    requires AllFlushed(s, f) && s.done <= s'.done && |s.sinks| == |s'.sinks|
    requires forall h :: 0 <= h < |s.sinks| ==> GetsOn(s.sinks[h], s'.sinks[h])
    ensures AllFlushed(s', f)
  {
    assert s'.done[..f] == s.done[..f];
    forall h | h in SettingsAfter(s.done[..f]).handlers
      ensures Flushed(s', f, h)
    {
      assert Flushed(s, f, h);
      ProcessedGrows(s.sinks[h], s'.sinks[h]);
    }
  }

  lemma ResultsKept(s: System, s': System)
    requires ResultsOk(s) && s'.results == s.results && s.done <= s'.done && |s.sinks| == |s'.sinks|
    requires forall h :: 0 <= h < |s.sinks| ==> GetsOn(s.sinks[h], s'.sinks[h])
    ensures ResultsOk(s')
  {
    forall f | f in s.results && s.results[f]
      ensures AllFlushed(s', f)
    {
      AllFlushedKept(s, s', f);
    }
  }

  // ---- Calls and the worker ------------------------------------------------

  lemma InvokeKeepsHistory(s: System, w: Work, seen: nat)
    requires HistoryOk(s) && Enabled(s, Invoke(w, seen))
    ensures HistoryOk(Apply(s, Invoke(w, seen)))
  {
    hide SettingsAfter, Passes;
    assert (s.calls + [Call(w, seen)])[..|s.calls|] == s.calls;
  }

  lemma InvokeKeeps(s: System, w: Work, seen: nat)
    requires Inv(s) && Enabled(s, Invoke(w, seen))
    ensures Inv(Apply(s, Invoke(w, seen)))
  {
    var s' := Apply(s, Invoke(w, seen));
    InvokeKeepsHistory(s, w, seen);
    hide SettingsAfter, SinkOk, Passes, HistoryOk;
    assert forall k :: 0 <= k < |s'.sinks| ==> SinkOk(s'.sinks[k], k, s'.done);
    FlushingSame(s, s');
    SinksSame(s, s');
    ResultsKept(s, s');
  }

  lemma SinksSame(s: System, s': System)
    requires s'.sinks == s.sinks && forall h :: 0 <= h < |s.sinks| ==> SinkOk(s.sinks[h], h, s.done)
    ensures forall h :: 0 <= h < |s.sinks| ==> GetsOn(s.sinks[h], s'.sinks[h])
  {
  }

  lemma FlushingSame(s: System, s': System)
    requires FlushingOk(s) && s'.flushing == s.flushing && s'.done == s.done && s'.sinks == s.sinks
    requires s'.settings == s.settings
    ensures FlushingOk(s')
  {
    if s.flushing.Some? {
      forall k | 0 <= k < |s.flushing.value|
        ensures PartOk(s', k, s.flushing.value[k])
      {
        assert PartOk(s, k, s.flushing.value[k]);
      }
    }
  }

  /** The handler's side of the worker's step. */
  lemma SinkAfterExecute(sink: Sink, h: nat, done: seq<Done>, d: Done, sent: seq<SinkWork>)
    requires SinkOk(sink, h, done)
    requires var s := SettingsAfter(done);
      sent == if d.work.LogWork? then Repeated(Deliver(Compose(s.base, d.work, d.now)), Times(s.handlers, h)) else []
    ensures SinkOk(sink.(accepted := sink.accepted + sent), h, done + [d])
    ensures GetsOn(sink, sink.(accepted := sink.accepted + sent))
  {
    hide SettingsAfter, Received, Deliveries, WriteAll, Compose, Times;
    var sink' := sink.(accepted := sink.accepted + sent);
    var s := SettingsAfter(done);
    ReceivedAppend(h, done, d);
    if d.work.LogWork? {
      DeliveriesRepeated(sink.accepted, Compose(s.base, d.work, d.now), Times(s.handlers, h));
    } else {
      assert sink'.accepted == sink.accepted;
    }
    assert sink'.accepted[..sink.Count()] == sink.accepted[..sink.Count()];
  }

  lemma ExecuteKeepsHistory(s: System, now: int)
    requires Inv(s) && Enabled(s, Execute(now))
    ensures HistoryOk(Apply(s, Execute(now)))
  {
    hide SettingsAfter, Received, Deliveries, WriteAll, Passed, Compose, DeliverAll;
    var d := Done(s.enqueued[|s.done|], now);
    PassedStable(s.calls, s.done, d);
    SettingsAppend(s.done, d);
    var s' := Apply(s, Execute(now));
    assert s'.done == s.done + [d] && s'.settings == After(s.settings, d.work);
    assert s'.calls == s.calls && s'.enqueued == s.enqueued;
  }

  lemma ExecuteKeepsHandlers(s: System, now: int)
    requires Inv(s) && Enabled(s, Execute(now))
    ensures HandlersExist(Apply(s, Execute(now)))
  {
    var s' := Apply(s, Execute(now));
    var w := s.enqueued[|s.done|];
    assert |s'.sinks| == |s.sinks| && s'.enqueued == s.enqueued;
    assert s'.settings.handlers == match w
      case AddHandlerWork(h) => s.settings.handlers + [h]
      case RemoveAllWork => []
      case _ => s.settings.handlers;
  }

  lemma ExecuteKeepsSinks(s: System, now: int)
    requires Inv(s) && Enabled(s, Execute(now))
    ensures var s' := Apply(s, Execute(now));
      && |s'.sinks| == |s.sinks|
      && forall h :: 0 <= h < |s.sinks| ==> SinkOk(s'.sinks[h], h, s'.done) && GetsOn(s.sinks[h], s'.sinks[h])
  {
    var s' := Apply(s, Execute(now));
    var d := Done(s.enqueued[|s.done|], now);
    forall h | 0 <= h < |s.sinks|
      ensures SinkOk(s'.sinks[h], h, s'.done) && GetsOn(s.sinks[h], s'.sinks[h])
    {
      assert SinkOk(s.sinks[h], h, s.done);
      var sent := if d.work.LogWork? then
                    Repeated(Deliver(Compose(s.settings.base, d.work, now)), Times(s.settings.handlers, h))
                  else [];
      SinkAfterExecute(s.sinks[h], h, s.done, d, sent);
      if !d.work.LogWork? { assert s.sinks[h].accepted + sent == s.sinks[h].accepted; }
    }
  }

  lemma ExecuteStartsFlush(s: System, now: int)
    requires Inv(s) && Enabled(s, Execute(now))
    ensures FlushingOk(Apply(s, Execute(now)))
  {
    var s' := Apply(s, Execute(now));
    if s.enqueued[|s.done|].FlushWork? {
      forall k | 0 <= k < |s'.flushing.value|
        ensures PartOk(s', k, s'.flushing.value[k])
      {
        var h := s.settings.handlers[k];
        // no marker of this flush has been sent yet
        assert SinkOk(s.sinks[h], h, s.done);
      }
    }
  }

  lemma ExecuteKeeps(s: System, now: int)
    requires Inv(s) && Enabled(s, Execute(now))
    ensures Inv(Apply(s, Execute(now)))
  {
    hide SettingsAfter, Received, Deliveries, WriteAll, Passed;
    var s' := Apply(s, Execute(now));
    ExecuteKeepsHistory(s, now);
    ExecuteKeepsHandlers(s, now);
    ExecuteKeepsSinks(s, now);
    ExecuteStartsFlush(s, now);
    assert forall h :: 0 <= h < |s.sinks| ==> SinkOk(s.sinks[h], h, s.done);
    ResultsKept(s, s');
  }

  // ---- The handlers --------------------------------------------------------

  /** A handler that is sent something other than a message. */
  lemma SentKeeps(sink: Sink, h: nat, done: seq<Done>, w: SinkWork)
    requires SinkOk(sink, h, done) && !w.Deliver? && (w.Marker? ==> w.flush < |done|)
    ensures var sink' := sink.(accepted := sink.accepted + [w]); SinkOk(sink', h, done) && GetsOn(sink, sink')
  {
    DeliveriesAppend(sink.accepted, w);
    assert (sink.accepted + [w])[..sink.Count()] == sink.accepted[..sink.Count()];
  }

  /** Markers keep their place behind the messages. */
  lemma MarkerStaysBehind(sink: Sink, marker: SinkWork, messages: seq<Record>, w: SinkWork)
    requires MarkerBehind(sink, marker, messages)
    requires w == marker ==> messages <= Deliveries(sink.accepted)
    ensures MarkerBehind(sink.(accepted := sink.accepted + [w]), marker, messages)
  {
    var sink' := sink.(accepted := sink.accepted + [w]);
    forall j | 0 <= j < |sink'.accepted| && sink'.accepted[j] == marker
      ensures messages <= Deliveries(sink'.accepted[..j])
    {
      assert sink'.accepted[..j] == sink.accepted[..j];
    }
  }

  lemma SendKeeps(s: System, s': System, h: nat, w: SinkWork)
    requires Inv(s) && h < |s.sinks| && !w.Deliver? && (w.Marker? ==> w.flush < |s.done|)
    requires s' == s.(sinks := SendTo(s.sinks, h, w))
    ensures Inv(s')
  {
    forall i | 0 <= i < |s.sinks|
      ensures SinkOk(s'.sinks[i], i, s'.done) && GetsOn(s.sinks[i], s'.sinks[i])
    {
      assert SinkOk(s.sinks[i], i, s.done);
      if i == h { SentKeeps(s.sinks[h], h, s.done, w); }
    }
    if s.flushing.Some? {
      forall k | 0 <= k < |s.flushing.value|
        ensures PartOk(s', k, s.flushing.value[k])
      {
        PartAfterSend(s, s', h, w, k);
      }
    }
    ResultsKept(s, s');
  }

  lemma PartAfterSend(s: System, s': System, h: nat, w: SinkWork, k: nat)
    requires Inv(s) && h < |s.sinks| && s' == s.(sinks := SendTo(s.sinks, h, w))
    requires s.flushing.Some? && k < |s.flushing.value|
    ensures PartOk(s', k, s.flushing.value[k])
  {
    hide SettingsAfter, Received, Deliveries, WriteAll;
    var part := s.flushing.value[k];
    assert PartOk(s, k, part);
    var sink := s.sinks[part.handler];
    assert SinkOk(sink, part.handler, s.done);
    if part.handler == h {
      MarkerStaysBehind(sink, Marker(|s.done| - 1, k), Received(h, s.done), w);
      assert s'.sinks[h].accepted[..sink.Count()] == sink.accepted[..sink.Count()];
    }
  }

  lemma WriteNext(w: Writer, works: seq<SinkWork>, goods: seq<bool>, good: bool)
    requires |goods| < |works|
    ensures WriteAll(w, works[..|goods| + 1], goods + [good])
      == Write(WriteAll(w, works[..|goods|], goods), works[|goods|], good)
  {
    assert works[..|goods| + 1][..|goods|] == works[..|goods|] && (goods + [good])[..|goods|] == goods;
  }

  lemma SinkRunKeeps(s: System, h: nat, good: bool)
    requires Inv(s) && Enabled(s, SinkRun(h, good))
    ensures Inv(Apply(s, SinkRun(h, good)))
  {
    var s' := Apply(s, SinkRun(h, good));
    assert SinkOk(s.sinks[h], h, s.done);
    WriteNext(s.sinks[h].start, s.sinks[h].accepted, s.sinks[h].goods, good);
    forall i | 0 <= i < |s.sinks|
      ensures SinkOk(s'.sinks[i], i, s'.done) && GetsOn(s.sinks[i], s'.sinks[i])
    {
      assert SinkOk(s.sinks[i], i, s.done);
    }
    if s.flushing.Some? {
      forall k | 0 <= k < |s.flushing.value|
        ensures PartOk(s', k, s.flushing.value[k])
      {
        PartAfterRun(s, s', h, good, k);
      }
    }
    ResultsKept(s, s');
  }

  lemma PartAfterRun(s: System, s': System, h: nat, good: bool, k: nat)
    requires Inv(s) && Enabled(s, SinkRun(h, good)) && s' == Apply(s, SinkRun(h, good))
    requires s.flushing.Some? && k < |s.flushing.value|
    ensures PartOk(s', k, s.flushing.value[k])
  {
    var part := s.flushing.value[k];
    assert PartOk(s, k, part) && SinkOk(s.sinks[part.handler], part.handler, s.done);
    ProcessedGrows(s.sinks[part.handler], s'.sinks[part.handler]);
  }

  // ---- The flush -----------------------------------------------------------

  lemma SendMarkerKeeps(s: System, k: nat)
    requires Inv(s) && Enabled(s, SendMarker(k))
    ensures Inv(Apply(s, SendMarker(k)))
  {
    hide SettingsAfter, Received, Deliveries, WriteAll, MarkerBehind, Processed;
    var part := s.flushing.value[k];
    var marker := Marker(|s.done| - 1, k);
    var s1 := s.(sinks := SendTo(s.sinks, part.handler, marker));
    SendKeeps(s, s1, part.handler, marker);
    var s' := Apply(s, SendMarker(k));
    assert s' == s1.(flushing := Some(s1.flushing.value[k := part.(sent := true)]));
    PartChanged(s1, s', k, part.(sent := true));
  }

  /** A change to one part of a flush. */
  lemma PartChanged(s: System, s': System, k: nat, part: FlushPart)
    requires Inv(s) && s.flushing.Some? && k < |s.flushing.value|
    requires part.handler == s.flushing.value[k].handler && PartOk(s, k, part)
    requires s' == s.(flushing := Some(s.flushing.value[k := part]))
    ensures Inv(s')
  {
    forall i | 0 <= i < |s'.flushing.value|
      ensures s'.flushing.value[i].handler == s'.settings.handlers[i] && PartOk(s', i, s'.flushing.value[i])
    {
      assert PartOk(s, i, s.flushing.value[i]);
    }
    SinksSame(s, s');
    ResultsKept(s, s');
  }

  /** Whoever has reached the marker has dealt with the messages before it. */
  lemma ReachedMeansProcessed(sink: Sink, marker: SinkWork, messages: seq<Record>)
    requires Reached(sink, marker) && MarkerBehind(sink, marker, messages)
    ensures messages <= Processed(sink)
  {
    var j :| 0 <= j < sink.Count() <= |sink.accepted| && sink.accepted[j] == marker;
    DeliveriesMonotone(sink.accepted, j, sink.Count());
  }

  lemma AnswerKeeps(s: System, k: nat, inTime: bool)
    requires Inv(s) && Enabled(s, Answer(k, inTime))
    ensures Inv(Apply(s, Answer(k, inTime)))
  {
    var part := s.flushing.value[k];
    assert PartOk(s, k, part);
    if inTime {
      ReachedMeansProcessed(s.sinks[part.handler], Marker(|s.done| - 1, k), Received(part.handler, s.done));
    }
    PartChanged(s, Apply(s, Answer(k, inTime)), k, part.(answer := Some(inTime)));
  }

  /** All handlers' answers together say what a flush that returns true says. */
  lemma AllInTimeMeansFlushed(s: System, s': System)
    requires Inv(s) && s.flushing.Some? && AllInTime(s.flushing.value)
    requires s'.done == s.done && s'.sinks == s.sinks
    ensures AllFlushed(s', |s.done| - 1)
  {
    var f := |s.done| - 1;
    assert s.done == s.done[..f] + [s.done[f]];
    SettingsAppend(s.done[..f], s.done[f]);
    forall h | h in SettingsAfter(s.done[..f]).handlers
      ensures Flushed(s', f, h)
    {
      var i :| 0 <= i < |s.settings.handlers| && s.settings.handlers[i] == h;
      assert PartOk(s, i, s.flushing.value[i]);
      ReceivedAppend(h, s.done[..f], s.done[f]);
    }
  }

  lemma ResultsAfterFinish(s: System)
    requires Inv(s) && Enabled(s, FinishFlush)
    ensures ResultsOk(Apply(s, FinishFlush))
  {
    var s' := Apply(s, FinishFlush);
    if AllInTime(s.flushing.value) {
      AllInTimeMeansFlushed(s, s');
    }
    forall f | f in s.results && s.results[f]
      ensures AllFlushed(s', f)
    {
      SinksSame(s, s');
      AllFlushedKept(s, s', f);
    }
  }

  lemma FinishKeeps(s: System)
    requires Inv(s) && Enabled(s, FinishFlush)
    ensures Inv(Apply(s, FinishFlush))
  {
    var s' := Apply(s, FinishFlush);
    ResultsAfterFinish(s);
    assert HistoryOk(s') && HandlersExist(s');
    assert forall h :: 0 <= h < |s.sinks| ==> SinkOk(s.sinks[h], h, s.done);
  }

  // ---- Runs ----------------------------------------------------------------

  /** Nothing done yet; each handler has its parser and its output so far. */
  ghost predicate Initial(s: System) {
    && s.settings == SettingsAfter([]) && s.calls == [] && s.enqueued == [] && s.done == []
    && s.flushing == None && s.results == map[]
    && forall h :: 0 <= h < |s.sinks| ==>
         s.sinks[h].accepted == [] && s.sinks[h].goods == [] && s.sinks[h].writer == s.sinks[h].start
  }

  ghost predicate IsRun(states: seq<System>, steps: seq<Step>) {
    && |states| == |steps| + 1
    && Initial(states[0])
    && forall i :: 0 <= i < |steps| ==> Enabled(states[i], steps[i]) && states[i + 1] == Apply(states[i], steps[i])
  }

  lemma StepKeepsInvariant(s: System, step: Step)
    requires Inv(s) && Enabled(s, step)
    ensures Inv(Apply(s, step))
  {
    match step
    case Invoke(w, seen) => InvokeKeeps(s, w, seen);
    case Execute(now) => ExecuteKeeps(s, now);
    case SendMarker(k) => SendMarkerKeeps(s, k);
    case Answer(k, inTime) => AnswerKeeps(s, k, inTime);
    case FinishFlush => FinishKeeps(s);
    case SinkRun(h, good) => SinkRunKeeps(s, h, good);
    case ChangeParser(h, parser) => SendKeeps(s, Apply(s, step), h, SetParser(parser));
  }

  lemma {:induction false} ReachableInvariant(states: seq<System>, steps: seq<Step>, n: nat)
    requires IsRun(states, steps) && n < |states|
    ensures Inv(states[n])
  {
    if n == 0 {
    } else {
      ReachableInvariant(states, steps, n - 1);
      StepKeepsInvariant(states[n - 1], steps[n - 1]);
    }
  }
}
