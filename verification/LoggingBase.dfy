// include/graylog_logger/LoggingBase.hpp, src/LoggingBase.cpp,
// src/ConsoleInterface.cpp and src/FileInterface.cpp: the logger and its
// handlers with their fields. Each method does what the step machine says.
module Logging {
  import opened Wrappers
  import opened LogUtil
  import opened Pipeline
  import opened PipelineInvariant

  /** A console or file handler with the queue of its own worker. */
  class LogHandler {
    var workQueue: seq<SinkWork>
    var messageParser: Record -> string
    /** What was printed, or written to the file. */
    var output: seq<string>
    // history
    ghost var accepted: seq<SinkWork>
    ghost var goods: seq<bool>
    ghost const start: Writer

    constructor (parser: Record -> string)
      ensures View() == Sink([], [], Writer(parser, []), Writer(parser, [])) && Valid()
    {
      workQueue, messageParser, output, accepted, goods := [], parser, [], [], [];
      start := Writer(parser, []);
    }

    ghost predicate Valid()
      reads this
    {
      |goods| <= |accepted| && workQueue == accepted[|goods|..]
    }

    ghost function View(): Sink
      reads this
    {
      Sink(accepted, goods, start, Writer(messageParser, output))
    }

    method SendWork(work: SinkWork)
      requires Valid()
      modifies this
      ensures Valid() && View() == old(View()).(accepted := old(accepted) + [work])
    {
      workQueue := workQueue + [work];
      accepted := accepted + [work];
    }

    method AddMessage(message: Record)
      requires Valid()
      modifies this
      ensures Valid() && View() == old(View()).(accepted := old(accepted) + [Deliver(message)])
    {
      SendWork(Deliver(message));
    }

    method SetMessageStringCreatorFunction(parser: Record -> string)
      requires Valid()
      modifies this
      ensures Valid() && View() == old(View()).(accepted := old(accepted) + [SetParser(parser)])
    {
      SendWork(SetParser(parser));
    }

    /** The handler's worker does its next work. `good` is what a file's stream
        says of itself then; that of a console is always good. */
    method RunNext(good: bool)
      requires Valid() && workQueue != []
      modifies this
      ensures Valid()
      ensures var sink := old(View());
        && sink.Count() < |sink.accepted|
        && View() == sink.(goods := sink.goods + [good],
                           writer := Write(sink.writer, sink.accepted[sink.Count()], good))
    {
      var work := workQueue[0];
      workQueue := workQueue[1..];
      goods := goods + [good];
      match work
      case Deliver(record) =>
        if good {
          output := output + [messageParser(record)];
        }
      case SetParser(parser) =>
        messageParser := parser;
      case Marker(_, _) =>
    }
  }

  /** One more round of the loop over the handlers. */
  lemma DeliverOneMore(sinks: seq<Sink>, handlers: seq<nat>, x: nat, record: Record)
    requires x < |sinks|
    ensures SendTo(DeliverAll(sinks, handlers, record), x, Deliver(record)) == DeliverAll(sinks, handlers + [x], record)
  {
    forall h | 0 <= h < |sinks|
      ensures SendTo(DeliverAll(sinks, handlers, record), x, Deliver(record))[h]
        == DeliverAll(sinks, handlers + [x], record)[h]
    {
      TimesAppend(handlers, x, h);
      var n := Times(handlers, h);
      assert sinks[h].accepted + Repeated(Deliver(record), n) + [Deliver(record)]
        == sinks[h].accepted + Repeated(Deliver(record), n + 1);
    }
  }

  lemma DeliverNone(sinks: seq<Sink>, record: Record)
    ensures DeliverAll(sinks, [], record) == sinks
  {
    forall h | 0 <= h < |sinks|
      ensures DeliverAll(sinks, [], record)[h] == sinks[h]
    {
      assert sinks[h].accepted + Repeated(Deliver(record), 0) == sinks[h].accepted;
    }
  }

  class LoggingBase {
    var minSeverity: int
    /** The handlers registered, by their places among all the handlers. */
    var handlers: seq<nat>
    const known: seq<LogHandler>
    const baseMsg: LogMessage
    var workQueue: seq<Work>
    var workDone: nat
    var flushing: Option<seq<FlushPart>>
    var results: map<nat, bool>
    // history
    ghost var calls: seq<Call>
    ghost var enqueued: seq<Work>
    ghost var done: seq<Done>

    ghost predicate KnownOk()
      reads known
    {
      && (forall i, j :: 0 <= i < j < |known| ==> known[i] != known[j])
      && (forall i :: 0 <= i < |known| ==> known[i].Valid())
    }

    ghost predicate Valid()
      reads this, baseMsg, known
    {
      && KnownOk()
      && workDone == |done| <= |enqueued| && workQueue == enqueued[|done|..]
      && minSeverity == SettingsAfter(done).minSeverity
    }

    ghost function Sinks(): (r: seq<Sink>)
      reads known
      ensures |r| == |known|
    {
      seq(|known|, i requires 0 <= i < |known| reads known => known[i].View())
    }

    ghost function View(): System
      reads this, baseMsg, known
    {
      System(Settings(handlers, baseMsg.Value(), minSeverity), calls, enqueued, done, Sinks(), flushing, results)
    }

    /** The handlers, which are shared with the client, are given at first. */
    constructor (known: seq<LogHandler>)
      requires forall i, j :: 0 <= i < j < |known| ==> known[i] != known[j]
      requires forall i :: 0 <= i < |known| ==> known[i].Valid()
      ensures Valid() && this.known == known && fresh(baseMsg)
      ensures View() == System(Settings([], EMPTY_RECORD, NOTICE), [], [], [], Sinks(), None, map[])
    {
      this.known := known;
      minSeverity, handlers := NOTICE, [];
      baseMsg := new LogMessage();
      workQueue, workDone, flushing, results := [], 0, None, map[];
      calls, enqueued, done := [], [], [];
    }

    // ---- Calls -------------------------------------------------------------

    method SendWork(work: Work)
      requires Valid()
      modifies this`workQueue, this`enqueued
      ensures Valid() && View() == old(View()).(enqueued := old(enqueued) + [work])
    {
      workQueue := workQueue + [work];
      enqueued := enqueued + [work];
    }

    /** Line 39: the severity limit is read. */
    method LoadMinSeverity() returns (limit: int, ghost seen: nat)
      requires Valid()
      ensures limit == minSeverity && seen == |done| && limit == SettingsAfter(done[..seen]).minSeverity
    {
      assert done[..|done|] == done;
      limit, seen := minSeverity, |done|;
    }

    /** Lines 39-58: a message less severe than the limit is given up at once.
        The worker may have got on since the limit was read. */
    method SendUnlessBelow(limit: int, level: int, message: string, extraFields: Fields, threadId: string,
                           ghost seen: nat)
      requires Valid() && seen <= |done| && limit == SettingsAfter(done[..seen]).minSeverity
      modifies this`workQueue, this`enqueued, this`calls
      ensures Valid()
      ensures View() == Apply(old(View()), Invoke(LogWork(level, message, extraFields, threadId), seen))
    {
      calls := calls + [Call(LogWork(level, message, extraFields, threadId), seen)];
      if level > limit {
        return;
      }
      SendWork(LogWork(level, message, extraFields, threadId));
    }

    /** Lines 36-58, if the worker does nothing in between. */
    method Log(level: int, message: string, extraFields: Fields, threadId: string)
      requires Valid()
      modifies this`workQueue, this`enqueued, this`calls
      ensures Valid()
      ensures View() == Apply(old(View()), Invoke(LogWork(level, message, extraFields, threadId), |old(done)|))
    {
      var limit;
      ghost var seen;
      limit, seen := LoadMinSeverity();
      SendUnlessBelow(limit, level, message, extraFields, threadId, seen);
    }

    /** addField, addLogHandler, removeAllHandlers, setMinSeverity and flush. */
    method Request(work: Work)
      requires Valid() && !work.LogWork? && (work.AddHandlerWork? ==> work.handler < |known|)
      modifies this`workQueue, this`enqueued, this`calls
      ensures Valid()
      ensures View() == Apply(old(View()), Invoke(work, |old(done)|))
    {
      calls := calls + [Call(work, |done|)];
      SendWork(work);
    }

    // ---- The worker --------------------------------------------------------

    /** Work sent to one of the handlers leaves the others alone. */
    method SendToHandler(h: nat, work: SinkWork)
      requires h < |known| && KnownOk()
      modifies known[h]
      ensures KnownOk()
      ensures Sinks() == SendTo(old(Sinks()), h, work)
    {
      known[h].SendWork(work);
    }

    /** Lines 54-56: the loop over the handlers, any of which may occur twice. */
    method DeliverToHandlers(message: Record)
      requires KnownOk() && forall i :: 0 <= i < |handlers| ==> handlers[i] < |known|
      modifies known
      ensures KnownOk()
      ensures Sinks() == DeliverAll(old(Sinks()), handlers, message)
    {
      ghost var before := Sinks();
      DeliverNone(before, message);
      for i := 0 to |handlers|
        invariant KnownOk()
        invariant Sinks() == DeliverAll(before, handlers[..i], message)
      {
        DeliverOneMore(before, handlers[..i], handlers[i], message);
        assert handlers[..i] + [handlers[i]] == handlers[..i + 1];
        SendToHandler(handlers[i], Deliver(message));
      }
      assert handlers[..|handlers|] == handlers;
    }

    /** Lines 44-53: the message is a copy of the base message. */
    method ComposeMessage(level: int, text: string, extra: Fields, threadId: string, now: int) returns (message: Record)
      ensures message == Compose(baseMsg.Value(), LogWork(level, text, extra, threadId), now)
    {
      var cMsg := new LogMessage.Copy(baseMsg);
      ghost var base := baseMsg.Value();
      for i := 0 to |extra|
        invariant cMsg.Value() == base.(fields := PutAll(base.fields, extra[..i]))
      {
        assert extra[..i + 1][..i] == extra[..i];
        cMsg.AddField(extra[i].0, extra[i].1);
      }
      assert extra[..|extra|] == extra;
      cMsg.timestamp := now;
      cMsg.messageString := text;
      cMsg.severityLevel := level;
      cMsg.threadId := threadId;
      message := cMsg.Value();
    }

    /** The work that changes what the worker owns. */
    method ChangeSettings(work: Work)
      requires !work.LogWork? && !work.FlushWork?
      modifies this`handlers, this`minSeverity, baseMsg
      ensures Settings(handlers, baseMsg.Value(), minSeverity)
        == After(old(Settings(handlers, baseMsg.Value(), minSeverity)), work)
    {
      match work
      case FieldWork(key, value) => baseMsg.AddField(key, value);
      case AddHandlerWork(h) => handlers := handlers + [h];
      case RemoveAllWork => handlers := [];
      case SeverityWork(level) => minSeverity := level;
      case IdentityWork(host, pid, name) =>
        if host.Some? {
          baseMsg.host := host.value;
        }
        baseMsg.processId := pid;
        baseMsg.processName := name;
    }

    /** The closure of each kind of work; that of a flush asks every handler and
        waits. */
    method DoWork(work: Work, now: int)
      requires KnownOk() && forall i :: 0 <= i < |handlers| ==> handlers[i] < |known|
      modifies this`handlers, this`minSeverity, this`flushing, baseMsg, known
      ensures KnownOk()
      ensures Settings(handlers, baseMsg.Value(), minSeverity)
        == After(old(Settings(handlers, baseMsg.Value(), minSeverity)), work)
      ensures Sinks()
        == if work.LogWork? then DeliverAll(old(Sinks()), handlers, Compose(baseMsg.Value(), work, now))
           else old(Sinks())
      ensures flushing == if work.FlushWork? then Some(FlushParts(handlers)) else old(flushing)
    {
      if work.LogWork? {
        var message := ComposeMessage(work.severity, work.text, work.extra, work.threadId, now);
        DeliverToHandlers(message);
      } else if work.FlushWork? {
        flushing := Some(FlushParts(handlers));
      } else {
        ChangeSettings(work);
      }
    }

    /** The worker takes the next closure off its queue and runs it. */
    method ExecuteNext(now: int)
      requires Valid() && flushing.None? && workQueue != []
      requires forall i :: 0 <= i < |handlers| ==> handlers[i] < |known|
      modifies this`workQueue, this`workDone, this`done, this`handlers, this`minSeverity, this`flushing, baseMsg, known
      ensures Valid()
      ensures Pipeline.Enabled(old(View()), Execute(now)) && View() == Apply(old(View()), Execute(now))
    {
      hide SettingsAfter, Compose, DeliverAll, FlushParts, Put, KnownOk, Sinks;
      var work := workQueue[0];
      ghost var last := Done(work, now);
      assert SettingsAfter(done + [last]) == After(SettingsAfter(done), work) by { SettingsAppend(done, last); }
      workQueue := workQueue[1..];
      DoWork(work, now);
      workDone, done := workDone + 1, done + [last];
    }

    // ---- Flush, lines 110-131 ----------------------------------------------

    /** One of the handlers is asked to flush: it sends itself a marker. */
    method AskHandler(k: nat)
      requires Valid() && Pipeline.Enabled(View(), SendMarker(k))
      modifies this`flushing, known
      ensures Valid() && View() == Apply(old(View()), SendMarker(k))
    {
      var part := flushing.value[k];
      flushing := Some(flushing.value[k := part.(sent := true)]);
      SendToHandler(part.handler, Marker(workDone - 1, k));
    }

    /** It answers whether the marker was reached in time. */
    method TakeAnswer(k: nat, inTime: bool)
      requires Valid() && Pipeline.Enabled(View(), Answer(k, inTime))
      modifies this`flushing
      ensures Valid() && View() == Apply(old(View()), Answer(k, inTime))
    {
      flushing := Some(flushing.value[k := flushing.value[k].(answer := Some(inTime))]);
    }

    /** All have answered: the flush returns whether all of them in time. */
    method FinishFlushing() returns (returnValue: bool)
      requires Valid() && Pipeline.Enabled(View(), FinishFlush)
      modifies this`flushing, this`results
      ensures Valid() && View() == Apply(old(View()), FinishFlush)
      ensures returnValue <==> AllInTime(old(flushing.value))
    {
      returnValue := true;
      var parts := flushing.value;
      for k := 0 to |parts|
        invariant returnValue <==> forall i :: 0 <= i < k ==> parts[i].answer == Some(true)
      {
        if parts[k].answer != Some(true) {
          returnValue := false;
        }
      }
      results := results[workDone - 1 := returnValue];
      flushing := None;
    }
  }
}
