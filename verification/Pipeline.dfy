// The logging pipeline as a machine that moves in steps: calls from any thread,
// the worker of LoggingBase, and the worker of each console or file handler.
//
// Each work queue is taken to be one first-in-first-out sequence, whichever
// threads put items into it.
module Pipeline {
  import opened Wrappers
  import opened LogUtil

  const NOTICE := 5

  /** The closures that LoggingBase sends to its worker. */
  datatype Work =
    | LogWork(severity: int, text: string, extra: Fields, threadId: string)
    | FieldWork(key: string, value: AdditionalField)
    | AddHandlerWork(handler: nat)
    | RemoveAllWork
    | SeverityWork(level: int)
    | FlushWork
    | IdentityWork(host: Option<string>, processId: int, processName: string)

  /** The closures that a handler sends to its own worker. A marker belongs to
      one handler of one flush, which is known by its place in the history. */
  datatype SinkWork = Deliver(record: Record) | SetParser(parser: Record -> string) | Marker(flush: nat, part: nat)

  // ---- The fold that the pipeline amounts to --------------------------------

  /** What the worker of LoggingBase owns, and the severity limit. */
  datatype Settings = Settings(handlers: seq<nat>, base: Record, minSeverity: int)

  /** Work done, with the time at which it was. */
  datatype Done = Done(work: Work, now: int)

  function After(s: Settings, w: Work): Settings {
    match w
    case FieldWork(key, value) => s.(base := s.base.(fields := Put(s.base.fields, key, value)))
    case AddHandlerWork(h) => s.(handlers := s.handlers + [h])
    case RemoveAllWork => s.(handlers := [])
    case SeverityWork(level) => s.(minSeverity := level)
    case IdentityWork(host, pid, name) =>
      s.(base := s.base.(host := host.GetOr(s.base.host), processId := pid, processName := name))
    case LogWork(_, _, _, _) => s
    case FlushWork => s
  }

  function SettingsAfter(done: seq<Done>): Settings {
    if done == [] then Settings([], EMPTY_RECORD, NOTICE)
    else After(SettingsAfter(done[..|done| - 1]), done[|done| - 1].work)
  }

  /** The message that a call of log amounts to. */
  function Compose(base: Record, w: Work, now: int): Record
    requires w.LogWork?
  {
    base.(fields := PutAll(base.fields, w.extra), timestamp := now, messageString := w.text,
          severity := w.severity, threadId := w.threadId)
  }

  function Times(handlers: seq<nat>, h: nat): nat {
    if handlers == [] then 0 else (if handlers[0] == h then 1 else 0) + Times(handlers[1..], h)
  }

  function Repeated<T>(x: T, n: nat): seq<T> {
    seq(n, _ => x)
  }

  /** The messages that handler h gets: for each message logged, one for each
      time the handler is registered when the message is dealt with. */
  function Received(h: nat, done: seq<Done>): seq<Record> {
    if done == [] then []
    else
      var before, last := done[..|done| - 1], done[|done| - 1];
      var s := SettingsAfter(before);
      Received(h, before)
        + if last.work.LogWork? then Repeated(Compose(s.base, last.work, last.now), Times(s.handlers, h)) else []
  }

  /** The messages among a handler's work. */
  function Deliveries(works: seq<SinkWork>): seq<Record> {
    if works == [] then []
    else
      var last := works[|works| - 1];
      Deliveries(works[..|works| - 1]) + if last.Deliver? then [last.record] else []
  }

  /** A handler's parser and output. */
  datatype Writer = Writer(parser: Record -> string, output: seq<string>)

  /** A file takes a message only while it is open and its stream is good. */
  function Write(w: Writer, work: SinkWork, good: bool): Writer {
    match work
    case Deliver(record) => if good then w.(output := w.output + [w.parser(record)]) else w
    case SetParser(parser) => w.(parser := parser)
    case Marker(_, _) => w
  }

  function WriteAll(w: Writer, works: seq<SinkWork>, goods: seq<bool>): Writer
    requires |works| == |goods|
  {
    if works == [] then w
    else
      var last := |works| - 1;
      Write(WriteAll(w, works[..last], goods[..last]), works[last], goods[last])
  }

  // ---- The machine ---------------------------------------------------------

  /** A handler: all the work it was sent; for the work that is done, whether the
      stream was good then; and what the handler started from. */
  datatype Sink = Sink(accepted: seq<SinkWork>, goods: seq<bool>, start: Writer, writer: Writer) {
    /** How much work is done. */
    function Count(): nat { |goods| }
  }

  /** One handler's part in a flush: whether its marker was sent, and whether the
      marker was reached in time. */
  datatype FlushPart = FlushPart(handler: nat, sent: bool, answer: Option<bool>)

  /** A call, and how much work was done when it read the severity limit. */
  datatype Call = Call(work: Work, seen: nat)

  datatype System = System(
    settings: Settings,
    calls: seq<Call>,
    enqueued: seq<Work>,
    done: seq<Done>,
    sinks: seq<Sink>,
    flushing: Option<seq<FlushPart>>,
    results: map<nat, bool>)

  datatype Step =
    | Invoke(work: Work, seen: nat)                 // a member function is called
    | Execute(now: int)                             // the worker does the next work
    | SendMarker(part: nat)                         // a handler's flush sends its marker
    | Answer(part: nat, inTime: bool)               // a handler's flush returns
    | FinishFlush                                   // all of them have returned
    | SinkRun(handler: nat, good: bool)             // a handler's worker does its next work
    | ChangeParser(handler: nat, parser: Record -> string)  // a handler's function is set directly

  /** log gives up a message less severe than the limit that it has read. */
  predicate Passes(w: Work, minSeverity: int) {
    w.LogWork? ==> w.severity <= minSeverity
  }

  function Passed(calls: seq<Call>, done: seq<Done>): seq<Work> {
    if calls == [] then []
    else
      var last := calls[|calls| - 1];
      Passed(calls[..|calls| - 1], done)
        + if last.seen <= |done| && Passes(last.work, SettingsAfter(done[..last.seen]).minSeverity)
          then [last.work] else []
  }

  function SendTo(sinks: seq<Sink>, h: nat, work: SinkWork): seq<Sink>
    requires h < |sinks|
  {
    sinks[h := sinks[h].(accepted := sinks[h].accepted + [work])]
  }

  /** The loop over the handlers: each gets the message as often as it occurs. */
  function DeliverAll(sinks: seq<Sink>, handlers: seq<nat>, record: Record): (r: seq<Sink>)
    ensures |r| == |sinks|
  {
    seq(|sinks|, h requires 0 <= h < |sinks| =>
      sinks[h].(accepted := sinks[h].accepted + Repeated(Deliver(record), Times(handlers, h))))
  }

  function FlushParts(handlers: seq<nat>): seq<FlushPart> {
    seq(|handlers|, i requires 0 <= i < |handlers| => FlushPart(handlers[i], false, None))
  }

  ghost predicate Reached(sink: Sink, marker: SinkWork) {
    exists j :: 0 <= j < sink.Count() <= |sink.accepted| && sink.accepted[j] == marker
  }

  predicate AllAnswered(parts: seq<FlushPart>) {
    forall k :: 0 <= k < |parts| ==> parts[k].answer.Some?
  }

  predicate AllInTime(parts: seq<FlushPart>) {
    forall k :: 0 <= k < |parts| ==> parts[k].answer == Some(true)
  }

  ghost predicate Enabled(s: System, step: Step) {
    match step
    case Invoke(w, seen) => seen <= |s.done| && (w.AddHandlerWork? ==> w.handler < |s.sinks|)
    case Execute(_) => s.flushing.None? && |s.done| < |s.enqueued|
    case SendMarker(k) =>
      && s.flushing.Some? && s.done != [] && k < |s.flushing.value|
      && !s.flushing.value[k].sent && s.flushing.value[k].handler < |s.sinks|
    case Answer(k, inTime) =>
      && s.flushing.Some? && k < |s.flushing.value| && s.done != []
      && var part := s.flushing.value[k];
         && part.sent && part.answer.None? && part.handler < |s.sinks|
         && (inTime ==> Reached(s.sinks[part.handler], Marker(|s.done| - 1, k)))
    case FinishFlush => s.flushing.Some? && s.done != [] && AllAnswered(s.flushing.value)
    case SinkRun(h, _) => h < |s.sinks| && s.sinks[h].Count() < |s.sinks[h].accepted|
    case ChangeParser(h, _) => h < |s.sinks|
  }

  ghost function Apply(s: System, step: Step): System
    requires Enabled(s, step)
  {
    match step
    case Invoke(w, seen) =>
      var s' := s.(calls := s.calls + [Call(w, seen)]);
      if Passes(w, SettingsAfter(s.done[..seen]).minSeverity) then s'.(enqueued := s.enqueued + [w]) else s'
    case Execute(now) =>
      var w := s.enqueued[|s.done|];
      var s' := s.(done := s.done + [Done(w, now)], settings := After(s.settings, w));
      if w.LogWork? then
        s'.(sinks := DeliverAll(s.sinks, s.settings.handlers, Compose(s.settings.base, w, now)))
      else if w.FlushWork? then
        s'.(flushing := Some(FlushParts(s.settings.handlers)))
      else s'
    case SendMarker(k) =>
      var part := s.flushing.value[k];
      s.(flushing := Some(s.flushing.value[k := part.(sent := true)]),
         sinks := SendTo(s.sinks, part.handler, Marker(|s.done| - 1, k)))
    case Answer(k, inTime) =>
      s.(flushing := Some(s.flushing.value[k := s.flushing.value[k].(answer := Some(inTime))]))
    case FinishFlush =>
      s.(flushing := None, results := s.results[|s.done| - 1 := AllInTime(s.flushing.value)])
    case SinkRun(h, good) =>
      var sink := s.sinks[h];
      s.(sinks := s.sinks[h := sink.(goods := sink.goods + [good],
                                     writer := Write(sink.writer, sink.accepted[sink.Count()], good))])
    case ChangeParser(h, parser) => s.(sinks := SendTo(s.sinks, h, SetParser(parser)))
  }
}
