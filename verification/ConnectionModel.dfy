// The Graylog connection as a machine that moves in steps: the handlers of
// src/GraylogConnection.cpp, the asynchronous operations they start, and the
// queue of messages.
//
// What is assumed of the libraries is what the steps allow: ready handlers run
// one at a time in the order in which they became ready; closing the socket
// makes its outstanding operations ready with an error; an operation started
// on a closed socket becomes ready with an error; a write reports part of its
// data, and all of it if there is no error; enqueuing may fail at any time.
module ConnectionModel {
  import opened Wrappers
  import opened Framing

  datatype Status = ADDR_LOOKUP | ADDR_RETRY_WAIT | CONNECT | SEND_LOOP

  datatype Endpoint = Endpoint(address: nat, v6: bool)

  /** The endpoint constructed by default. */
  const NO_ENDPOINT := Endpoint(0, false)

  const MESSAGE_ADDITION_LIMIT := 3000

  /** The endpoints of a lookup and the number already handed out. */
  datatype QueryResult = QueryResult(list: seq<Endpoint>, next: nat) {
    function NextEndpoint(): Endpoint {
      if next < |list| then list[next] else NO_ENDPOINT
    }

    function Advanced(): QueryResult {
      if next < |list| then QueryResult(list, next + 1) else this
    }

    predicate IsDone() {
      next >= |list|
    }
  }

  /** What std::sort may make of a list: IPv4 before IPv6, in any order else. */
  ghost predicate IsSorting(order: seq<Endpoint>, list: seq<Endpoint>) {
    && multiset(order) == multiset(list)
    && forall i, j :: 0 <= i < j < |order| && order[i].v6 ==> order[j].v6
  }

  /** A function in the message queue: it delivers a message, or fulfils the
      promise of a flush and delivers the empty string. */
  datatype Item = Message(text: string) | FlushMarker(id: nat) {
    function Text(): string {
      match this
      case Message(text) => text
      case FlushMarker(_) => ""
    }
  }

  function Texts(items: seq<Item>): (r: seq<string>)
    ensures |r| == |items|
  {
    seq(|items|, i requires 0 <= i < |items| => items[i].Text())
  }

  /** The bytes that a sequence of items stands for on the wire. */
  function Wire(items: seq<Item>): string {
    Frame(NonEmpty(Texts(items)))
  }

  /** How long to wait before looking the server up again: 100 ms or 10 s. */
  datatype Delay = SHORT | LONG

  /** Outstanding asynchronous operations. A write holds on to its data. */
  datatype Op =
    | Resolving
    | Connecting(endpoints: QueryResult)
    | Receiving
    | Writing(data: string)
    | Waiting(delay: Delay)

  /** Handlers ready to run. */
  datatype Handler =
    | Resolved(list: Option<seq<Endpoint>>)
    | Connected(ok: bool, endpoints: QueryResult)
    | Received(ok: bool)
    | Written(ok: bool, count: nat, data: string)
    | TimedOut
    | Posted

  /** The connection. The last four fields are history: the items accepted by the
      queue, the bytes reported as written, the endpoints tried since the last
      lookup with the list it yielded, and whether the last write failed with
      bytes left over. */
  datatype State = State(
    status: Status,
    open: bool,
    pending: seq<Op>,
    ready: seq<Handler>,
    buffer: string,
    queue: seq<Item>,
    accepted: seq<Item>,
    sent: string,
    found: seq<Endpoint>,
    tried: seq<Endpoint>,
    writeFailed: bool)

  /** What a handler finds when it runs: the order std::sort produces, whether
      the socket can be opened, whether the queue delivers an item in time, and
      how much of an aborted write had been sent. */
  datatype Choice = Choice(order: seq<Endpoint>, opens: bool, delivers: bool, aborted: nat)

  // ---- Operations ----------------------------------------------------------

  function Min(a: nat, b: nat): nat {
    if a < b then a else b
  }

  /** The handlers that closing the socket makes ready. */
  function Aborted(ops: seq<Op>, aborted: nat): seq<Handler> {
    if ops == [] then []
    else
      var rest := Aborted(ops[1..], aborted);
      match ops[0]
      case Connecting(q) => [Connected(false, q)] + rest
      case Receiving => [Received(false)] + rest
      case Writing(data) => [Written(false, Min(aborted, |data|), data)] + rest
      case Resolving => rest
      case Waiting(_) => rest
  }

  function WithoutSocketOps(ops: seq<Op>): seq<Op> {
    if ops == [] then []
    else if ops[0].Resolving? || ops[0].Waiting? then [ops[0]] + WithoutSocketOps(ops[1..])
    else WithoutSocketOps(ops[1..])
  }

  /** Socket.close(). */
  function Close(s: State, aborted: nat): State {
    s.(open := false, pending := WithoutSocketOps(s.pending), ready := s.ready + Aborted(s.pending, aborted))
  }

  /** Setting the timer cancels a wait, whose handler then runs as well. */
  function Cancelled(ops: seq<Op>): seq<Handler> {
    if ops == [] then []
    else (if ops[0].Waiting? then [TimedOut] else []) + Cancelled(ops[1..])
  }

  function WithoutWaits(ops: seq<Op>): seq<Op> {
    if ops == [] then []
    else (if ops[0].Waiting? then [] else [ops[0]]) + WithoutWaits(ops[1..])
  }

  /** reConnect, lines 94-107. */
  function ReConnect(s: State, delay: Delay): State {
    s.(status := ADDR_RETRY_WAIT,
       pending := WithoutWaits(s.pending) + [Waiting(delay)],
       ready := s.ready + Cancelled(s.pending))
  }

  /** doAddressQuery, lines 173-180. */
  function DoAddressQuery(s: State): State {
    s.(status := ADDR_LOOKUP, pending := s.pending + [Resolving])
  }

  /** tryConnect, lines 45-52: starting to connect opens the socket. */
  function TryConnect(s: State, q: QueryResult, opens: bool): State {
    var s' := s.(status := CONNECT, tried := s.tried + [q.NextEndpoint()]);
    if opens then s'.(open := true, pending := s.pending + [Connecting(q.Advanced())])
    else s'.(ready := s.ready + [Connected(false, q.Advanced())])
  }

  function StartReceive(s: State): State {
    if s.open then s.(pending := s.pending + [Receiving]) else s.(ready := s.ready + [Received(false)])
  }

  function StartWrite(s: State): State {
    if s.open then s.(pending := s.pending + [Writing(s.buffer)])
    else s.(ready := s.ready + [Written(false, 0, s.buffer)])
  }

  /** trySendMessage, lines 122-154. */
  function TrySendMessage(s: State, delivers: bool): State {
    if !s.open then s
    else if |s.buffer| > MESSAGE_ADDITION_LIMIT then StartWrite(s)
    else
      var s' := if delivers && s.queue != [] then
                  var text := s.queue[0].Text();
                  s.(queue := s.queue[1..], buffer := if text == "" then s.buffer else s.buffer + text + [NUL])
                else s;
      if s'.buffer != "" then StartWrite(s') else s'.(ready := s'.ready + [Posted])
  }

  // ---- Handlers ------------------------------------------------------------

  /** resolverHandler, lines 63-73. */
  function ResolverHandler(s: State, list: Option<seq<Endpoint>>, order: seq<Endpoint>, opens: bool): State {
    match list
    case None => ReConnect(s.(status := ADDR_RETRY_WAIT), LONG)
    case Some(found) => TryConnect(s.(found := found, tried := []), QueryResult(order, 0), opens)
  }

  /** connectHandler, lines 75-92. */
  function ConnectHandler(s: State, ok: bool, q: QueryResult, c: Choice): State {
    if ok then
      TrySendMessage(StartReceive(s.(status := SEND_LOOP)), c.delivers).(writeFailed := false)
    else
      var s' := Close(s, c.aborted);
      if q.IsDone() then ReConnect(s', LONG) else TryConnect(s', q, c.opens)
  }

  /** receiveHandler, lines 109-120. */
  function ReceiveHandler(s: State, ok: bool, aborted: nat): State {
    if ok then StartReceive(s) else ReConnect(Close(s, aborted), SHORT)
  }

  /** sentMessageHandler, lines 156-171. */
  function SentMessageHandler(s: State, ok: bool, count: nat, data: string, c: Choice): State
    requires count <= |data|
  {
    var left := if count == |s.buffer| then ""
                else if 0 < count < |s.buffer| then s.buffer[count..]
                else s.buffer;
    var s' := s.(buffer := left, sent := s.sent + data[..count]);
    if ok then TrySendMessage(s', c.delivers)
    else Close(s', c.aborted).(writeFailed := left != "")
  }

  // ---- Steps ---------------------------------------------------------------

  datatype Step =
    | Complete(index: nat, ok: bool, count: nat, list: seq<Endpoint>)  // an operation completes
    | Run(choice: Choice)                                             // the first ready handler runs
    | Enqueue(item: Item, room: bool)                                 // sendMessage or flush is called

  function HandlerFor(op: Op, ok: bool, count: nat, list: seq<Endpoint>): Handler {
    match op
    case Resolving => Resolved(if ok then Some(list) else None)
    case Connecting(q) => Connected(ok, q)
    case Receiving => Received(ok)
    case Writing(data) => Written(ok, count, data)
    case Waiting(_) => TimedOut
  }

  predicate HandlerFits(h: Handler) {
    h.Written? ==> h.count <= |h.data| && (h.ok ==> h.count == |h.data|)
  }

  ghost predicate Enabled(s: State, step: Step) {
    match step
    case Complete(i, ok, count, list) => i < |s.pending| && HandlerFits(HandlerFor(s.pending[i], ok, count, list))
    case Run(c) =>
      && s.ready != [] && HandlerFits(s.ready[0])
      && (s.ready[0].Resolved? && s.ready[0].list.Some? ==> IsSorting(c.order, s.ready[0].list.value))
    case Enqueue(item, room) => true
  }

  function RunHandler(s: State, h: Handler, c: Choice): State
    requires HandlerFits(h)
  {
    match h
    case Resolved(list) => ResolverHandler(s, list, c.order, c.opens)
    case Connected(ok, q) => ConnectHandler(s, ok, q, c)
    case Received(ok) => ReceiveHandler(s, ok, c.aborted)
    case Written(ok, count, data) => SentMessageHandler(s, ok, count, data, c)
    case TimedOut => DoAddressQuery(s)
    case Posted => TrySendMessage(s, c.delivers)
  }

  ghost function Apply(s: State, step: Step): State
    requires Enabled(s, step)
  {
    match step
    case Complete(i, ok, count, list) =>
      s.(pending := s.pending[..i] + s.pending[i + 1..], ready := s.ready + [HandlerFor(s.pending[i], ok, count, list)])
    case Run(c) => RunHandler(s.(ready := s.ready[1..]), s.ready[0], c)
    case Enqueue(item, room) =>
      if room then s.(queue := s.queue + [item], accepted := s.accepted + [item]) else s
  }

  /** The connection once it is constructed. */
  const INITIAL := State(ADDR_LOOKUP, false, [Resolving], [], "", [], [], "", [], [], false)

  ghost predicate IsRun(states: seq<State>, steps: seq<Step>) {
    && |states| == |steps| + 1
    && states[0] == INITIAL
    && forall i :: 0 <= i < |steps| ==> Enabled(states[i], steps[i]) && states[i + 1] == Apply(states[i], steps[i])
  }
}
