// What every reachable state of the connection satisfies.
module ConnectionInvariant {
  import opened Framing
  import opened ConnectionModel

  /** Operations and handlers either keep the connection going, in the phase
      that the status names, or belong to the chain of sending. */
  datatype Kind = Control(phase: Status) | Chain

  function OpKind(op: Op): Kind {
    match op
    case Resolving => Control(ADDR_LOOKUP)
    case Connecting(_) => Control(CONNECT)
    case Receiving => Control(SEND_LOOP)
    case Writing(_) => Chain
    case Waiting(_) => Control(ADDR_RETRY_WAIT)
  }

  function HandlerKind(h: Handler): Kind {
    match h
    case Resolved(_) => Control(ADDR_LOOKUP)
    case Connected(_, _) => Control(CONNECT)
    case Received(_) => Control(SEND_LOOP)
    case Written(_, _, _) => Chain
    case TimedOut => Control(ADDR_RETRY_WAIT)
    case Posted => Chain
  }

  function OpKinds(ops: seq<Op>): (k: seq<Kind>)
    ensures |k| == |ops|
  {
    seq(|ops|, i requires 0 <= i < |ops| => OpKind(ops[i]))
  }

  function HandlerKinds(hs: seq<Handler>): (k: seq<Kind>)
    ensures |k| == |hs|
  {
    seq(|hs|, i requires 0 <= i < |hs| => HandlerKind(hs[i]))
  }

  /** What is outstanding (p) and ready (r), by kind. There is one operation or
      handler in control. While the connection is up there is one link of the
      sending chain besides; when it was lost, a last link may still be ready,
      but only ahead of the handler in control. */
  predicate Shape(status: Status, open: bool, p: seq<Kind>, r: seq<Kind>) {
    var c := Control(status);
    match status
    case ADDR_LOOKUP => !open && ((p == [c] && r == []) || (p == [] && r == [c]))
    case CONNECT => (open && p == [c] && r == []) || (p == [] && r == [c])
    case ADDR_RETRY_WAIT =>
      !open && ((p == [c] && (r == [] || r == [Chain])) || (p == [] && (r == [c] || r == [Chain, c])))
    case SEND_LOOP =>
      if open then
        || (r == [] && (p == [c, Chain] || p == [Chain, c]))
        || (p == [] && (r == [c, Chain] || r == [Chain, c]))
        || (p == [c] && r == [Chain]) || (p == [Chain] && r == [c])
      else p == [] && r == [c]
  }

  /** The endpoints handed out are those tried, in their order. */
  ghost predicate Tried(s: State, q: QueryResult) {
    && IsSorting(q.list, s.found)
    && q.next <= |q.list|
    && s.tried == if q.list == [] then [NO_ENDPOINT] else q.list[..q.next]
  }

  ghost predicate OpOk(s: State, op: Op) {
    match op
    case Writing(data) => data == s.buffer && data != ""
    case Connecting(q) => Tried(s, q)
    case _ => true
  }

  ghost predicate HandlerOk(s: State, h: Handler) {
    && HandlerFits(h)
    && match h
       case Written(_, _, data) => data == s.buffer && data != ""
       case Posted => s.buffer == ""
       case Connected(ok, q) => (ok ==> s.open) && Tried(s, q)
       case _ => true
  }

  /** How many items have left the queue. */
  function Dequeued(s: State): int {
    |s.accepted| - |s.queue|
  }

  /** No byte is lost, added or reordered. */
  ghost predicate Conserved(s: State) {
    && 0 <= Dequeued(s)
    && s.queue == s.accepted[Dequeued(s)..]
    && s.sent + s.buffer == Wire(s.accepted[..Dequeued(s)])
  }

  predicate IsWriting(ops: seq<Op>) {
    exists i :: 0 <= i < |ops| && ops[i].Writing?
  }

  predicate HasWritten(hs: seq<Handler>) {
    exists i :: 0 <= i < |hs| && hs[i].Written?
  }

  /** Bytes wait without a write under way only after a write that failed. */
  predicate LeftoverExplained(s: State) {
    s.buffer != "" && !IsWriting(s.pending) && !HasWritten(s.ready) ==> s.writeFailed
  }

  ghost predicate Inv(s: State) {
    && Shape(s.status, s.open, OpKinds(s.pending), HandlerKinds(s.ready))
    && (forall i :: 0 <= i < |s.pending| ==> OpOk(s, s.pending[i]))
    && (forall i :: 0 <= i < |s.ready| ==> HandlerOk(s, s.ready[i]))
    && Conserved(s)
    && LeftoverExplained(s)
  }

  // ---- The wire ------------------------------------------------------------

  lemma WireAppend(items: seq<Item>, item: Item)
    ensures Wire(items + [item]) == Wire(items) + if item.Text() == "" then "" else item.Text() + [NUL]
  {
    assert Texts(items + [item]) == Texts(items) + [item.Text()];
    NonEmptyConcat(Texts(items), [item.Text()]);
    FrameConcat(NonEmpty(Texts(items)), NonEmpty([item.Text()]));
    if item.Text() == "" {
      assert NonEmpty([item.Text()]) == [];
      assert Frame([]) == "";
    } else {
      assert NonEmpty([item.Text()]) == [item.Text()];
      assert Frame([item.Text()]) == item.Text() + [NUL] + "";
    }
  }

  lemma EnqueueConserves(s: State, item: Item)
    requires Conserved(s)
    ensures Conserved(s.(queue := s.queue + [item], accepted := s.accepted + [item]))
  {
    var k := Dequeued(s);
    assert (s.accepted + [item])[k..] == s.accepted[k..] + [item];
    assert (s.accepted + [item])[..k] == s.accepted[..k];
  }

  lemma DequeueConserves(s: State)
    requires Conserved(s) && s.queue != []
    ensures var text := s.queue[0].Text();
      Conserved(s.(queue := s.queue[1..], buffer := if text == "" then s.buffer else s.buffer + text + [NUL]))
  {
    var k := Dequeued(s);
    var item := s.queue[0];
    assert s.accepted[..k + 1] == s.accepted[..k] + [item];
    WireAppend(s.accepted[..k], item);
    if item.Text() != "" {
      assert s.sent + (s.buffer + item.Text() + [NUL]) == s.sent + s.buffer + (item.Text() + [NUL]);
    }
  }

  // ---- Starting operations -------------------------------------------------

  /** A connection on which nothing is being sent. */
  ghost predicate Quiet(s: State) {
    && s.status == SEND_LOOP && s.open
    && ((s.pending == [Receiving] && s.ready == [])
        || (s.pending == [] && |s.ready| == 1 && s.ready[0].Received?))
    && Conserved(s)
  }

  lemma StartWriteKeeps(s: State)
    requires Quiet(s) && s.buffer != ""
    ensures Inv(StartWrite(s))
  {
    var s' := StartWrite(s);
    assert s'.pending[|s.pending|] == Writing(s.buffer);
    if s.ready == [] {
      assert OpKinds(s'.pending) == [Control(SEND_LOOP), Chain];
    } else {
      assert OpKinds(s'.pending) == [Chain] && HandlerKinds(s'.ready) == [Control(SEND_LOOP)];
    }
  }

  lemma PostKeeps(s: State)
    requires Quiet(s) && s.buffer == ""
    ensures Inv(s.(ready := s.ready + [Posted]))
  {
    hide Wire;
    var s' := s.(ready := s.ready + [Posted]);
    if s.ready == [] {
      assert OpKinds(s'.pending) == [Control(SEND_LOOP)] && HandlerKinds(s'.ready) == [Chain];
    } else {
      assert HandlerKinds(s'.ready) == [Control(SEND_LOOP), Chain];
    }
  }

  lemma TrySendKeeps(s: State, delivers: bool)
    requires Quiet(s)
    ensures Inv(TrySendMessage(s, delivers))
  {
    if |s.buffer| > MESSAGE_ADDITION_LIMIT {
      StartWriteKeeps(s);
    } else {
      var s' := s;
      if delivers && s.queue != [] {
        DequeueConserves(s);
        var text := s.queue[0].Text();
        s' := s.(queue := s.queue[1..], buffer := if text == "" then s.buffer else s.buffer + text + [NUL]);
        assert Quiet(s');
      }
      if s'.buffer != "" { StartWriteKeeps(s'); } else { PostKeeps(s'); }
    }
  }

  // ---- Closing the socket --------------------------------------------------

  /** What closing the socket leaves of at most two operations. */
  lemma CloseCases(s: State, aborted: nat)
    ensures s.pending == [] ==> Close(s, aborted) == s.(open := false)
    ensures |s.pending| == 1 && s.pending[0].Writing? ==>
      var data := s.pending[0].data;
      Close(s, aborted)
        == s.(open := false, pending := [], ready := s.ready + [Written(false, Min(aborted, |data|), data)])
    ensures s.pending == [Receiving] ==>
      Close(s, aborted) == s.(open := false, pending := [], ready := s.ready + [Received(false)])
    ensures |s.pending| == 1 && s.pending[0].Waiting? ==> Close(s, aborted) == s.(open := false)
  {
    assert s.ready + [] == s.ready;
    if |s.pending| == 1 {
      var rest := s.pending[1..];
      assert rest == [] && Aborted(rest, aborted) == [] && WithoutSocketOps(rest) == [];
      assert s.pending == [s.pending[0]];
    }
  }

  lemma ReConnectCases(s: State, delay: Delay)
    requires s.pending == []
    ensures ReConnect(s, delay) == s.(status := ADDR_RETRY_WAIT, pending := [Waiting(delay)])
  {
    assert s.ready + [] == s.ready;
  }

  // ---- The state with its first handler taken off --------------------------

  /** A handler in control leaves at most a link of the chain behind it, one of
      the chain at most the one in control. */
  lemma FirstHandler(s: State)
    requires Inv(s) && s.ready != []
    ensures var h, rest := s.ready[0], s.ready[1..];
      match h
      case Resolved(_) => s.status == ADDR_LOOKUP && !s.open && s.pending == [] && rest == []
      case Connected(_, _) => s.status == CONNECT && s.pending == [] && rest == []
      case TimedOut => s.status == ADDR_RETRY_WAIT && !s.open && s.pending == [] && rest == []
      case Received(_) =>
        && s.status == SEND_LOOP
        && if s.open then
             || (|s.pending| == 1 && s.pending[0].Writing? && rest == [])
             || (s.pending == [] && |rest| == 1 && (rest[0].Written? || rest[0].Posted?))
           else s.pending == [] && rest == []
      case _ =>
        || (s.status == ADDR_RETRY_WAIT && !s.open && |s.pending| == 1 && s.pending[0].Waiting? && rest == [])
        || (s.status == ADDR_RETRY_WAIT && !s.open && s.pending == [] && rest == [TimedOut])
        || (s.status == SEND_LOOP && s.open && s.pending == [Receiving] && rest == [])
        || (s.status == SEND_LOOP && s.open && s.pending == [] && |rest| == 1 && rest[0].Received?)
  {
    var p, r := OpKinds(s.pending), HandlerKinds(s.ready);
    assert r[0] == HandlerKind(s.ready[0]);
    if |s.pending| > 0 { assert p[0] == OpKind(s.pending[0]); }
    if |s.ready| > 1 { assert r[1] == HandlerKind(s.ready[1]); }
  }

  // ---- Every handler keeps the invariant -----------------------------------

  lemma ReConnectKeeps(s: State, delay: Delay)
    requires s.pending == [] && !s.open && Conserved(s) && LeftoverExplained(s)
    requires s.ready == [] || (|s.ready| == 1 && HandlerKind(s.ready[0]) == Chain && HandlerOk(s, s.ready[0]))
    ensures Inv(ReConnect(s, delay))
  {
    ReConnectCases(s, delay);
    var s' := ReConnect(s, delay);
    assert OpKinds(s'.pending) == [Control(ADDR_RETRY_WAIT)];
    assert HandlerKinds(s'.ready) == if s.ready == [] then [] else [Chain];
    assert IsWriting(s.pending) == IsWriting(s'.pending);
  }

  lemma TryConnectKeeps(s: State, q: QueryResult, opens: bool)
    requires s.pending == [] && s.ready == [] && !s.open && Conserved(s) && LeftoverExplained(s)
    requires IsSorting(q.list, s.found) && q.next <= |q.list| && s.tried == q.list[..q.next]
    requires q.next < |q.list| || q.list == []
    ensures Inv(TryConnect(s, q, opens))
  {
    if opens { OpenedKeeps(s, q); } else { NotOpenedKeeps(s, q); }
  }

  lemma OpenedKeeps(s: State, q: QueryResult)
    requires s.pending == [] && s.ready == [] && Conserved(s) && LeftoverExplained(s)
    requires Tried(s.(tried := s.tried + [q.NextEndpoint()]), q.Advanced())
    ensures Inv(TryConnect(s, q, true))
  {
    hide IsSorting, Wire;
    var s' := TryConnect(s, q, true);
    assert s'.pending == [Connecting(q.Advanced())];
    assert OpKinds(s'.pending) == [Control(CONNECT)];
    assert !IsWriting(s.pending) && !HasWritten(s.ready);
  }

  lemma NotOpenedKeeps(s: State, q: QueryResult)
    requires s.pending == [] && s.ready == [] && Conserved(s) && LeftoverExplained(s)
    requires Tried(s.(tried := s.tried + [q.NextEndpoint()]), q.Advanced())
    ensures Inv(TryConnect(s, q, false))
  {
    hide IsSorting, Wire;
    var s' := TryConnect(s, q, false);
    assert s'.ready == [Connected(false, q.Advanced())];
    assert HandlerKinds(s'.ready) == [Control(CONNECT)];
    assert !IsWriting(s.pending) && !HasWritten(s.ready);
  }

  lemma ResolvedKeeps(s: State, c: Choice)
    requires Inv(s) && Enabled(s, Run(c)) && s.ready[0].Resolved?
    ensures Inv(Apply(s, Run(c)))
  {
    FirstHandler(s);
    var s1 := s.(ready := s.ready[1..]);
    assert LeftoverExplained(s1);
    match s.ready[0].list
    case None =>
      ReConnectKeeps(s1.(status := ADDR_RETRY_WAIT), LONG);
    case Some(found) =>
      var s2 := s1.(found := found, tried := []);
      assert LeftoverExplained(s2) && Conserved(s2);
      TryConnectKeeps(s2, QueryResult(c.order, 0), c.opens);
  }

  lemma ConnectedKeeps(s: State, c: Choice)
    requires Inv(s) && Enabled(s, Run(c)) && s.ready[0].Connected?
    ensures Inv(Apply(s, Run(c)))
  {
    FirstHandler(s);
    var q := s.ready[0].endpoints;
    assert HandlerOk(s, s.ready[0]);
    var s1 := s.(ready := s.ready[1..]);
    assert LeftoverExplained(s1);
    if s.ready[0].ok {
      var s2 := StartReceive(s1.(status := SEND_LOOP));
      assert s2.pending == [Receiving];
      TrySendKeeps(s2, c.delivers);
      var s3 := TrySendMessage(s2, c.delivers);
      SendingStarted(s2, c.delivers);
      assert Inv(s3.(writeFailed := false)) by { FlagKeeps(s3, false); }
    } else {
      CloseCases(s1, c.aborted);
      var s2 := Close(s1, c.aborted);
      assert LeftoverExplained(s2);
      if q.IsDone() { ReConnectKeeps(s2, LONG); } else { TryConnectKeeps(s2, q, c.opens); }
    }
  }

  /** After an attempt to send on an open socket a write is under way unless
      there is nothing to write. */
  lemma SendingStarted(s: State, delivers: bool)
    requires s.open
    ensures var s' := TrySendMessage(s, delivers); s'.buffer != "" ==> IsWriting(s'.pending)
  {
    var s' := TrySendMessage(s, delivers);
    if s'.buffer != "" {
      assert s'.pending[|s.pending|].Writing?;
    }
  }

  lemma FlagKeeps(s: State, flag: bool)
    requires Inv(s) && (s.buffer != "" ==> IsWriting(s.pending) || HasWritten(s.ready) || flag)
    ensures Inv(s.(writeFailed := flag))
  {
    var s' := s.(writeFailed := flag);
    assert forall i :: 0 <= i < |s.pending| ==> OpOk(s, s.pending[i]) ==> OpOk(s', s'.pending[i]);
    assert forall i :: 0 <= i < |s.ready| ==> HandlerOk(s, s.ready[i]) ==> HandlerOk(s', s'.ready[i]);
  }

  lemma ReceivedKeeps(s: State, c: Choice)
    requires Inv(s) && Enabled(s, Run(c)) && s.ready[0].Received?
    ensures Inv(Apply(s, Run(c)))
  {
    var s1 := s.(ready := s.ready[1..]);
    if s.ready[0].ok {
      ReceiveAgainKeeps(s, s1);
    } else {
      ConnectionLostKeeps(s, s1, c.aborted);
    }
  }

  lemma TakenOffKeepsWritten(s: State)
    requires s.ready != [] && !s.ready[0].Written?
    ensures HasWritten(s.ready[1..]) == HasWritten(s.ready)
  {
    if HasWritten(s.ready) {
      var i :| 0 <= i < |s.ready| && s.ready[i].Written?;
      assert s.ready[1..][i - 1].Written?;
    }
  }

  lemma ConnectionLostKeeps(s: State, s1: State, aborted: nat)
    requires Inv(s) && s.ready != [] && s.ready[0].Received? && s1 == s.(ready := s.ready[1..])
    ensures Inv(ReConnect(Close(s1, aborted), SHORT))
  {
    FirstHandler(s);
    TakenOffKeepsWritten(s);
    CloseCases(s1, aborted);
    var s2 := Close(s1, aborted);
    if |s1.pending| == 1 {
      assert OpOk(s, s1.pending[0]);
      assert s2.ready == [Written(false, Min(aborted, |s.buffer|), s.buffer)];
      assert s2.ready[0].Written?;
    } else if |s1.ready| == 1 {
      assert s1.ready[0] == s.ready[1] && HandlerOk(s, s.ready[1]);
    }
    ReConnectKeeps(s2, SHORT);
  }

  lemma ReceiveAgainKeeps(s: State, s1: State)
    requires Inv(s) && s.ready != [] && s.ready[0].Received? && s1 == s.(ready := s.ready[1..])
    ensures Inv(StartReceive(s1))
  {
    FirstHandler(s);
    TakenOffKeepsWritten(s);
    hide Shape, Wire, StartReceive;
    if !s.open {
      ReceiveOnClosed(s1);
    } else if |s.pending| == 1 {
      var op := s.pending[0];
      assert OpOk(s, op) && s1.pending == [op] && s1.ready == [];
      ReceiveBesideWrite(s1, op);
    } else {
      var h := s.ready[1];
      assert HandlerOk(s, h) && s1.ready == [h];
      ReceiveBeforeLink(s1, h);
    }
  }

  lemma ReceiveOnClosed(s: State)
    requires s.status == SEND_LOOP && !s.open && s.pending == [] && s.ready == []
    requires Conserved(s) && LeftoverExplained(s)
    ensures Inv(StartReceive(s))
  {
    var s' := StartReceive(s);
    assert s'.ready == [Received(false)] && HandlerKinds(s'.ready) == [Control(SEND_LOOP)];
    assert !HasWritten(s.ready);
  }

  lemma ReceiveBesideWrite(s: State, op: Op)
    requires s.status == SEND_LOOP && s.open && s.pending == [op] && s.ready == []
    requires op.Writing? && OpOk(s, op) && Conserved(s)
    ensures Inv(StartReceive(s))
  {
    var s' := StartReceive(s);
    assert s'.pending == [op, Receiving];
    assert OpKinds(s'.pending) == [Chain, Control(SEND_LOOP)];
    assert s'.pending[0].Writing?;
  }

  lemma ReceiveBeforeLink(s: State, h: Handler)
    requires s.status == SEND_LOOP && s.open && s.pending == [] && s.ready == [h]
    requires (h.Written? || h.Posted?) && HandlerOk(s, h) && Conserved(s)
    ensures Inv(StartReceive(s))
  {
    var s' := StartReceive(s);
    assert s'.pending == [Receiving] && s'.ready == [h];
    assert OpKinds(s'.pending) == [Control(SEND_LOOP)] && HandlerKinds(s'.ready) == [Chain];
    assert h.Written? ==> s'.ready[0].Written?;
  }

  lemma TimedOutKeeps(s: State, c: Choice)
    requires Inv(s) && Enabled(s, Run(c)) && s.ready[0].TimedOut?
    ensures Inv(Apply(s, Run(c)))
  {
    FirstHandler(s);
    var s' := Apply(s, Run(c));
    assert s'.pending == [Resolving] && s'.ready == [];
    assert OpKinds(s'.pending) == [Control(ADDR_LOOKUP)];
  }

  /** What a write leaves in the buffer. */
  function Left(s: State, count: nat): string {
    if count == |s.buffer| then ""
    else if 0 < count < |s.buffer| then s.buffer[count..]
    else s.buffer
  }

  lemma WriteConserves(s: State, count: nat)
    requires Conserved(s) && count <= |s.buffer|
    ensures Conserved(s.(buffer := Left(s, count), sent := s.sent + s.buffer[..count]))
  {
    assert s.buffer[..count] + Left(s, count) == s.buffer;
    assert s.sent + s.buffer[..count] + Left(s, count) == s.sent + s.buffer;
  }

  /** The chain of sending has come to its end. */
  lemma ChainEndsKeeps(s: State)
    requires !s.open && Conserved(s) && LeftoverExplained(s)
    requires || (s.status == ADDR_RETRY_WAIT && |s.pending| == 1 && s.pending[0].Waiting? && s.ready == [])
             || (s.status == ADDR_RETRY_WAIT && s.pending == [] && s.ready == [TimedOut])
             || (s.status == SEND_LOOP && s.pending == [] && |s.ready| == 1 && s.ready[0].Received?)
    ensures Inv(s)
  {
    if s.pending == [] {
      assert HandlerKinds(s.ready) == [Control(s.status)];
    } else {
      assert OpKinds(s.pending) == [Control(s.status)];
    }
  }

  lemma WrittenKeeps(s: State, c: Choice)
    requires Inv(s) && Enabled(s, Run(c)) && s.ready[0].Written?
    ensures Inv(Apply(s, Run(c)))
  {
    FirstHandler(s);
    var h := s.ready[0];
    assert HandlerOk(s, h);
    var s1 := s.(ready := s.ready[1..]);
    WriteConserves(s1, h.count);
    var s2 := s1.(buffer := Left(s1, h.count), sent := s1.sent + s1.buffer[..h.count]);
    if h.ok {
      if s.open { TrySendKeeps(s2, c.delivers); } else { ChainEndsKeeps(s2); }
    } else {
      WriteFailedKeeps(s2, c.aborted);
    }
  }

  lemma WriteFailedKeeps(s: State, aborted: nat)
    requires Conserved(s)
    requires || (s.status == ADDR_RETRY_WAIT && !s.open && |s.pending| == 1 && s.pending[0].Waiting? && s.ready == [])
             || (s.status == ADDR_RETRY_WAIT && !s.open && s.pending == [] && s.ready == [TimedOut])
             || (s.status == SEND_LOOP && s.pending == [Receiving] && s.ready == [])
             || (s.status == SEND_LOOP && s.pending == [] && |s.ready| == 1 && s.ready[0].Received?)
    ensures Inv(Close(s, aborted).(writeFailed := s.buffer != ""))
  {
    CloseCases(s, aborted);
    ChainEndsKeeps(Close(s, aborted).(writeFailed := s.buffer != ""));
  }

  lemma PostedKeeps(s: State, c: Choice)
    requires Inv(s) && Enabled(s, Run(c)) && s.ready[0].Posted?
    ensures Inv(Apply(s, Run(c)))
  {
    FirstHandler(s);
    assert HandlerOk(s, s.ready[0]);
    var s1 := s.(ready := s.ready[1..]);
    if s.open { TrySendKeeps(s1, c.delivers); } else { ChainEndsKeeps(s1); }
  }

  // ---- Every step keeps the invariant --------------------------------------

  lemma CompleteKeeps(s: State, step: Step)
    requires Inv(s) && step.Complete? && Enabled(s, step)
    ensures Inv(Apply(s, step))
  {
    var i := step.index;
    var h := HandlerFor(s.pending[i], step.ok, step.count, step.list);
    var s' := Apply(s, step);
    assert HandlerKind(h) == OpKind(s.pending[i]) == OpKinds(s.pending)[i];
    assert OpKinds(s'.pending) == OpKinds(s.pending)[..i] + OpKinds(s.pending)[i + 1..];
    assert HandlerKinds(s'.ready) == HandlerKinds(s.ready) + [HandlerKind(h)];
    ShapeAfterCompletion(s.status, s.open, OpKinds(s.pending), HandlerKinds(s.ready), i);
    CompletedFits(s, i, h);
    PartsAfterCompletion(s, s', i, h);
    LeftoverAfterCompletion(s, s', i, h);
  }

  lemma ShapeAfterCompletion(status: Status, open: bool, p: seq<Kind>, r: seq<Kind>, i: nat)
    requires Shape(status, open, p, r) && i < |p|
    ensures Shape(status, open, p[..i] + p[i + 1..], r + [p[i]])
  {
  }

  lemma CompletedFits(s: State, i: nat, h: Handler)
    requires Inv(s) && i < |s.pending| && HandlerFits(h) && Completes(s.pending[i], h)
    ensures HandlerOk(s, h)
  {
    assert OpOk(s, s.pending[i]);
    if s.pending[i].Connecting? {
      ConnectingIsOpen(s.status, s.open, OpKinds(s.pending), HandlerKinds(s.ready), i);
    }
  }

  predicate Completes(op: Op, h: Handler) {
    match op
    case Resolving => h.Resolved?
    case Connecting(q) => h.Connected? && h.endpoints == q
    case Receiving => h.Received?
    case Writing(data) => h.Written? && h.data == data
    case Waiting(_) => h.TimedOut?
  }

  lemma ConnectingIsOpen(status: Status, open: bool, p: seq<Kind>, r: seq<Kind>, i: nat)
    requires Shape(status, open, p, r) && i < |p| && p[i] == Control(CONNECT)
    ensures open
  {
  }

  lemma PartsAfterCompletion(s: State, s': State, i: nat, h: Handler)
    requires Inv(s) && i < |s.pending| && HandlerOk(s, h)
    requires s' == s.(pending := s.pending[..i] + s.pending[i + 1..], ready := s.ready + [h])
    ensures forall k :: 0 <= k < |s'.pending| ==> OpOk(s', s'.pending[k])
    ensures forall k :: 0 <= k < |s'.ready| ==> HandlerOk(s', s'.ready[k])
    ensures Conserved(s')
  {
    forall k | 0 <= k < |s'.pending|
      ensures OpOk(s', s'.pending[k])
    {
      assert s'.pending[k] == s.pending[if k < i then k else k + 1];
    }
    forall k | 0 <= k < |s'.ready|
      ensures HandlerOk(s', s'.ready[k])
    {
      if k < |s.ready| { assert s'.ready[k] == s.ready[k]; }
    }
  }

  lemma LeftoverAfterCompletion(s: State, s': State, i: nat, h: Handler)
    requires i < |s.pending| && LeftoverExplained(s) && (s.pending[i].Writing? ==> h.Written?)
    requires s'.pending == s.pending[..i] + s.pending[i + 1..] && s'.ready == s.ready + [h]
    requires s'.buffer == s.buffer && s'.writeFailed == s.writeFailed
    ensures LeftoverExplained(s')
  {
    if IsWriting(s.pending) {
      var k :| 0 <= k < |s.pending| && s.pending[k].Writing?;
      if k < i { assert s'.pending[k].Writing?; }
      if k > i { assert s'.pending[k - 1].Writing?; }
      if k == i { assert s'.ready[|s.ready|].Written?; }
    }
    if HasWritten(s.ready) {
      var k :| 0 <= k < |s.ready| && s.ready[k].Written?;
      assert s'.ready[k].Written?;
    }
  }

  lemma EnqueueKeeps(s: State, item: Item)
    requires Inv(s)
    ensures Inv(s.(queue := s.queue + [item], accepted := s.accepted + [item]))
  {
    EnqueueConserves(s, item);
    var s' := s.(queue := s.queue + [item], accepted := s.accepted + [item]);
    assert forall k :: 0 <= k < |s.pending| ==> OpOk(s, s.pending[k]) ==> OpOk(s', s'.pending[k]);
    assert forall k :: 0 <= k < |s.ready| ==> HandlerOk(s, s.ready[k]) ==> HandlerOk(s', s'.ready[k]);
  }

  lemma StepKeepsInvariant(s: State, step: Step)
    requires Inv(s) && Enabled(s, step)
    ensures Inv(Apply(s, step))
  {
    match step
    case Complete(_, _, _, _) => CompleteKeeps(s, step);
    case Enqueue(item, room) => if room { EnqueueKeeps(s, item); }
    case Run(c) =>
      match s.ready[0]
      case Resolved(_) => ResolvedKeeps(s, c);
      case Connected(_, _) => ConnectedKeeps(s, c);
      case Received(_) => ReceivedKeeps(s, c);
      case Written(_, _, _) => WrittenKeeps(s, c);
      case TimedOut => TimedOutKeeps(s, c);
      case Posted => PostedKeeps(s, c);
  }

  lemma InitialInvariant()
    ensures Inv(INITIAL)
  {
    assert OpKinds(INITIAL.pending) == [Control(ADDR_LOOKUP)];
  }

  /** Every state that the connection gets into satisfies the invariant. */
  lemma {:induction false} ReachableInvariant(states: seq<State>, steps: seq<Step>, n: nat)
    requires IsRun(states, steps) && n < |states|
    ensures Inv(states[n])
  {
    if n == 0 {
      InitialInvariant();
    } else {
      ReachableInvariant(states, steps, n - 1);
      StepKeepsInvariant(states[n - 1], steps[n - 1]);
    }
  }
}
