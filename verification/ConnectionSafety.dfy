// What the invariant means for the users of the connection.
module ConnectionSafety {
  import opened Wrappers
  import opened Framing
  import opened ConnectionModel
  import opened ConnectionInvariant

  /** All that is outstanding or ready, by kind. */
  function Activities(s: State): multiset<Kind> {
    multiset(OpKinds(s.pending) + HandlerKinds(s.ready))
  }

  /** In every reachable state one operation or handler is in control, the one
      that the status names, so that a lost connection schedules one reconnect
      however many of its operations fail. There is never more than one link of
      the sending chain: none while looking up or connecting, one while the
      connection is up. */
  lemma OneControlOneChain(states: seq<State>, steps: seq<Step>, n: nat)
    requires IsRun(states, steps) && n < |states|
    ensures var s := states[n];
      && (forall phase :: Activities(s)[Control(phase)] == if phase == s.status then 1 else 0)
      && Activities(s)[Chain] <= 1
      && (s.status == SEND_LOOP && s.open ==> Activities(s)[Chain] == 1)
      && (s.status == ADDR_LOOKUP || s.status == CONNECT ==> Activities(s)[Chain] == 0)
  {
    ReachableInvariant(states, steps, n);
    var s := states[n];
    ShapeCounts(s.status, s.open, OpKinds(s.pending), HandlerKinds(s.ready));
  }

  lemma ShapeCounts(status: Status, open: bool, p: seq<Kind>, r: seq<Kind>)
    requires Shape(status, open, p, r)
    ensures var c := Control(status);
      || (multiset(p + r) == multiset{c} && !(status == SEND_LOOP && open))
      || (multiset(p + r) == multiset{c, Chain} && status != ADDR_LOOKUP && status != CONNECT)
  {
    var c := Control(status);
    ShapeLists(status, open, p, r);
    assert multiset([c, Chain]) == multiset{c, Chain} == multiset([Chain, c]);
  }

  lemma ShapeLists(status: Status, open: bool, p: seq<Kind>, r: seq<Kind>)
    requires Shape(status, open, p, r)
    ensures var c := Control(status);
      || (p + r == [c] && !(status == SEND_LOOP && open))
      || ((p + r == [c, Chain] || p + r == [Chain, c]) && status != ADDR_LOOKUP && status != CONNECT)
  {
  }

  /** The buffer that a write reads from stays as it is while the write is
      outstanding, and holds what the write was given. */
  lemma BufferStableDuringWrite(states: seq<State>, steps: seq<Step>, n: nat, i: nat)
    requires IsRun(states, steps) && n < |states| && i < |states[n].pending| && states[n].pending[i].Writing?
    ensures states[n].buffer == states[n].pending[i].data
  {
    ReachableInvariant(states, steps, n);
    assert OpOk(states[n], states[n].pending[i]);
  }

  // ---- Bytes ---------------------------------------------------------------

  lemma WireConcat(a: seq<Item>, b: seq<Item>)
    ensures Wire(a + b) == Wire(a) + Wire(b)
  {
    assert Texts(a + b) == Texts(a) + Texts(b);
    NonEmptyConcat(Texts(a), Texts(b));
    FrameConcat(NonEmpty(Texts(a)), NonEmpty(Texts(b)));
  }

  /** Bytes reported written, then those in the buffer, then the framed messages
      still queued: always the framed messages accepted, in their order. */
  lemma BytesConserved(states: seq<State>, steps: seq<Step>, n: nat)
    requires IsRun(states, steps) && n < |states|
    ensures var s := states[n]; s.sent + s.buffer + Wire(s.queue) == Wire(s.accepted)
  {
    ReachableInvariant(states, steps, n);
    var s := states[n];
    assert s.accepted == s.accepted[..Dequeued(s)] + s.accepted[Dequeued(s)..];
    WireConcat(s.accepted[..Dequeued(s)], s.queue);
  }

  /** A server that goes on reading across connections, and has received any
      part of the bytes reported written from their beginning on, has the first
      of the messages accepted and a beginning of the next. */
  lemma ReaderGetsMessagesInOrder(states: seq<State>, steps: seq<Step>, n: nat, chunks: seq<string>)
    requires IsRun(states, steps) && n < |states|
    requires forall m :: m in NonEmpty(Texts(states[n].accepted)) ==> NulFree(m)
    requires Concat(chunks) <= states[n].sent
    ensures var all, read := NonEmpty(Texts(states[n].accepted)), FeedChunks(NOTHING_READ, chunks);
      && read.messages <= all
      && (if |read.messages| == |all| then read.partial == "" else read.partial <= all[|read.messages|])
  {
    BytesConserved(states, steps, n);
    ChunksDoNotMatter(NOTHING_READ, chunks);
    var s := states[n];
    assert s.sent <= s.sent + s.buffer + Wire(s.queue);
    PrefixYieldsPrefix(NonEmpty(Texts(s.accepted)), Concat(chunks));
  }

  /** If the queue and the buffer are empty, and all that was reported written
      has arrived, it has received all of them. */
  lemma DrainedMeansReceived(states: seq<State>, steps: seq<Step>, n: nat, chunks: seq<string>)
    requires IsRun(states, steps) && n < |states|
    requires forall m :: m in NonEmpty(Texts(states[n].accepted)) ==> NulFree(m)
    requires Concat(chunks) == states[n].sent && states[n].queue == [] && states[n].buffer == ""
    ensures FeedChunks(NOTHING_READ, chunks) == Decoded(NonEmpty(Texts(states[n].accepted)), "")
  {
    BytesConserved(states, steps, n);
    var s := states[n];
    assert Wire([]) == "" by { assert Texts([]) == []; }
    assert s.sent + s.buffer + Wire(s.queue) == s.sent;
    RoundTrip(NonEmpty(Texts(s.accepted)), chunks);
  }

  // ---- Flush ---------------------------------------------------------------

  /** The step takes an item off the queue, which fulfils the promise of a flush
      if the item is its marker. */
  ghost predicate TakesItem(s: State, step: Step)
    requires Enabled(s, step)
  {
    step.Run? && Dequeued(Apply(s, step)) > Dequeued(s)
  }

  /** When an item leaves the queue, the bytes of all those accepted before it
      have been reported written, except if this is the first attempt to send
      after a connection was made and a failed write had left bytes over. */
  lemma ItemTakenMeansEarlierWritten(states: seq<State>, steps: seq<Step>, n: nat)
    requires IsRun(states, steps) && n < |steps| && TakesItem(states[n], steps[n])
    ensures var s, s' := states[n], states[n + 1];
      && 0 <= Dequeued(s) < |s.accepted| && s.queue[0] == s.accepted[Dequeued(s)]
      && Wire(s.accepted[..Dequeued(s)]) <= s'.sent + s'.buffer
      && s'.sent <= Wire(s.accepted[..Dequeued(s)])
      && (s'.sent == Wire(s.accepted[..Dequeued(s)]) <==> !(s.ready[0].Connected? && s.buffer != ""))
      && (s.ready[0].Connected? && s.buffer != "" ==> s.writeFailed)
  {
    ReachableInvariant(states, steps, n);
    var s, s' := states[n], states[n + 1];
    assert Enabled(s, steps[n]) && s' == Apply(s, steps[n]);
    EarlierItemsFirst(s, steps[n].choice);
    OnlySendingTakes(s, steps[n].choice);
    if s.ready[0].Connected? && s.buffer != "" {
      LeftoverAtConnect(s);
    }
    assert |s.sent + s.buffer| == |s.sent| + |s.buffer|;
  }

  lemma EarlierItemsFirst(s: State, c: Choice)
    requires Inv(s) && Enabled(s, Run(c))
    ensures TakesItem(s, Run(c)) ==>
      0 <= Dequeued(s) < |s.accepted| && s.queue != [] && s.queue[0] == s.accepted[Dequeued(s)]
    ensures 0 <= Dequeued(s) && Wire(s.accepted[..Dequeued(s)]) == s.sent + s.buffer
    ensures TakesItem(s, Run(c)) ==> s.sent + s.buffer <= Apply(s, Run(c)).sent + Apply(s, Run(c)).buffer
  {
    StepKeepsInvariant(s, Run(c));
    var s' := Apply(s, Run(c));
    var k, k' := Dequeued(s), Dequeued(s');
    KeepsAccepted(s.(ready := s.ready[1..]), s.ready[0], c);
    if k' <= k { return; }
    assert s'.accepted[..k'] == s.accepted[..k] + s.accepted[k..k'];
    WireConcat(s.accepted[..k], s.accepted[k..k']);
  }

  lemma KeepsAccepted(s: State, h: Handler, c: Choice)
    requires HandlerFits(h)
    ensures RunHandler(s, h, c).accepted == s.accepted
  {
  }

  lemma LeftoverAtConnect(s: State)
    requires Inv(s) && s.ready != [] && s.ready[0].Connected? && s.buffer != ""
    ensures s.writeFailed
  {
    FirstHandler(s);
    assert s.pending == [] && s.ready == [s.ready[0]];
  }

  /** Only these handlers take items, and what they report as written first. */
  lemma OnlySendingTakes(s: State, c: Choice)
    requires Inv(s) && Enabled(s, Run(c))
    ensures var h, s' := s.ready[0], Apply(s, Run(c));
      || !TakesItem(s, Run(c))
      || (h.Connected? && h.ok && s'.sent == s.sent)
      || (h.Posted? && s.buffer == "" && s'.sent == s.sent)
      || (h.Written? && h.ok && s'.sent == s.sent + s.buffer)
  {
    var h := s.ready[0];
    assert HandlerOk(s, h);
    var s1 := s.(ready := s.ready[1..]);
    if h.Resolved? || h.Received? || h.TimedOut? || (h.Connected? && !h.ok) {
      OthersKeepQueue(s1, h, c);
    } else if h.Written? {
      assert s.buffer[..|s.buffer|] == s.buffer;
      if h.ok {
        SendingKeepsSent(s1.(buffer := "", sent := s.sent + s.buffer), c.delivers);
      }
    } else if h.Posted? {
      SendingKeepsSent(s1, c.delivers);
    } else {
      SendingKeepsSent(StartReceive(s1.(status := SEND_LOOP)), c.delivers);
    }
  }

  lemma OthersKeepQueue(s: State, h: Handler, c: Choice)
    requires h.Resolved? || h.Received? || h.TimedOut? || (h.Connected? && !h.ok)
    ensures RunHandler(s, h, c).queue == s.queue && RunHandler(s, h, c).accepted == s.accepted
  {
  }

  lemma SendingKeepsSent(s: State, delivers: bool)
    ensures TrySendMessage(s, delivers).sent == s.sent
  {
  }

  lemma {:induction false} AcceptedGrows(states: seq<State>, steps: seq<Step>, m: nat, n: nat)
    requires IsRun(states, steps) && m <= n < |states|
    ensures states[m].accepted <= states[n].accepted
  {
    hide Apply;
    if m == n {
    } else {
      AcceptedGrows(states, steps, m, n - 1);
      StepGrowsAccepted(states[n - 1], steps[n - 1]);
    }
  }

  lemma StepGrowsAccepted(s: State, step: Step)
    requires Enabled(s, step)
    ensures s.accepted <= Apply(s, step).accepted
  {
    if step.Run? {
      KeepsAccepted(s.(ready := s.ready[1..]), s.ready[0], step.choice);
    }
  }

  /** The future of the flush called at step m is ready in state n: its marker
      was taken off the queue, or was not accepted by the queue at all, in which
      case its promise was given up at once. */
  ghost predicate FlushReady(states: seq<State>, steps: seq<Step>, m: nat, n: nat)
    requires IsRun(states, steps) && m < |steps| && m < n < |states|
    requires steps[m].Enqueue? && steps[m].item.FlushMarker?
  {
    !steps[m].room || Dequeued(states[n]) > |states[m].accepted|
  }

  /** A flush whose marker was accepted is ready only when the bytes of all the
      messages accepted before it are written or in the buffer. */
  lemma AcceptedFlushDelivers(states: seq<State>, steps: seq<Step>, m: nat, n: nat)
    requires IsRun(states, steps) && m < |steps| && m < n < |states|
    requires steps[m].Enqueue? && steps[m].item.FlushMarker? && steps[m].room
    requires FlushReady(states, steps, m, n)
    ensures Wire(states[m].accepted) <= states[n].sent + states[n].buffer
  {
    ReachableInvariant(states, steps, n);
    AcceptedGrows(states, steps, m, n);
    var s, k := states[n], |states[m].accepted|;
    assert s.accepted[..Dequeued(s)] == states[m].accepted + s.accepted[k..Dequeued(s)];
    WireConcat(states[m].accepted, s.accepted[k..Dequeued(s)]);
  }

  /** Step n takes the marker of the flush called at step m. */
  ghost predicate TakesMarker(states: seq<State>, steps: seq<Step>, m: nat, n: nat)
    requires IsRun(states, steps) && m < n < |steps|
    requires steps[m].Enqueue? && steps[m].item.FlushMarker? && steps[m].room
  {
    TakesItem(states[n], steps[n]) && Dequeued(states[n]) == |states[m].accepted|
  }

  /** When the marker of a flush is taken, which makes its future ready, the
      messages accepted before the flush have been reported written exactly if
      this is not the first attempt to send after a connection was made, with
      bytes left over by a failed write. */
  lemma AcceptedFlushIff(states: seq<State>, steps: seq<Step>, m: nat, n: nat)
    requires IsRun(states, steps) && m < n < |steps|
    requires steps[m].Enqueue? && steps[m].item.FlushMarker? && steps[m].room
    requires TakesMarker(states, steps, m, n)
    ensures states[n].queue != [] && states[n].queue[0] == steps[m].item
    ensures !FlushReady(states, steps, m, n) && FlushReady(states, steps, m, n + 1)
    ensures Wire(states[m].accepted) <= states[n + 1].sent
      <==> !(states[n].ready[0].Connected? && states[n].buffer != "")
  {
    ItemTakenMeansEarlierWritten(states, steps, n);
    AcceptedGrows(states, steps, m + 1, n);
    assert Enabled(states[m], steps[m]) && states[m + 1] == Apply(states[m], steps[m]);
    assert states[m + 1].accepted == states[m].accepted + [steps[m].item];
    assert states[n].accepted[..|states[m].accepted|] == states[m].accepted;
    AcceptedKept(states[n], steps[n]);
  }

  lemma AcceptedKept(s: State, step: Step)
    requires Enabled(s, step) && step.Run?
    ensures Apply(s, step).accepted == s.accepted
  {
    KeepsAccepted(s.(ready := s.ready[1..]), s.ready[0], step.choice);
  }

  // The states of a run in which a write fails and nothing is ever written.

  const RUN := Run(Choice([], true, true, 0))
  const DONE := Complete(0, true, 0, [])
  const WRITE_FAILS := Complete(1, false, 0, [])
  const NO_ENDPOINTS := QueryResult([], 0)
  const M := Message("m")
  const MARKER := FlushMarker(0)

  ghost function Unsent(status: Status, open: bool, pending: seq<Op>, ready: seq<Handler>, buffer: string,
                        queue: seq<Item>, accepted: seq<Item>, tried: seq<Endpoint>, writeFailed: bool): State
  {
    State(status, open, pending, ready, buffer, queue, accepted, "", [], tried, writeFailed)
  }

  ghost function LookingUp(b: string, accepted: seq<Item>, tried: seq<Endpoint>, failed: bool): State {
    Unsent(ADDR_LOOKUP, false, [Resolving], [], b, [], accepted, tried, failed)
  }

  ghost function LookedUp(b: string, accepted: seq<Item>, tried: seq<Endpoint>, failed: bool): State {
    Unsent(ADDR_LOOKUP, false, [], [Resolved(Some([]))], b, [], accepted, tried, failed)
  }

  ghost function Dialling(b: string, accepted: seq<Item>, failed: bool): State {
    Unsent(CONNECT, true, [Connecting(NO_ENDPOINTS)], [], b, [], accepted, [NO_ENDPOINT], failed)
  }

  ghost function Dialled(b: string, queue: seq<Item>, accepted: seq<Item>, failed: bool): State {
    Unsent(CONNECT, true, [], [Connected(true, NO_ENDPOINTS)], b, queue, accepted, [NO_ENDPOINT], failed)
  }

  ghost function Sending(b: string, accepted: seq<Item>): State {
    Unsent(SEND_LOOP, true, [Receiving, Writing(b)], [], b, [], accepted, [NO_ENDPOINT], false)
  }

  ghost function NotWritten(b: string, accepted: seq<Item>): State {
    Unsent(SEND_LOOP, true, [Receiving], [Written(false, 0, b)], b, [], accepted, [NO_ENDPOINT], false)
  }

  ghost function Lost(b: string, accepted: seq<Item>): State {
    Unsent(SEND_LOOP, false, [], [Received(false)], b, [], accepted, [NO_ENDPOINT], true)
  }

  ghost function Pausing(b: string, accepted: seq<Item>): State {
    Unsent(ADDR_RETRY_WAIT, false, [Waiting(SHORT)], [], b, [], accepted, [NO_ENDPOINT], true)
  }

  ghost function Paused(b: string, accepted: seq<Item>): State {
    Unsent(ADDR_RETRY_WAIT, false, [], [TimedOut], b, [], accepted, [NO_ENDPOINT], true)
  }

  ghost predicate Leads(s: State, step: Step, s': State) {
    Enabled(s, step) && Apply(s, step) == s'
  }

  lemma LookupConnects(b: string, accepted: seq<Item>, tried: seq<Endpoint>, failed: bool)
    ensures Leads(LookingUp(b, accepted, tried, failed), DONE, LookedUp(b, accepted, tried, failed))
    ensures Leads(LookedUp(b, accepted, tried, failed), RUN, Dialling(b, accepted, failed))
    ensures Leads(Dialling(b, accepted, failed), DONE, Dialled(b, [], accepted, failed))
  {
  }

  lemma ConnectTakes(x: Item, b: string, accepted: seq<Item>, failed: bool, after: string)
    requires |b| <= MESSAGE_ADDITION_LIMIT && after != ""
    requires after == if x.Text() == "" then b else b + x.Text() + [NUL]
    ensures Leads(Dialled(b, [], accepted, failed), Enqueue(x, true), Dialled(b, [x], accepted + [x], failed))
    ensures Leads(Dialled(b, [x], accepted + [x], failed), RUN, Sending(after, accepted + [x]))
  {
  }

  lemma LossLeadsToLookup(b: string, accepted: seq<Item>)
    requires b != ""
    ensures Leads(Sending(b, accepted), WRITE_FAILS, NotWritten(b, accepted))
    ensures Leads(NotWritten(b, accepted), RUN, Lost(b, accepted))
    ensures Leads(Lost(b, accepted), RUN, Pausing(b, accepted))
    ensures Leads(Pausing(b, accepted), DONE, Paused(b, accepted))
    ensures Leads(Paused(b, accepted), RUN, LookingUp(b, accepted, [NO_ENDPOINT], true))
  {
  }

  lemma Extended(states: seq<State>, steps: seq<Step>, step: Step, s: State)
    requires IsRun(states, steps) && Leads(states[|steps|], step, s)
    ensures IsRun(states + [s], steps + [step]) && (states + [s])[|steps| + 1] == s
  {
  }

  /** A run to the connect handler that is about to take its first item. */
  lemma Connects(states: seq<State>, steps: seq<Step>, b: string, accepted: seq<Item>, tried: seq<Endpoint>,
                 failed: bool) returns (states': seq<State>, steps': seq<Step>)
    requires IsRun(states, steps) && states[|steps|] == LookingUp(b, accepted, tried, failed)
    ensures IsRun(states', steps') && |steps'| == |steps| + 3
    ensures states'[|steps'|] == Dialled(b, [], accepted, failed)
  {
    LookupConnects(b, accepted, tried, failed);
    hide IsRun, Leads, LookingUp, LookedUp, Dialling, Dialled;
    var s1, s2 := LookedUp(b, accepted, tried, failed), Dialling(b, accepted, failed);
    var s3 := Dialled(b, [], accepted, failed);
    Extended(states, steps, DONE, s1);
    Extended(states + [s1], steps + [DONE], RUN, s2);
    Extended(states + [s1] + [s2], steps + [DONE] + [RUN], DONE, s3);
    states', steps' := states + [s1] + [s2] + [s3], steps + [DONE] + [RUN] + [DONE];
  }

  /** Item x is called for and taken by that handler. */
  lemma Takes(states: seq<State>, steps: seq<Step>, x: Item, b: string, accepted: seq<Item>, failed: bool,
              after: string) returns (states': seq<State>, steps': seq<Step>)
    requires IsRun(states, steps) && states[|steps|] == Dialled(b, [], accepted, failed)
    requires |b| <= MESSAGE_ADDITION_LIMIT && after != ""
    requires after == if x.Text() == "" then b else b + x.Text() + [NUL]
    ensures IsRun(states', steps') && steps' == steps + [Enqueue(x, true)] + [RUN]
    ensures states'[|steps|] == states[|steps|]
    ensures states'[|steps| + 1] == Dialled(b, [x], accepted + [x], failed)
    ensures states'[|steps| + 2] == Sending(after, accepted + [x])
  {
    ConnectTakes(x, b, accepted, failed, after);
    hide IsRun, Leads, Dialled, Sending;
    var s1, s2 := Dialled(b, [x], accepted + [x], failed), Sending(after, accepted + [x]);
    Extended(states, steps, Enqueue(x, true), s1);
    Extended(states + [s1], steps + [Enqueue(x, true)], RUN, s2);
    states', steps' := states + [s1] + [s2], steps + [Enqueue(x, true)] + [RUN];
  }

  /** The write fails, and the server is looked up again. */
  lemma Loses(states: seq<State>, steps: seq<Step>, b: string, accepted: seq<Item>)
      returns (states': seq<State>, steps': seq<Step>)
    requires IsRun(states, steps) && b != "" && states[|steps|] == Sending(b, accepted)
    ensures IsRun(states', steps') && |steps'| == |steps| + 5
    ensures states'[|steps'|] == LookingUp(b, accepted, [NO_ENDPOINT], true)
  {
    LossLeadsToLookup(b, accepted);
    hide IsRun, Leads, Sending, NotWritten, Lost, Pausing, Paused, LookingUp;
    var s1, s2, s3, s4 := NotWritten(b, accepted), Lost(b, accepted), Pausing(b, accepted), Paused(b, accepted);
    var s5 := LookingUp(b, accepted, [NO_ENDPOINT], true);
    Extended(states, steps, WRITE_FAILS, s1);
    Extended(states + [s1], steps + [WRITE_FAILS], RUN, s2);
    Extended(states + [s1] + [s2], steps + [WRITE_FAILS] + [RUN], RUN, s3);
    Extended(states + [s1] + [s2] + [s3], steps + [WRITE_FAILS] + [RUN] + [RUN], DONE, s4);
    Extended(states + [s1] + [s2] + [s3] + [s4], steps + [WRITE_FAILS] + [RUN] + [RUN] + [DONE], RUN, s5);
    states' := states + [s1] + [s2] + [s3] + [s4] + [s5];
    steps' := steps + [WRITE_FAILS] + [RUN] + [RUN] + [DONE] + [RUN];
  }

  /** A flush that reports success, its marker accepted and taken, while the
      message before it was handed to a write that failed and no byte of it has
      been written. */
  lemma AcceptedFlushDeliversNothing()
    ensures exists states: seq<State>, steps: seq<Step> ::
      && |steps| == 15 && steps[13] == Enqueue(MARKER, true) && IsRun(states, steps)
      && TakesMarker(states, steps, 13, 14)
      && states[13].accepted == [M] && states[15].sent == "" && states[15].buffer == "m" + [NUL]
  {
    hide IsRun, Apply;
    var b := "m" + [NUL];
    assert [] + [M] == [M] && [M] + [MARKER] == [M, MARKER] && "" + "m" + [NUL] == b;
    StartsAsRun();
    var states, steps := Connects([INITIAL], [], "", [], [], false);
    states, steps := Takes(states, steps, M, "", [], false, b);
    states, steps := Loses(states, steps, b, [M]);
    states, steps := Connects(states, steps, b, [M], [NO_ENDPOINT], true);
    states, steps := Takes(states, steps, MARKER, b, [M], true, b);
    RunLeads(states, steps, 14);
    assert Dequeued(states[14]) == 1 && Dequeued(states[15]) == 2;
    assert TakesMarker(states, steps, 13, 14);
  }

  lemma StartsAsRun()
    ensures IsRun([INITIAL], []) && INITIAL == LookingUp("", [], [], false)
  {
  }

  lemma RunLeads(states: seq<State>, steps: seq<Step>, n: nat)
    requires IsRun(states, steps) && n < |steps|
    ensures |states| == |steps| + 1 && Enabled(states[n], steps[n]) && Apply(states[n], steps[n]) == states[n + 1]
  {
  }

  /** A flush whose marker found no room is ready at once. The messages accepted
      before it are then written or in the buffer exactly if none but empty ones
      are still in the queue, and written exactly if the buffer is empty as well. */
  lemma RejectedFlushIff(states: seq<State>, steps: seq<Step>, m: nat)
    requires IsRun(states, steps) && m < |steps|
    requires steps[m].Enqueue? && steps[m].item.FlushMarker? && !steps[m].room
    ensures FlushReady(states, steps, m, m + 1)
    ensures Wire(states[m].accepted) <= states[m + 1].sent + states[m + 1].buffer
      <==> NonEmpty(Texts(states[m].queue)) == []
    ensures Wire(states[m].accepted) <= states[m + 1].sent
      <==> NonEmpty(Texts(states[m].queue)) == [] && states[m].buffer == ""
  {
    BytesConserved(states, steps, m);
    var s := states[m];
    assert Enabled(s, steps[m]) && states[m + 1] == Apply(s, steps[m]) == s;
    FrameLength(NonEmpty(Texts(s.queue)));
    assert |s.sent + s.buffer + Wire(s.queue)| == |s.sent + s.buffer| + |Wire(s.queue)|;
    if NonEmpty(Texts(s.queue)) == [] {
      assert Wire(s.queue) == "";
      assert s.sent + s.buffer + "" == s.sent + s.buffer;
    }
  }

  lemma FrameLength(messages: seq<string>)
    ensures |Frame(messages)| >= |messages|
  {
  }

  /** A flush that reports success while the only message is still queued. */
  lemma RejectedFlushDeliversNothing()
    ensures var steps := [Enqueue(Message("m"), true), Enqueue(FlushMarker(0), false)];
      exists states: seq<State> :: IsRun(states, steps) && FlushReady(states, steps, 1, 2)
        && states[2].queue == [Message("m")] && states[2].sent + states[2].buffer == ""
  {
    var steps := [Enqueue(Message("m"), true), Enqueue(FlushMarker(0), false)];
    var s1 := Apply(INITIAL, steps[0]);
    var states := [INITIAL, s1, s1];
    assert IsRun(states, steps);
    assert s1.queue == [Message("m")];
  }

  // ---- Endpoints -----------------------------------------------------------

  /** When the last attempt has failed, connecting is given up, and the next
      lookup is put off for the long delay. By then every endpoint that the
      lookup found has been tried once, IPv4 before IPv6; or, if it found none,
      the default one. */
  lemma GivesUpAfterAll(states: seq<State>, steps: seq<Step>, n: nat)
    requires IsRun(states, steps) && n < |steps| && steps[n].Run?
    requires var h := states[n].ready[0]; h.Connected? && !h.ok && h.endpoints.IsDone()
    ensures var s, s' := states[n], states[n + 1];
      && s'.status == ADDR_RETRY_WAIT && !s'.open && s'.pending == [Waiting(LONG)] && s'.ready == []
      && if s.found == [] then s.tried == [NO_ENDPOINT] else IsSorting(s.tried, s.found)
  {
    ReachableInvariant(states, steps, n);
    var s := states[n];
    var q := s.ready[0].endpoints;
    FirstHandler(s);
    assert HandlerOk(s, s.ready[0]);
    assert q.list[..|q.list|] == q.list;
    assert |multiset(q.list)| == |multiset(s.found)|;
    var s1 := s.(ready := s.ready[1..]);
    CloseCases(s1, steps[n].choice.aborted);
    ReConnectCases(Close(s1, steps[n].choice.aborted), LONG);
  }

  /** A lost connection is closed at once, and looked up again after the short
      delay; nothing is left of it but a last link of the sending chain. */
  lemma LossWaitsBriefly(states: seq<State>, steps: seq<Step>, n: nat)
    requires IsRun(states, steps) && n < |steps| && steps[n].Run? && states[n].ready[0] == Received(false)
    ensures var s' := states[n + 1];
      && s'.status == ADDR_RETRY_WAIT && !s'.open && s'.pending == [Waiting(SHORT)]
      && (s'.ready == [] || (|s'.ready| == 1 && (s'.ready[0].Written? || s'.ready[0].Posted?)))
  {
    ReachableInvariant(states, steps, n);
    var s := states[n];
    FirstHandler(s);
    var s1 := s.(ready := s.ready[1..]);
    CloseCases(s1, steps[n].choice.aborted);
    ReConnectCases(Close(s1, steps[n].choice.aborted), SHORT);
  }

  /** A lookup that failed is repeated after the long delay. */
  lemma FailedLookupWaits(states: seq<State>, steps: seq<Step>, n: nat)
    requires IsRun(states, steps) && n < |steps| && steps[n].Run? && states[n].ready[0] == Resolved(None)
    ensures var s' := states[n + 1];
      s'.status == ADDR_RETRY_WAIT && !s'.open && s'.pending == [Waiting(LONG)] && s'.ready == []
  {
    ReachableInvariant(states, steps, n);
    FirstHandler(states[n]);
    ReConnectCases(states[n].(ready := states[n].ready[1..], status := ADDR_RETRY_WAIT), LONG);
  }

  /** Otherwise a failed attempt is followed by the next endpoint in that order,
      and one fewer remains. */
  lemma NextEndpointIsTried(states: seq<State>, steps: seq<Step>, n: nat)
    requires IsRun(states, steps) && n < |steps| && steps[n].Run?
    requires var h := states[n].ready[0]; h.Connected? && !h.ok && !h.endpoints.IsDone()
    ensures var s, s', q := states[n], states[n + 1], states[n].ready[0].endpoints;
      && s'.status == CONNECT
      && q.next == |s.tried| && s'.tried == s.tried + [q.list[q.next]]
      && (s'.pending == [Connecting(q.Advanced())] || s'.ready == [Connected(false, q.Advanced())])
      && |q.list| - q.Advanced().next == |q.list| - q.next - 1 >= 0
  {
    ReachableInvariant(states, steps, n);
    var s := states[n];
    FirstHandler(s);
    assert HandlerOk(s, s.ready[0]);
    CloseCases(s.(ready := s.ready[1..]), steps[n].choice.aborted);
  }
}
