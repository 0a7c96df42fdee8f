// What each step of the connection does, in every run.
module ConnectionEffects {
  import opened Wrappers
  import opened Framing
  import opened ConnectionModel
  import opened ConnectionInvariant

  /** Step n runs the handler h. */
  ghost predicate Runs(states: seq<State>, steps: seq<Step>, n: nat, h: Handler)
    requires IsRun(states, steps) && n < |steps|
  {
    steps[n].Run? && states[n].ready != [] && states[n].ready[0] == h
  }

  lemma AtRun(states: seq<State>, steps: seq<Step>, n: nat, h: Handler)
    requires IsRun(states, steps) && n < |steps| && Runs(states, steps, n, h)
    ensures var s := states[n];
      && Inv(s) && HandlerOk(s, h) && Enabled(s, steps[n])
      && states[n + 1] == RunHandler(s.(ready := s.ready[1..]), h, steps[n].choice)
  {
    ReachableInvariant(states, steps, n);
    assert Enabled(states[n], steps[n]) && states[n + 1] == Apply(states[n], steps[n]);
  }

  // ---- Sending ---------------------------------------------------------------

  /** An attempt to send, with the bytes b left and the items q queued. With at
      most 3000 bytes left, the first item is taken if it comes in time, and what
      it stands for goes behind them. What there is then is written; if there is
      nothing, the attempt is made again. */
  ghost predicate Attempted(b: string, q: seq<Item>, delivers: bool, s': State) {
    var taken := if |b| <= 3000 && delivers && q != [] then 1 else 0;
    && s'.queue == q[taken..]
    && s'.buffer == b + Wire(q[..taken])
    && (s'.buffer != "" ==> Writing(s'.buffer) in s'.pending && Posted !in s'.ready)
    && (s'.buffer == "" ==> !IsWriting(s'.pending) && Posted in s'.ready)
  }

  lemma WireOfOne(item: Item)
    ensures Wire([item]) == if item.Text() == "" then "" else item.Text() + "\0"
    ensures Wire([]) == ""
  {
    assert Texts([]) == [];
    WireAppend([], item);
    assert [] + [item] == [item];
  }

  /** On an open socket an attempt changes queue and buffer, and starts one link
      of the chain of sending. */
  lemma AttemptOpen(s: State, delivers: bool)
    requires s.open && !IsWriting(s.pending) && Posted !in s.ready
    ensures var s' := TrySendMessage(s, delivers);
      && Attempted(s.buffer, s.queue, delivers, s')
      && s.pending <= s'.pending && s.ready <= s'.ready
      && s' == s.(queue := s'.queue, buffer := s'.buffer, pending := s'.pending, ready := s'.ready)
  {
    var s' := TrySendMessage(s, delivers);
    assert s.queue[0..] == s.queue && s.queue[..0] == [];
    if s.queue != [] {
      WireOfOne(s.queue[0]);
      assert s.queue[..1] == [s.queue[0]];
    }
    assert Wire([]) == "" by { assert Texts([]) == []; }
    assert s.buffer + "" == s.buffer;
    assert forall t: string :: s.buffer + t + "\0" == s.buffer + (t + "\0");
    if s'.buffer == "" {
      assert s'.ready[|s.ready|] == Posted;
    } else {
      assert s'.pending[|s.pending|] == Writing(s'.buffer);
    }
  }

  /** Beside a link of the chain of sending that is due there is no other. */
  lemma ChainAlone(s: State)
    requires Inv(s) && s.ready != [] && (s.ready[0].Written? || s.ready[0].Posted?)
    ensures !IsWriting(s.pending) && Posted !in s.ready[1..]
  {
    FirstHandler(s);
  }

  /** A write that fails, with any number of bytes written before, ends the
      connection: the socket is closed, nothing is started on it, and the bytes not
      written stay for the next connection. The receiver hears of the loss. */
  lemma WriteFails(states: seq<State>, steps: seq<Step>, n: nat, count: nat, data: string)
    requires IsRun(states, steps) && n < |steps| && Runs(states, steps, n, Written(false, count, data))
    ensures count <= |data|
    ensures var s, s' := states[n], states[n + 1];
      && !s'.open && s'.status == s.status
      && (forall op :: op in s'.pending ==> op.Resolving? || op.Waiting?)
      && s'.sent == s.sent + data[..count] && s'.buffer == data[count..] && s'.queue == s.queue
      && s'.writeFailed == (count < |data|)
      && (s.open ==> s'.pending == [] && |s'.ready| == 1 && s'.ready[0].Received?)
      && (s.open && s.pending == [Receiving] ==> s'.ready == [Received(false)])
      && (!s.open ==> s'.pending == s.pending && s'.ready == s.ready[1..])
  {
    AtRun(states, steps, n, Written(false, count, data));
    var s := states[n];
    FirstHandler(s);
    CloseCases(s.(ready := s.ready[1..]), steps[n].choice.aborted);
    assert data[|data|..] == "" && data[0..] == data;
  }

  /** A write that succeeds has written the whole buffer. If the connection is up
      the next attempt follows; if it was lost meanwhile the chain ends here. */
  lemma WriteSucceeds(states: seq<State>, steps: seq<Step>, n: nat, count: nat, data: string)
    requires IsRun(states, steps) && n < |steps| && Runs(states, steps, n, Written(true, count, data))
    ensures var s, s' := states[n], states[n + 1];
      && data == s.buffer && s'.sent == s.sent + data
      && s'.open == s.open && s'.status == s.status
      && (s.open ==> Attempted("", s.queue, steps[n].choice.delivers, s')
                     && s.pending <= s'.pending && s.ready[1..] <= s'.ready)
      && (!s.open ==> s' == s.(ready := s.ready[1..], buffer := "", sent := s.sent + data))
  {
    hide Inv, Attempted;
    AtRun(states, steps, n, Written(true, count, data));
    var s := states[n];
    ChainAlone(s);
    assert data[..|data|] == data;
    if s.open {
      AttemptOpen(s.(ready := s.ready[1..], buffer := "", sent := s.sent + data), steps[n].choice.delivers);
    }
  }

  /** A posted attempt finds the buffer empty. */
  lemma PostedRuns(states: seq<State>, steps: seq<Step>, n: nat)
    requires IsRun(states, steps) && n < |steps| && Runs(states, steps, n, Posted)
    ensures var s, s' := states[n], states[n + 1];
      && s.buffer == "" && s'.sent == s.sent
      && s'.open == s.open && s'.status == s.status
      && (s.open ==> Attempted("", s.queue, steps[n].choice.delivers, s')
                     && s.pending <= s'.pending && s.ready[1..] <= s'.ready)
      && (!s.open ==> s' == s.(ready := s.ready[1..]))
  {
    hide Inv, Attempted;
    AtRun(states, steps, n, Posted);
    var s := states[n];
    ChainAlone(s);
    if s.open {
      AttemptOpen(s.(ready := s.ready[1..]), steps[n].choice.delivers);
    }
  }

  // ---- Connecting ------------------------------------------------------------

  /** Once connected, the receiver is started and the first attempt to send is
      made, with the bytes that the last connection left. */
  lemma Connects(states: seq<State>, steps: seq<Step>, n: nat, q: QueryResult)
    requires IsRun(states, steps) && n < |steps| && Runs(states, steps, n, Connected(true, q))
    ensures var s, s' := states[n], states[n + 1];
      && s'.status == SEND_LOOP && s'.open && Receiving in s'.pending && s'.sent == s.sent
      && Attempted(s.buffer, s.queue, steps[n].choice.delivers, s')
  {
    AtRun(states, steps, n, Connected(true, q));
    var s := states[n];
    FirstHandler(s);
    var s1 := StartReceive(s.(ready := s.ready[1..], status := SEND_LOOP));
    assert s1.pending == [Receiving] && s1.ready == [];
    AttemptOpen(s1, steps[n].choice.delivers);
    assert states[n + 1].pending[0] == Receiving;
  }

  /** Nothing is written, taken or lost. */
  predicate KeepsBytes(s: State, s': State) {
    s'.sent == s.sent && s'.buffer == s.buffer && s'.queue == s.queue && s'.accepted == s.accepted
  }

  /** The endpoint e is being tried, and those behind the first k are still to be. */
  predicate Tries(s: State, e: Endpoint, list: seq<Endpoint>, k: nat, opens: bool) {
    && s.status == CONNECT && s.tried != [] && s.tried[|s.tried| - 1] == e
    && s.open == opens
    && (if opens then s.pending == [Connecting(QueryResult(list, k))] && s.ready == []
        else s.pending == [] && s.ready == [Connected(false, QueryResult(list, k))])
  }

  /** Without another connection the lookup is repeated after a while. */
  predicate Waits(s: State, delay: Delay) {
    s.status == ADDR_RETRY_WAIT && !s.open && s.pending == [Waiting(delay)]
  }

  /** An attempt to connect that fails is followed by the next endpoint, or by a
      long wait if there is none. */
  lemma ConnectFails(states: seq<State>, steps: seq<Step>, n: nat, q: QueryResult)
    requires IsRun(states, steps) && n < |steps| && Runs(states, steps, n, Connected(false, q))
    ensures var s, s' := states[n], states[n + 1];
      && KeepsBytes(s, s')
      && (q.next < |q.list| ==>
            && s'.tried == s.tried + [q.list[q.next]]
            && Tries(s', q.list[q.next], q.list, q.next + 1, steps[n].choice.opens))
      && (q.next >= |q.list| ==> Waits(s', LONG) && s'.ready == [])
  {
    AtRun(states, steps, n, Connected(false, q));
    var s := states[n];
    FirstHandler(s);
    var s1 := Close(s.(ready := s.ready[1..]), steps[n].choice.aborted);
    CloseCases(s.(ready := s.ready[1..]), steps[n].choice.aborted);
    assert s1 == s.(ready := [], open := false);
    ReConnectCases(s1, LONG);
    assert [] + [Connected(false, q.Advanced())] == [Connected(false, q.Advanced())];
    assert [] + [Connecting(q.Advanced())] == [Connecting(q.Advanced())];
  }

  lemma FirstOfSorting(order: seq<Endpoint>, list: seq<Endpoint>)
    requires IsSorting(order, list)
    ensures order == [] <==> list == []
    ensures order != [] ==>
      && multiset([order[0]] + order[1..]) == multiset(list)
      && (order[0].v6 ==> forall x :: x in list ==> x.v6)
  {
    assert |order| == |multiset(order)| == |list|;
    if order != [] {
      assert [order[0]] + order[1..] == order;
      forall x | x in list && order[0].v6
        ensures x.v6
      {
        assert x in multiset(order);
      }
    }
  }

  lemma Dials(s: State, order: seq<Endpoint>, opens: bool)
    requires s.pending == [] && s.ready == [] && !s.open
    ensures var s' := TryConnect(s.(tried := []), QueryResult(order, 0), opens);
      && KeepsBytes(s, s') && s'.found == s.found
      && if order == [] then Tries(s', Endpoint(0, false), [], 0, opens)
         else s'.tried == [order[0]] && Tries(s', order[0], order, 1, opens)
  {
  }

  /** One of the endpoints found is being tried, an IPv4 one if there is any. */
  ghost predicate TriesFirst(s: State, found: seq<Endpoint>, opens: bool) {
    exists e, rest :: multiset([e] + rest) == multiset(found)
      && (e.v6 ==> forall x :: x in found ==> x.v6)
      && s.tried == [e] && s.found == found
      && Tries(s, e, [e] + rest, 1, opens)
  }

  /** What comes of a lookup: an attempt with one of the endpoints, an IPv4 one if
      there is any, or with the default one if there is none; or a long wait. */
  ghost predicate ResolvedTo(s': State, list: Option<seq<Endpoint>>, opens: bool) {
    match list
    case None => Waits(s', LONG) && s'.ready == []
    case Some(found) =>
      if found == [] then Tries(s', Endpoint(0, false), [], 0, opens) else TriesFirst(s', found, opens)
  }

  lemma ResolverHandles(s: State, list: Option<seq<Endpoint>>, order: seq<Endpoint>, opens: bool)
    requires s.pending == [] && s.ready == [] && !s.open && (list.Some? ==> IsSorting(order, list.value))
    ensures var s' := ResolverHandler(s, list, order, opens); KeepsBytes(s, s') && ResolvedTo(s', list, opens)
  {
    hide IsSorting, TryConnect;
    match list
    case None =>
      ReConnectCases(s.(status := ADDR_RETRY_WAIT), LONG);
    case Some(found) =>
      FirstOfSorting(order, found);
      Dials(s.(found := found), order, opens);
      if found != [] {
        assert [order[0]] + order[1..] == order;
      }
  }

  lemma Resolves(states: seq<State>, steps: seq<Step>, n: nat, list: Option<seq<Endpoint>>)
    requires IsRun(states, steps) && n < |steps| && Runs(states, steps, n, Resolved(list))
    ensures KeepsBytes(states[n], states[n + 1]) && ResolvedTo(states[n + 1], list, steps[n].choice.opens)
  {
    hide ResolverHandler, ResolvedTo, IsSorting;
    AtRun(states, steps, n, Resolved(list));
    FirstHandler(states[n]);
    var c := steps[n].choice;
    ResolverHandles(states[n].(ready := []), list, c.order, c.opens);
  }

  /** A connection that is lost is closed and looked up again after a short wait.
      A write under way is aborted: what it had written it has written, and its
      bytes stay in the buffer until its handler has run. */
  lemma LosesConnection(states: seq<State>, steps: seq<Step>, n: nat)
    requires IsRun(states, steps) && n < |steps| && Runs(states, steps, n, Received(false))
    ensures var s, s', aborted := states[n], states[n + 1], steps[n].choice.aborted;
      && KeepsBytes(s, s') && Waits(s', SHORT)
      && if s.pending == [] then s'.ready == s.ready[1..]
         else
           && s.pending == [Writing(s.buffer)]
           && s'.ready == [Written(false, if aborted < |s.buffer| then aborted else |s.buffer|, s.buffer)]
  {
    AtRun(states, steps, n, Received(false));
    var s := states[n];
    FirstHandler(s);
    var s1 := s.(ready := s.ready[1..]);
    CloseCases(s1, steps[n].choice.aborted);
    if |s.pending| == 1 {
      assert OpOk(s, s.pending[0]);
      assert s.pending == [s.pending[0]];
    }
    ReConnectCases(Close(s1, steps[n].choice.aborted), SHORT);
  }

  /** What is received is dropped, and the receiver started again. */
  lemma Receives(states: seq<State>, steps: seq<Step>, n: nat)
    requires IsRun(states, steps) && n < |steps| && Runs(states, steps, n, Received(true))
    ensures var s, s' := states[n], states[n + 1];
      s' == if s.open then s.(ready := s.ready[1..], pending := s.pending + [Receiving])
            else s.(ready := s.ready[1..] + [Received(false)])
  {
    AtRun(states, steps, n, Received(true));
  }

  /** After a wait the server is looked up. */
  lemma WaitEnds(states: seq<State>, steps: seq<Step>, n: nat)
    requires IsRun(states, steps) && n < |steps| && Runs(states, steps, n, TimedOut)
    ensures states[n + 1] == states[n].(status := ADDR_LOOKUP, pending := [Resolving], ready := [])
  {
    AtRun(states, steps, n, TimedOut);
    FirstHandler(states[n]);
    assert [] + [Resolving] == [Resolving];
  }

  // ---- Completions and calls -------------------------------------------------

  /** The handler that is told of the end of an operation. */
  predicate Tells(op: Op, h: Handler, ok: bool) {
    match h
    case Resolved(list) => op.Resolving? && list.Some? == ok
    case Connected(good, q) => op == Connecting(q) && good == ok
    case Received(good) => op.Receiving? && good == ok
    case Written(good, count, data) => op == Writing(data) && good == ok && count <= |data| && (ok ==> count == |data|)
    case TimedOut => op.Waiting?
    case Posted => false
  }

  /** An operation that ends makes its handler ready, and nothing else changes. */
  lemma Completes(states: seq<State>, steps: seq<Step>, n: nat)
    requires IsRun(states, steps) && n < |steps| && steps[n].Complete?
    ensures var s, s', i := states[n], states[n + 1], steps[n].index;
      && i < |s.pending|
      && s' == s.(pending := s.pending[..i] + s.pending[i + 1..], ready := s'.ready)
      && |s'.ready| == |s.ready| + 1 && s.ready <= s'.ready
      && Tells(s.pending[i], s'.ready[|s.ready|], steps[n].ok)
      && (s.pending[i].Resolving? && steps[n].ok ==> s'.ready[|s.ready|] == Resolved(Some(steps[n].list)))
  {
    assert Enabled(states[n], steps[n]) && states[n + 1] == Apply(states[n], steps[n]);
  }

  /** sendMessage and flush put their item behind those queued, if there is room. */
  lemma Enqueues(states: seq<State>, steps: seq<Step>, n: nat)
    requires IsRun(states, steps) && n < |steps| && steps[n].Enqueue?
    ensures var s, s', item := states[n], states[n + 1], steps[n].item;
      s' == if steps[n].room then s.(queue := s.queue + [item], accepted := s.accepted + [item]) else s
  {
    assert Enabled(states[n], steps[n]) && states[n + 1] == Apply(states[n], steps[n]);
  }
}
