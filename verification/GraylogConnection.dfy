// src/GraylogConnection.cpp and .hpp: the connection with its fields and
// handlers. Each method does what the step machine says.
module GraylogConnection {
  import opened Wrappers
  import opened Framing
  import opened ConnectionModel
  import opened ConnectionInvariant

  class Connection {
    var connectionState: Status
    var messageBuffer: string
    var logMessages: seq<Item>
    // the asio service: the socket, the operations started and the handlers due
    var socketOpen: bool
    var operations: seq<Op>
    var handlers: seq<Handler>
    // history
    ghost var accepted: seq<Item>
    ghost var sent: string
    ghost var found: seq<Endpoint>
    ghost var tried: seq<Endpoint>
    ghost var writeFailed: bool

    ghost function View(): State
      reads this
    {
      State(connectionState, socketOpen, operations, handlers, messageBuffer, logMessages,
            accepted, sent, found, tried, writeFailed)
    }

    constructor ()
      ensures View() == INITIAL && Inv(View())
    {
      connectionState, socketOpen, messageBuffer := ADDR_LOOKUP, false, "";
      operations, handlers, logMessages := [], [], [];
      accepted, sent, found, tried, writeFailed := [], "", [], [], false;
      new;
      DoAddressQuery();
      InitialInvariant();
    }

    // ---- asio --------------------------------------------------------------

    method CloseSocket(aborted: nat)
      modifies this`socketOpen, this`operations, this`handlers
      ensures View() == Close(old(View()), aborted)
    {
      socketOpen := false;
      handlers := handlers + Aborted(operations, aborted);
      operations := WithoutSocketOps(operations);
    }

    method AsyncReceive()
      modifies this`operations, this`handlers
      ensures View() == StartReceive(old(View()))
    {
      if socketOpen {
        operations := operations + [Receiving];
      } else {
        handlers := handlers + [Received(false)];
      }
    }

    method AsyncWrite()
      modifies this`operations, this`handlers
      ensures View() == StartWrite(old(View()))
    {
      if socketOpen {
        operations := operations + [Writing(messageBuffer)];
      } else {
        handlers := handlers + [Written(false, 0, messageBuffer)];
      }
    }

    /** Connecting opens the socket first, which may fail. */
    method AsyncConnect(endpoint: Endpoint, captured: QueryResult, opens: bool)
      modifies this`operations, this`handlers, this`socketOpen, this`tried
      ensures View() == var s := old(View());
        if opens then s.(open := true, pending := s.pending + [Connecting(captured)], tried := s.tried + [endpoint])
        else s.(ready := s.ready + [Connected(false, captured)], tried := s.tried + [endpoint])
    {
      tried := tried + [endpoint];
      if opens {
        socketOpen := true;
        operations := operations + [Connecting(captured)];
      } else {
        handlers := handlers + [Connected(false, captured)];
      }
    }

    // ---- Connecting --------------------------------------------------------

    method TryToConnect(allEndpoints: QueryResult, opens: bool)
      modifies this
      ensures View() == TryConnect(old(View()), allEndpoints, opens)
    {
      var current := allEndpoints.NextEndpoint();
      AsyncConnect(current, allEndpoints.Advanced(), opens);
      connectionState := CONNECT;
    }

    method HandleResolve(list: Option<seq<Endpoint>>, order: seq<Endpoint>, opens: bool)
      requires list.Some? ==> IsSorting(order, list.value)
      modifies this
      ensures View() == ResolverHandler(old(View()), list, order, opens)
    {
      if list.None? {
        connectionState := ADDR_RETRY_WAIT;
        Reconnect(LONG);
        return;
      }
      found, tried := list.value, [];
      TryToConnect(QueryResult(order, 0), opens);
    }

    method HandleConnect(ok: bool, allEndpoints: QueryResult, c: Choice)
      modifies this
      ensures View() == ConnectHandler(old(View()), ok, allEndpoints, c)
    {
      if ok {
        connectionState := SEND_LOOP;
        AsyncReceive();
        TrySend(c.delivers);
        writeFailed := false;
        return;
      }
      CloseSocket(c.aborted);
      if allEndpoints.IsDone() {
        Reconnect(LONG);
        return;
      }
      TryToConnect(allEndpoints, c.opens);
    }

    method Reconnect(delay: Delay)
      modifies this`operations, this`handlers, this`connectionState
      ensures View() == ReConnect(old(View()), delay)
    {
      handlers := handlers + Cancelled(operations);
      operations := WithoutWaits(operations) + [Waiting(delay)];
      connectionState := ADDR_RETRY_WAIT;
    }

    method DoAddressQuery()
      modifies this`operations, this`connectionState
      ensures View() == ConnectionModel.DoAddressQuery(old(View()))
    {
      connectionState := ADDR_LOOKUP;
      operations := operations + [Resolving];
    }

    // ---- Receiving and sending ---------------------------------------------

    method HandleReceive(ok: bool, aborted: nat)
      modifies this
      ensures View() == ReceiveHandler(old(View()), ok, aborted)
    {
      if !ok {
        CloseSocket(aborted);
        Reconnect(SHORT);
        return;
      }
      AsyncReceive();
    }

    method TrySend(delivers: bool)
      modifies this`messageBuffer, this`logMessages, this`operations, this`handlers
      ensures View() == TrySendMessage(old(View()), delivers)
    {
      if !socketOpen {
        return;
      }
      if |messageBuffer| > MESSAGE_ADDITION_LIMIT {
        AsyncWrite();
        return;
      }
      if delivers && logMessages != [] {
        var newMessage := logMessages[0].Text();
        logMessages := logMessages[1..];
        if newMessage == "" {
          if messageBuffer != "" {
            AsyncWrite();
          } else {
            handlers := handlers + [Posted];
          }
          return;
        }
        messageBuffer := messageBuffer + newMessage + [NUL];
        AsyncWrite();
      } else if messageBuffer != "" {
        AsyncWrite();
      } else {
        handlers := handlers + [Posted];
      }
    }

    method HandleWrite(ok: bool, bytesSent: nat, ghost data: string, c: Choice)
      requires bytesSent <= |data| && data == messageBuffer
      modifies this
      ensures View() == SentMessageHandler(old(View()), ok, bytesSent, data, c)
    {
      sent := sent + data[..bytesSent];
      if bytesSent == |messageBuffer| {
        messageBuffer := "";
      } else if bytesSent > 0 {
        messageBuffer := messageBuffer[bytesSent..];
      }
      if !ok {
        CloseSocket(c.aborted);
        writeFailed := messageBuffer != "";
        return;
      }
      TrySend(c.delivers);
    }

    // ---- What happens from outside -----------------------------------------

    /** sendMessage and flush: the queue may have no room. */
    method Enqueue(item: Item, room: bool)
      requires Inv(View())
      modifies this`logMessages, this`accepted
      ensures View() == Apply(old(View()), Step.Enqueue(item, room)) && Inv(View())
    {
      StepKeepsInvariant(View(), Step.Enqueue(item, room));
      if room {
        logMessages := logMessages + [item];
        accepted := accepted + [item];
      }
    }

    /** An operation is over. */
    method Complete(step: Step)
      requires Inv(View()) && step.Complete? && Enabled(View(), step)
      modifies this`operations, this`handlers
      ensures View() == Apply(old(View()), step) && Inv(View())
    {
      StepKeepsInvariant(View(), step);
      var i := step.index;
      handlers := handlers + [HandlerFor(operations[i], step.ok, step.count, step.list)];
      operations := operations[..i] + operations[i + 1..];
    }

    /** The service runs the handler that is due. */
    method RunOne(c: Choice)
      requires Inv(View()) && Enabled(View(), Run(c))
      modifies this
      ensures View() == Apply(old(View()), Run(c)) && Inv(View())
    {
      StepKeepsInvariant(View(), Run(c));
      assert HandlerOk(View(), handlers[0]);
      hide Inv, IsSorting;
      var h := handlers[0];
      handlers := handlers[1..];
      match h
      case Resolved(list) => HandleResolve(list, c.order, c.opens);
      case Connected(ok, q) => HandleConnect(ok, q, c);
      case Received(ok) => HandleReceive(ok, c.aborted);
      case Written(ok, count, data) => HandleWrite(ok, count, data, c);
      case TimedOut => DoAddressQuery();
      case Posted => TrySend(c.delivers);
    }
  }
}
