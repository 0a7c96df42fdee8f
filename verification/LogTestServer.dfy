// unit_tests/LogTestServer.cpp: the reader at the other end of the connection.
module TestServer {
  import opened Framing

  /** s without the first occurrence of x. */
  function WithoutFirst(s: seq<nat>, x: nat): seq<nat> {
    if s == [] then []
    else if s[0] == x then s[1..]
    else [s[0]] + WithoutFirst(s[1..], x)
  }

  lemma {:induction false} WithoutFirstFrom(s: seq<nat>, x: nat, i: nat)
    requires i <= |s| && x !in s[..i]
    ensures WithoutFirst(s, x) == s[..i] + WithoutFirst(s[i..], x)
  {
    if i == 0 {
      assert s[0..] == s;
    } else {
      assert s[..i][0] == s[0] && s[1..][..i - 1] == s[..i][1..] && s[1..][i - 1..] == s[i..];
      WithoutFirstFrom(s[1..], x, i - 1);
    }
  }

  /** Sockets are numbered. */
  class LogTestServer {
    var receivedBytes: nat
    var nrOfMessagesReceived: nat
    var connections: int
    var socketError: bool
    var currentMessage: string
    var previousMessage: string
    var existingSockets: seq<nat>
    // the asio service: how many accepts are outstanding, and the sockets read from
    var accepting: nat
    var reading: seq<nat>
    /** All the messages completed so far; the server itself keeps the last. */
    ghost var messages: seq<string>

    constructor ()
      ensures Reader() == NOTHING_READ && Valid() && receivedBytes == 0 && connections == 0 && accepting == 1
    {
      receivedBytes, nrOfMessagesReceived, connections, socketError := 0, 0, 0, false;
      currentMessage, previousMessage, messages := "", "", [];
      existingSockets, reading, accepting := [], [], 0;
      new;
      WaitForNewConnection();
    }

    /** The server either waits for a connection or reads from one, so that the
        bytes of two connections never mix. */
    ghost predicate Valid()
      reads this
    {
      && nrOfMessagesReceived == |messages|
      && connections == |reading|
      && accepting + |reading| <= 1
      && (existingSockets == [] || existingSockets == reading)
    }

    ghost function Reader(): Decoded
      reads this
    {
      Decoded(messages, currentMessage)
    }

    /** The latest message, which is handed out once. */
    method GetLatestMessage() returns (message: string)
      modifies this`previousMessage
      ensures message == old(previousMessage) && previousMessage == ""
    {
      message := previousMessage;
      previousMessage := "";
    }

    method WaitForNewConnection()
      modifies this`accepting
      ensures accepting == old(accepting) + 1
    {
      accepting := accepting + 1;
    }

    /** Lines 62-77, when an outstanding accept is over. After an error nothing
        more is accepted. */
    method OnConnectionAccept(error: bool, socket: nat)
      requires Valid() && accepting > 0
      modifies this`socketError, this`existingSockets, this`connections, this`reading, this`accepting
      ensures Valid() && socketError == error && accepting == 0
      ensures reading == if error then [] else [socket]
    {
      accepting := accepting - 1;
      socketError := error;
      if error {
        return;
      }
      existingSockets := existingSockets + [socket];
      connections := connections + 1;
      reading := reading + [socket];
    }

    method RemoveSocket(socket: nat)
      modifies this`existingSockets
      ensures existingSockets == WithoutFirst(old(existingSockets), socket)
    {
      for i := 0 to |existingSockets|
        invariant existingSockets == old(existingSockets)
        invariant socket !in existingSockets[..i]
      {
        WithoutFirstFrom(existingSockets, socket, i);
        if existingSockets[i] == socket {
          existingSockets := existingSockets[..i] + existingSockets[i + 1..];
          return;
        }
      }
      WithoutFirstFrom(existingSockets, socket, |existingSockets|);
    }

    /** Closing the sockets ends their reads with an error. */
    method CloseFunction()
      requires Valid()
      modifies this`existingSockets
      ensures Valid() && existingSockets == []
    {
      existingSockets := [];
    }

    /** Lines 79-107. An error ends the connection and leaves the message half
        read as it is, so that the next connection continues it. */
    method HandleRead(error: bool, receiveBuffer: array<char>, bytesReceived: nat, socket: nat)
      requires Valid() && bytesReceived <= receiveBuffer.Length && socket in reading
      modifies this
      ensures Valid() && socketError == error
      ensures error ==>
        && Reader() == old(Reader()) && previousMessage == old(previousMessage)
        && receivedBytes == old(receivedBytes)
        && existingSockets == [] && reading == [] && accepting == 1
      ensures !error ==>
        && Reader() == Feed(old(Reader()), receiveBuffer[..bytesReceived])
        && receivedBytes == old(receivedBytes) + bytesReceived
        && existingSockets == old(existingSockets) && reading == [socket] && accepting == 0
        && |messages| >= old(|messages|)
        && previousMessage == if |messages| == old(|messages|) then old(previousMessage) else messages[|messages| - 1]
    {
      assert reading == [socket];
      reading := [];
      socketError := error;
      if error {
        RemoveSocket(socket);
        connections := connections - 1;
        WaitForNewConnection();
        return;
      }
      ReadBytes(receiveBuffer, bytesReceived);
      reading := reading + [socket];
    }

    /** Lines 93-102. */
    method ReadBytes(receiveBuffer: array<char>, bytesReceived: nat)
      requires bytesReceived <= receiveBuffer.Length && nrOfMessagesReceived == |messages|
      modifies this`receivedBytes, this`previousMessage, this`currentMessage, this`nrOfMessagesReceived, this`messages
      ensures nrOfMessagesReceived == |messages| && receivedBytes == old(receivedBytes) + bytesReceived
      ensures Reader() == Feed(old(Reader()), receiveBuffer[..bytesReceived])
      ensures |messages| >= old(|messages|)
      ensures previousMessage
        == if |messages| == old(|messages|) then old(previousMessage) else messages[|messages| - 1]
    {
      receivedBytes := receivedBytes + bytesReceived;
      ghost var all := Feed(Reader(), receiveBuffer[..bytesReceived]);
      for j := 0 to bytesReceived
        invariant nrOfMessagesReceived == |messages| && receivedBytes == old(receivedBytes) + bytesReceived
        invariant Feed(Reader(), receiveBuffer[j..bytesReceived]) == all
        invariant |messages| >= old(|messages|)
        invariant previousMessage
          == if |messages| == old(|messages|) then old(previousMessage) else messages[|messages| - 1]
      {
        var c := receiveBuffer[j];
        assert receiveBuffer[j..bytesReceived][0] == c;
        assert receiveBuffer[j..bytesReceived][1..] == receiveBuffer[j + 1..bytesReceived];
        if c == '\0' {
          previousMessage := currentMessage;
          messages := messages + [currentMessage];
          currentMessage := "";
          nrOfMessagesReceived := nrOfMessagesReceived + 1;
        } else {
          currentMessage := currentMessage + [c];
        }
      }
      assert receiveBuffer[bytesReceived..bytesReceived] == "";
    }
  }
}
