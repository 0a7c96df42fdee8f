// The stream of NUL-terminated messages: what the connection writes and what
// the test server reads back.
module Framing {

  const NUL: char := '\0'

  predicate NulFree(m: string) {
    NUL !in m
  }

  /** Every message, each followed by a NUL. */
  function Frame(messages: seq<string>): string {
    if messages == [] then "" else messages[0] + [NUL] + Frame(messages[1..])
  }

  /** The messages that are not empty; the connection sends no others. */
  function NonEmpty(messages: seq<string>): seq<string> {
    if messages == [] then []
    else (if messages[0] == "" then [] else [messages[0]]) + NonEmpty(messages[1..])
  }

  /** The state of a reader: complete messages, and the beginning of the next. */
  datatype Decoded = Decoded(messages: seq<string>, partial: string)

  const NOTHING_READ := Decoded([], "")

  function ReadByte(d: Decoded, c: char): Decoded {
    if c == NUL then Decoded(d.messages + [d.partial], "") else Decoded(d.messages, d.partial + [c])
  }

  function Feed(d: Decoded, bytes: string): Decoded
    decreases |bytes|
  {
    if bytes == "" then d else Feed(ReadByte(d, bytes[0]), bytes[1..])
  }

  function FeedChunks(d: Decoded, chunks: seq<string>): Decoded
    decreases |chunks|
  {
    if chunks == [] then d else FeedChunks(Feed(d, chunks[0]), chunks[1..])
  }

  function Concat(chunks: seq<string>): string {
    if chunks == [] then "" else chunks[0] + Concat(chunks[1..])
  }

  // ---- Chunk boundaries do not matter --------------------------------------

  lemma {:induction false} FeedConcat(d: Decoded, a: string, b: string)
    ensures Feed(d, a + b) == Feed(Feed(d, a), b)
    decreases |a|
  {
    if a == "" {
      assert a + b == b;
    } else {
      assert (a + b)[1..] == a[1..] + b;
      FeedConcat(ReadByte(d, a[0]), a[1..], b);
    }
  }

  lemma {:induction false} ChunksDoNotMatter(d: Decoded, chunks: seq<string>)
    ensures FeedChunks(d, chunks) == Feed(d, Concat(chunks))
    decreases |chunks|
  {
    if chunks == [] {
    } else {
      FeedConcat(d, chunks[0], Concat(chunks[1..]));
      ChunksDoNotMatter(Feed(d, chunks[0]), chunks[1..]);
    }
  }

  // ---- Round trips ---------------------------------------------------------

  lemma {:induction false} FeedPlain(d: Decoded, m: string)
    requires NulFree(m)
    ensures Feed(d, m) == Decoded(d.messages, d.partial + m)
    decreases |m|
  {
    if m == "" {
      assert d.partial + m == d.partial;
    } else {
      FeedPlain(ReadByte(d, m[0]), m[1..]);
      assert d.partial + [m[0]] + m[1..] == d.partial + m;
    }
  }

  lemma {:induction false} FeedFrames(done: seq<string>, messages: seq<string>)
    requires forall m :: m in messages ==> NulFree(m)
    ensures Feed(Decoded(done, ""), Frame(messages)) == Decoded(done + messages, "")
    decreases |messages|
  {
    if messages == [] {
      assert done + messages == done;
    } else {
      var m := messages[0];
      FeedConcat(Decoded(done, ""), m + [NUL], Frame(messages[1..]));
      FeedConcat(Decoded(done, ""), m, [NUL]);
      FeedPlain(Decoded(done, ""), m);
      assert "" + m == m;
      assert Feed(Decoded(done, m), [NUL]) == Decoded(done + [m], "");
      FeedFrames(done + [m], messages[1..]);
      assert done + [m] + messages[1..] == done + messages;
    }
  }

  /** Decoding what was framed, cut anywhere, yields the messages again. */
  lemma RoundTrip(messages: seq<string>, chunks: seq<string>)
    requires forall m :: m in messages ==> NulFree(m)
    requires Concat(chunks) == Frame(messages)
    ensures FeedChunks(NOTHING_READ, chunks) == Decoded(messages, "")
  {
    ChunksDoNotMatter(NOTHING_READ, chunks);
    FeedFrames([], messages);
    assert [] + messages == messages;
  }

  lemma {:induction false} FrameConcat(a: seq<string>, b: seq<string>)
    ensures Frame(a + b) == Frame(a) + Frame(b)
  {
    if a == [] {
      assert a + b == b;
    } else {
      assert (a + b)[1..] == a[1..] + b;
      FrameConcat(a[1..], b);
    }
  }

  lemma {:induction false} NonEmptyConcat(a: seq<string>, b: seq<string>)
    ensures NonEmpty(a + b) == NonEmpty(a) + NonEmpty(b)
  {
    if a == [] {
      assert a + b == b;
    } else {
      assert (a + b)[1..] == a[1..] + b;
      NonEmptyConcat(a[1..], b);
    }
  }

  /** Any stream at all is the framing of what was decoded from it, followed by
      the part of a message still incomplete. */
  lemma {:induction false} DecodedFramesBack(d: Decoded, bytes: string)
    ensures var e := Feed(d, bytes);
      Frame(e.messages) + e.partial == Frame(d.messages) + d.partial + bytes
    ensures NulFree(d.partial) ==> NulFree(Feed(d, bytes).partial)
    ensures d.messages <= Feed(d, bytes).messages
    decreases |bytes|
  {
    if bytes == "" {
      assert Frame(d.messages) + d.partial + bytes == Frame(d.messages) + d.partial;
    } else {
      var d' := ReadByte(d, bytes[0]);
      DecodedFramesBack(d', bytes[1..]);
      ReadByteFramesBack(d, bytes[0]);
      assert Frame(d.messages) + d.partial + [bytes[0]] + bytes[1..] == Frame(d.messages) + d.partial + bytes;
    }
  }

  lemma ReadByteFramesBack(d: Decoded, c: char)
    ensures var e := ReadByte(d, c);
      Frame(e.messages) + e.partial == Frame(d.messages) + d.partial + [c]
  {
    if c == NUL {
      FrameConcat(d.messages, [d.partial]);
      assert Frame([d.partial]) == d.partial + [NUL] + "";
    }
  }

  /** Any part of the stream from its beginning on yields the first messages and
      a beginning of the message after them. */
  lemma PrefixYieldsPrefix(messages: seq<string>, bytes: string)
    requires forall m :: m in messages ==> NulFree(m)
    requires bytes <= Frame(messages)
    ensures var e := Feed(NOTHING_READ, bytes);
      && e.messages <= messages
      && (if |e.messages| == |messages| then e.partial == "" else e.partial <= messages[|e.messages|])
      && bytes == Frame(e.messages) + e.partial
  {
    var rest := Frame(messages)[|bytes|..];
    assert bytes + rest == Frame(messages);
    var e := Feed(NOTHING_READ, bytes);
    FeedConcat(NOTHING_READ, bytes, rest);
    FeedFrames([], messages);
    assert [] + messages == messages;
    DecodedFramesBack(NOTHING_READ, bytes);
    DecodedFramesBack(e, rest);
    PartialOfNext(e, rest, messages);
  }

  /** What has been read of a message is a beginning of the next one completed. */
  lemma {:induction false} PartialOfNext(d: Decoded, bytes: string, messages: seq<string>)
    requires Feed(d, bytes) == Decoded(messages, "")
    ensures d.messages <= messages
    ensures if |d.messages| == |messages| then d.partial == "" else d.partial <= messages[|d.messages|]
    decreases |bytes|
  {
    if bytes == "" {
    } else {
      PartialOfNext(ReadByte(d, bytes[0]), bytes[1..], messages);
    }
  }
}
