/** How a stream of bytes is cut into messages: one byte at a time, as a value. */
module Framing {
  type byte = x: int | 0 <= x < 256

  const HEADER_SIZE := 24
  const MESSAGE_SIZE_OFFSET := 16
  const MAX_SIZE := 0x02000000

  /** A message as far as it has been received. */
  datatype Message = Message(header: seq<byte>, payload: seq<byte>) {
    function Bytes(): seq<byte> { header + payload }
  }

  function Le32(b: seq<byte>): nat
    requires |b| == 4
  {
    (b[0] as int) + 0x100 * (b[1] as int) + 0x10000 * (b[2] as int) + 0x1000000 * (b[3] as int)
  }

  function PayloadSize(header: seq<byte>): nat
    requires |header| == HEADER_SIZE
  {
    Le32(header[MESSAGE_SIZE_OFFSET..MESSAGE_SIZE_OFFSET + 4])
  }

  predicate Rejected(m: Message) { |m.header| == HEADER_SIZE && PayloadSize(m.header) > MAX_SIZE }

  predicate Complete(m: Message) {
    |m.header| == HEADER_SIZE && !Rejected(m) && |m.payload| == PayloadSize(m.header)
  }

  /** A message on its way: of the header and then of the payload, no more than there is. */
  predicate Proper(m: Message) {
    && m.header != [] && |m.header| <= HEADER_SIZE
    && (if |m.header| < HEADER_SIZE || Rejected(m) then m.payload == [] else |m.payload| <= PayloadSize(m.header))
  }

  /** All messages but the last are complete. */
  predicate Queue(ms: seq<Message>) {
    (forall i :: 0 <= i < |ms| ==> Proper(ms[i])) && forall i :: 0 <= i < |ms| - 1 ==> Complete(ms[i])
  }

  predicate Stopped(ms: seq<Message>) { ms != [] && Rejected(ms[|ms| - 1]) }

  function Extend(m: Message, b: byte): Message {
    if |m.header| < HEADER_SIZE then m.(header := m.header + [b]) else m.(payload := m.payload + [b])
  }

  /** One more byte; after a rejected header the rest is dropped. */
  function Step(ms: seq<Message>, b: byte): seq<Message> {
    var n := |ms|;
    if n == 0 || Complete(ms[n - 1]) then ms + [Message([b], [])]
    else if Rejected(ms[n - 1]) then ms
    else ms[n - 1 := Extend(ms[n - 1], b)]
  }

  function Feed(ms: seq<Message>, bytes: seq<byte>): seq<Message>
    decreases |bytes|
  {
    if bytes == [] then ms else Feed(Step(ms, bytes[0]), bytes[1..])
  }

  function Stream(ms: seq<Message>): seq<byte> {
    if ms == [] then [] else ms[0].Bytes() + Stream(ms[1..])
  }

  function Concat(chunks: seq<seq<byte>>): seq<byte> {
    if chunks == [] then [] else chunks[0] + Concat(chunks[1..])
  }

  function FeedChunks(ms: seq<Message>, chunks: seq<seq<byte>>): seq<Message>
    decreases |chunks|
  {
    if chunks == [] then ms else FeedChunks(Feed(ms, chunks[0]), chunks[1..])
  }

  // ---------- chunking does not matter ----------

  lemma {:induction false} FeedSplit(ms: seq<Message>, a: seq<byte>, b: seq<byte>)
    ensures Feed(ms, a + b) == Feed(Feed(ms, a), b)
    decreases |a|
  {
    if a == [] {
      assert a + b == b;
    } else {
      assert (a + b)[1..] == a[1..] + b;
      FeedSplit(Step(ms, a[0]), a[1..], b);
    }
  }

  /** Any split of the stream gives the same messages, complete or not, and the same verdict. */
  lemma {:induction false} ChunksDoNotMatter(ms: seq<Message>, chunks: seq<seq<byte>>)
    ensures FeedChunks(ms, chunks) == Feed(ms, Concat(chunks))
    decreases |chunks|
  {
    if chunks != [] {
      FeedSplit(ms, chunks[0], Concat(chunks[1..]));
      ChunksDoNotMatter(Feed(ms, chunks[0]), chunks[1..]);
    }
  }

  lemma {:induction false} StoppedStays(ms: seq<Message>, bytes: seq<byte>)
    requires Stopped(ms)
    ensures Feed(ms, bytes) == ms
    decreases |bytes|
  {
    if bytes != [] { StoppedStays(ms, bytes[1..]); }
  }

  // ---------- nothing is lost ----------

  lemma {:induction false} StreamSnoc(ms: seq<Message>, m: Message)
    ensures Stream(ms + [m]) == Stream(ms) + m.Bytes()
    decreases |ms|
  {
    if ms == [] {
      assert ms + [m] == [m] && [m][1..] == [];
      assert Stream([m]) == m.Bytes() + Stream([]);
    } else {
      assert (ms + [m])[1..] == ms[1..] + [m];
      StreamSnoc(ms[1..], m);
    }
  }

  lemma ExtendProper(m: Message, b: byte)
    requires Proper(m) && !Complete(m) && !Rejected(m)
    ensures Proper(Extend(m, b)) && Extend(m, b).Bytes() == m.Bytes() + [b]
  {
  }

  lemma ExtendQueue(before: seq<Message>, m: Message, m': Message)
    requires Queue(before + [m]) && Proper(m')
    ensures Queue(before + [m'])
  {
    var ms, ms' := before + [m], before + [m'];
    forall i | 0 <= i < |before| ensures ms'[i] == ms[i] {}
    hide Proper, Complete;
  }

  lemma StepQueue(ms: seq<Message>, b: byte)
    requires Queue(ms)
    ensures Queue(Step(ms, b))
    ensures Stream(Step(ms, b)) == if Stopped(ms) then Stream(ms) else Stream(ms) + [b]
  {
    hide Stream;
    var n := |ms|;
    if n == 0 || Complete(ms[n - 1]) {
      StreamSnoc(ms, Message([b], []));
    } else if !Rejected(ms[n - 1]) {
      var before, m := ms[..n - 1], ms[n - 1];
      assert ms == before + [m] && Step(ms, b) == before + [Extend(m, b)];
      StreamSnoc(before, m);
      StreamSnoc(before, Extend(m, b));
      ExtendProper(m, b);
      ExtendQueue(before, m, Extend(m, b));
    }
  }

  /** The headers and payloads in order are the bytes fed: all of them, unless a header was
      rejected, and then those up to the end of that header. */
  lemma {:induction false} FeedReproduces(ms: seq<Message>, bytes: seq<byte>)
    requires Queue(ms)
    ensures Queue(Feed(ms, bytes)) && Stream(Feed(ms, bytes)) <= Stream(ms) + bytes
    ensures !Stopped(Feed(ms, bytes)) ==> Stream(Feed(ms, bytes)) == Stream(ms) + bytes
    decreases |bytes|
  {
    hide Queue, Stream, Step, Stopped;
    if bytes == [] {
      assert Stream(ms) + bytes == Stream(ms);
    } else if Stopped(ms) {
      StoppedStays(ms, bytes);
    } else {
      StepQueue(ms, bytes[0]);
      FeedReproduces(Step(ms, bytes[0]), bytes[1..]);
      assert Stream(ms) + [bytes[0]] + bytes[1..] == Stream(ms) + bytes;
    }
  }

  // ---------- sending and receiving ----------

  /** Any number of bytes that still belong to the header of the last message go there. */
  lemma {:induction false} FillHeader(ms: seq<Message>, m: Message, bytes: seq<byte>)
    requires m.payload == [] && |m.header| + |bytes| <= HEADER_SIZE && (m.header != [] || bytes == [])
    ensures Feed(ms + [m], bytes) == ms + [Message(m.header + bytes, [])]
    decreases |bytes|
  {
    if bytes == [] {
      assert m.header + bytes == m.header;
    } else {
      var m' := Extend(m, bytes[0]);
      assert Step(ms + [m], bytes[0]) == ms + [m'];
      FillHeader(ms, m', bytes[1..]);
      assert m.header + bytes == m'.header + bytes[1..];
    }
  }

  /** ... and so for the payload. */
  lemma {:induction false} FillPayload(ms: seq<Message>, m: Message, bytes: seq<byte>)
    requires |m.header| == HEADER_SIZE && !Rejected(m) && |m.payload| + |bytes| <= PayloadSize(m.header)
    ensures Feed(ms + [m], bytes) == ms + [Message(m.header, m.payload + bytes)]
    decreases |bytes|
  {
    if bytes == [] {
      assert m.payload + bytes == m.payload;
    } else {
      var m' := Extend(m, bytes[0]);
      assert Step(ms + [m], bytes[0]) == ms + [m'];
      FillPayload(ms, m', bytes[1..]);
      assert m.payload + bytes == m'.payload + bytes[1..];
    }
  }

  lemma NewHeader(ms: seq<Message>, bytes: seq<byte>)
    requires (ms == [] || Complete(ms[|ms| - 1])) && 0 < |bytes| <= HEADER_SIZE
    ensures Feed(ms, bytes) == ms + [Message(bytes, [])]
  {
    FillHeader(ms, Message([bytes[0]], []), bytes[1..]);
    assert [bytes[0]] + bytes[1..] == bytes;
  }

  lemma OneMessage(ms: seq<Message>, m: Message)
    requires (ms == [] || Complete(ms[|ms| - 1])) && Complete(m)
    ensures Feed(ms, m.Bytes()) == ms + [m]
  {
    NewHeader(ms, m.header);
    FeedSplit(ms, m.header, m.payload);
    FillPayload(ms, Message(m.header, []), m.payload);
    assert [] + m.payload == m.payload;
  }

  lemma StreamCons(sent: seq<Message>)
    requires sent != []
    ensures Stream(sent) == sent[0].Bytes() + Stream(sent[1..])
  {
  }

  /** Complete messages sent one after the other are what is received, at any point of a
      stream where one message has ended. */
  lemma {:induction false} SentIsReceived(ms: seq<Message>, sent: seq<Message>)
    requires ms == [] || Complete(ms[|ms| - 1])
    requires forall i :: 0 <= i < |sent| ==> Complete(sent[i])
    ensures Feed(ms, Stream(sent)) == ms + sent
    decreases |sent|
  {
    if sent == [] {
      assert ms + sent == ms;
    } else {
      StreamCons(sent);
      hide Feed, Complete, Stream;
      OneMessage(ms, sent[0]);
      FeedSplit(ms, sent[0].Bytes(), Stream(sent[1..]));
      SentIsReceived(ms + [sent[0]], sent[1..]);
      assert ms + [sent[0]] + sent[1..] == ms + sent;
    }
  }

  /** Complete messages at the front can be taken off at any time without changing what is
      received behind them. */
  lemma {:induction false} TakingFrontCommutes(m: Message, ms: seq<Message>, bytes: seq<byte>)
    requires Complete(m)
    ensures Feed([m] + ms, bytes) == [m] + Feed(ms, bytes)
    decreases |bytes|
  {
    if bytes != [] {
      assert Step([m] + ms, bytes[0]) == [m] + Step(ms, bytes[0]);
      TakingFrontCommutes(m, Step(ms, bytes[0]), bytes[1..]);
    }
  }
}
