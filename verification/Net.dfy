/** The receiving side of a connection: buffers filled by blocks of bytes, any number at a
    time, against the byte by byte account of module Framing. */
module Net {
  import opened Basics
  import opened Framing

  const ALLOCATE_AHEAD := 256 * 1024

  datatype MessageHeader = MessageHeader(pchMessageStart: seq<byte>, pchCommand: seq<byte>, nMessageSize: nat,
                                         nChecksum: nat)

  function Le32Bytes(n: nat): (b: seq<byte>)
    ensures |b| == 4
  {
    [n % 0x100, n / 0x100 % 0x100, n / 0x10000 % 0x100, n / 0x1000000 % 0x100]
  }

  /** The header as the stream carries it. */
  function HeaderBytes(hdr: MessageHeader): seq<byte> {
    hdr.pchMessageStart + hdr.pchCommand + Le32Bytes(hdr.nMessageSize) + Le32Bytes(hdr.nChecksum)
  }

  function ReadHeader(b: seq<byte>): MessageHeader
    requires |b| == HEADER_SIZE
  {
    MessageHeader(b[..4], b[4..16], Le32(b[16..20]), Le32(b[20..24]))
  }

  lemma Le32BytesInverse(b: seq<byte>)
    requires |b| == 4
    ensures Le32Bytes(Le32(b)) == b
  {
    var n := Le32(b);
    assert n % 0x100 == b[0];
    assert n / 0x100 == (b[1] as int) + 0x100 * (b[2] as int) + 0x10000 * (b[3] as int);
    assert n / 0x10000 == (b[2] as int) + 0x100 * (b[3] as int);
    assert n / 0x1000000 == b[3];
  }

  /** Reading a header loses nothing. */
  lemma HeaderInverse(b: seq<byte>)
    requires |b| == HEADER_SIZE
    ensures HeaderBytes(ReadHeader(b)) == b && ReadHeader(b).nMessageSize == PayloadSize(b)
  {
    Le32BytesInverse(b[16..20]);
    Le32BytesInverse(b[20..24]);
    assert b == b[..4] + b[4..16] + b[16..20] + b[20..24];
  }

  class NetMessage {
    var in_data: bool
    var hdrbuf: seq<byte>
    var hdr: MessageHeader
    var nHdrPos: nat
    var vRecv: seq<byte>
    var nDataPos: nat

    /** Once the header is read, its buffer is empty; the data buffer is ahead of the data by
        a bounded amount. */
    ghost predicate Valid()
      reads this
    {
      && nHdrPos <= HEADER_SIZE
      && (nHdrPos < HEADER_SIZE ==> |hdrbuf| == HEADER_SIZE && !in_data)
      && (nHdrPos == HEADER_SIZE ==>
            && hdrbuf == [] && |HeaderBytes(hdr)| == HEADER_SIZE && PayloadSize(HeaderBytes(hdr)) == hdr.nMessageSize
            && (in_data <==> hdr.nMessageSize <= MAX_SIZE))
      && (if in_data then nDataPos <= |vRecv| <= Min(hdr.nMessageSize, nDataPos + ALLOCATE_AHEAD)
          else nDataPos == 0 && vRecv == [])
    }

    /** What has been received of the message. */
    ghost function View(): Message
      reads this
      requires Valid()
    {
      Message(if nHdrPos < HEADER_SIZE then hdrbuf[..nHdrPos] else HeaderBytes(hdr), vRecv[..nDataPos])
    }

    constructor ()
      ensures Valid() && View() == Message([], []) && !in_data
    {
      hdrbuf := seq(HEADER_SIZE, _ => 0);
      hdr := MessageHeader([], [], 0, 0);
      in_data, nHdrPos, vRecv, nDataPos := false, 0, [], 0;
    }

    predicate IsComplete()
      reads this
    {
      in_data && hdr.nMessageSize == nDataPos
    }

    lemma CompleteIs()
      requires Valid()
      ensures IsComplete() <==> Complete(View())
      ensures in_data ==>
                |View().header| == HEADER_SIZE && !Rejected(View()) && PayloadSize(View().header) == hdr.nMessageSize
      ensures !in_data ==> View().payload == [] && (nHdrPos == HEADER_SIZE <==> Rejected(View()))
    {
    }

    /** Takes what of the bytes belongs to the header; -1 if the header is no good, or if
        there already was one that is no good. */
    method ReadHeaderBytes(pch: seq<byte>) returns (handled: int)
      requires Valid() && !in_data && pch != []
      modifies this
      ensures Valid()
      ensures var n := Min(HEADER_SIZE - old(nHdrPos), |pch|);
              && View() == Message(old(View()).header + pch[..n], [])
              && (handled < 0 <==> Rejected(View()))
              && (handled >= 0 ==> handled == n > 0)
    {
      var nCopy := Min(HEADER_SIZE - nHdrPos, |pch|);
      ghost var header := View().header + pch[..nCopy];
      if hdrbuf == [] { return -1; }
      hdrbuf := hdrbuf[..nHdrPos] + pch[..nCopy] + hdrbuf[nHdrPos + nCopy..];
      nHdrPos := nHdrPos + nCopy;
      assert hdrbuf[..nHdrPos] == header;
      if nHdrPos < HEADER_SIZE { return nCopy; }
      hdr := ReadHeader(hdrbuf);
      HeaderInverse(hdrbuf);
      hdrbuf := [];
      if hdr.nMessageSize > MAX_SIZE { return -1; }
      in_data := true;
      handled := nCopy;
    }

    /** Takes what of the bytes belongs to the payload. */
    method ReadData(pch: seq<byte>) returns (handled: int)
      requires Valid() && in_data && !IsComplete() && pch != []
      modifies this
      ensures Valid() && in_data
      ensures handled == Min(PayloadSize(old(View()).header) - |old(View()).payload|, |pch|) > 0
      ensures View() == Message(old(View()).header, old(View()).payload + pch[..handled])
    {
      var nCopy := Min(hdr.nMessageSize - nDataPos, |pch|);
      ghost var payload := vRecv[..nDataPos];
      if |vRecv| < nDataPos + nCopy {
        var nSize := Min(hdr.nMessageSize, nDataPos + nCopy + ALLOCATE_AHEAD);
        vRecv := vRecv + seq(nSize - |vRecv|, _ => 0);
      }
      assert vRecv[..nDataPos] == payload;
      vRecv := vRecv[..nDataPos] + pch[..nCopy] + vRecv[nDataPos + nCopy..];
      nDataPos := nDataPos + nCopy;
      assert vRecv[..nDataPos] == payload + pch[..nCopy];
      handled := nCopy;
    }

    /** Header or payload, whichever is due. */
    method Take(pch: seq<byte>) returns (handled: int)
      requires Valid() && !IsComplete() && pch != [] && Proper(View())
      modifies this
      ensures Valid() && Takes(old(View()), View(), pch, handled)
    {
      CompleteIs();
      if !in_data {
        handled := ReadHeaderBytes(pch);
      } else {
        handled := ReadData(pch);
      }
    }
  }

  ghost predicate AllValid(s: seq<NetMessage>)
    reads s
  {
    forall i :: 0 <= i < |s| ==> s[i].Valid()
  }

  ghost function Views(s: seq<NetMessage>): (r: seq<Message>)
    requires AllValid(s)
    reads s
    ensures |r| == |s|
  {
    if s == [] then [] else Views(s[..|s| - 1]) + [s[|s| - 1].View()]
  }

  lemma ViewsSnoc(s: seq<NetMessage>, m: NetMessage)
    requires AllValid(s) && m.Valid()
    ensures AllValid(s + [m]) && Views(s + [m]) == Views(s) + [m.View()]
  {
    assert (s + [m])[..|s|] == s;
  }

  ghost predicate NoRepeats(s: seq<NetMessage>) { forall i, j :: 0 <= i < j < |s| ==> s[i] != s[j] }

  lemma NoRepeatsSnoc(s: seq<NetMessage>, m: NetMessage)
    requires NoRepeats(s) && m !in s
    ensures NoRepeats(s + [m])
  {
  }

  /** What absorbing some of the bytes must have done. */
  ghost predicate Absorbed(ms: seq<Message>, ms': seq<Message>, pch: seq<byte>, handled: int) {
    if handled < 0 then Stopped(ms') && ms' == Feed(ms, pch)
    else 0 < handled <= |pch| && ms' == Feed(ms, pch[..handled]) && !Stopped(ms')
  }

  lemma AbsorbedHeader(ms: seq<Message>, ms': seq<Message>, pch: seq<byte>, n: nat, handled: int)
    requires n <= |pch| && ms' == Feed(ms, pch[..n])
    requires (handled < 0 <==> Stopped(ms')) && (handled >= 0 ==> handled == n > 0)
    ensures Absorbed(ms, ms', pch, handled)
  {
    if handled < 0 {
      FeedSplit(ms, pch[..n], pch[n..]);
      assert pch[..n] + pch[n..] == pch;
      StoppedStays(ms', pch[n..]);
    }
  }

  lemma FeedNone(ms: seq<Message>)
    ensures Feed(ms, []) == ms
  {
  }

  lemma AbsorbedMore(ms: seq<Message>, ms': seq<Message>, pch: seq<byte>, handled: int)
    requires Queue(ms) && Absorbed(ms, ms', pch, handled)
    ensures Queue(ms')
    ensures if handled < 0 then Stopped(ms') && ms' == Feed(ms, pch)
            else 0 < handled <= |pch| && !Stopped(ms') && Feed(ms', pch[handled..]) == Feed(ms, pch)
  {
    hide Feed, Queue, Stopped;
    if handled < 0 {
      FeedReproduces(ms, pch);
    } else {
      FeedReproduces(ms, pch[..handled]);
      FeedSplit(ms, pch[..handled], pch[handled..]);
      assert pch[..handled] + pch[handled..] == pch;
    }
  }

  /** What a message that is not complete makes of the bytes. */
  ghost predicate Takes(m: Message, m': Message, pch: seq<byte>, handled: int) {
    if |m.header| == HEADER_SIZE && !Rejected(m) then
      && 0 < handled <= |pch| && |m.payload| + handled <= PayloadSize(m.header)
      && m' == Message(m.header, m.payload + pch[..handled])
    else
      && m.header != [] && m.payload == [] && |m.header| <= HEADER_SIZE
      && var n := Min(HEADER_SIZE - |m.header|, |pch|);
         && m' == Message(m.header + pch[..n], [])
         && (handled < 0 <==> Rejected(m')) && (handled >= 0 ==> handled == n > 0)
  }

  lemma TakesIsAbsorbed(ms: seq<Message>, m: Message, m': Message, pch: seq<byte>, handled: int)
    requires Takes(m, m', pch, handled)
    ensures Absorbed(ms + [m], ms + [m'], pch, handled)
  {
    hide Feed;
    if |m.header| == HEADER_SIZE && !Rejected(m) {
      FillPayload(ms, m, pch[..handled]);
    } else {
      var n := Min(HEADER_SIZE - |m.header|, |pch|);
      FillHeader(ms, m, pch[..n]);
      AbsorbedHeader(ms + [m], ms + [m'], pch, n, handled);
    }
  }

  lemma FillsNew(ms: seq<Message>, pch: seq<byte>, n: nat, m': Message, handled: int)
    requires (ms == [] || Complete(ms[|ms| - 1])) && 0 < n <= |pch| && n <= HEADER_SIZE
    requires m' == Message(pch[..n], []) && (handled < 0 <==> Rejected(m')) && (handled >= 0 ==> handled == n)
    ensures Absorbed(ms, ms + [m'], pch, handled)
  {
    NewHeader(ms, pch[..n]);
    hide Feed;
    AbsorbedHeader(ms, ms + [m'], pch, n, handled);
  }

  /** A new message and its first bytes. */
  method FirstBytes(pch: seq<byte>, ghost ms: seq<Message>) returns (msg: NetMessage, handled: int, ghost m: Message)
    requires pch != [] && (ms == [] || Complete(ms[|ms| - 1]))
    ensures fresh(msg) && msg.Valid() && msg.View() == m && Absorbed(ms, ms + [m], pch, handled)
  {
    msg := new NetMessage();
    handled := msg.ReadHeaderBytes(pch);
    m := msg.View();
    ghost var n := Min(HEADER_SIZE, |pch|);
    assert [] + pch[..n] == pch[..n];
    hide Feed, Absorbed, Complete;
    FillsNew(ms, pch, n, m, handled);
  }

  class Node {
    var vRecvMsg: seq<NetMessage>

    ghost predicate Valid()
      reads this, vRecvMsg
    {
      NoRepeats(vRecvMsg) && AllValid(vRecvMsg) && Queue(Views(vRecvMsg))
    }

    ghost function View(): seq<Message>
      reads this, vRecvMsg
      requires Valid()
    {
      Views(vRecvMsg)
    }

    ghost function Objects(): set<NetMessage>
      reads this
    {
      set m | m in vRecvMsg
    }

    constructor ()
      ensures Valid() && View() == []
    {
      vRecvMsg := [];
    }

    /** A new message takes the bytes. */
    method Start(pch: seq<byte>) returns (handled: int)
      requires Valid() && pch != [] && (View() == [] || Complete(View()[|View()| - 1]))
      modifies this
      ensures vRecvMsg != [] && fresh(vRecvMsg[|vRecvMsg| - 1]) && vRecvMsg[..|vRecvMsg| - 1] == old(vRecvMsg)
      ensures fresh(Objects() - old(Objects()))
      ensures AllValid(vRecvMsg) && NoRepeats(vRecvMsg)
      ensures Absorbed(old(View()), Views(vRecvMsg), pch, handled)
    {
      hide AllValid, NoRepeats, Views, Absorbed, Queue, Complete, Feed, Stopped;
      var msg: NetMessage;
      msg, handled := FirstMessage(pch);
      Append(msg);
    }

    method FirstMessage(pch: seq<byte>) returns (msg: NetMessage, handled: int)
      requires Valid() && pch != [] && (View() == [] || Complete(View()[|View()| - 1]))
      ensures fresh(msg) && msg.Valid() && msg !in vRecvMsg && AllValid(vRecvMsg) && NoRepeats(vRecvMsg)
      ensures Absorbed(old(View()), Views(vRecvMsg) + [msg.View()], pch, handled)
    {
      ghost var ms := View();
      hide AllValid, NoRepeats, Views, Absorbed, Queue, Complete, Feed, Stopped;
      ghost var m;
      msg, handled, m := FirstBytes(pch, ms);
      assert Views(vRecvMsg) == ms;
    }

    method Append(msg: NetMessage)
      requires AllValid(vRecvMsg) && NoRepeats(vRecvMsg) && msg.Valid() && msg !in vRecvMsg
      modifies this
      ensures vRecvMsg == old(vRecvMsg) + [msg] && Objects() == old(Objects()) + {msg}
      ensures AllValid(vRecvMsg) && NoRepeats(vRecvMsg) && Views(vRecvMsg) == old(Views(vRecvMsg)) + [msg.View()]
    {
      hide AllValid, NoRepeats, Views;
      ViewsSnoc(vRecvMsg, msg);
      NoRepeatsSnoc(vRecvMsg, msg);
      vRecvMsg := vRecvMsg + [msg];
    }

    /** The last message takes the bytes. */
    method Continue(pch: seq<byte>) returns (handled: int)
      requires Valid() && pch != [] && View() != [] && !Complete(View()[|View()| - 1])
      modifies vRecvMsg[|vRecvMsg| - 1]
      ensures AllValid(vRecvMsg)
      ensures Absorbed(old(View()), Views(vRecvMsg), pch, handled)
    {
      var msg := vRecvMsg[|vRecvMsg| - 1];
      ghost var s := vRecvMsg[..|vRecvMsg| - 1];
      ghost var before, m := Views(s), msg.View();
      LastView();
      hide *;
      handled := msg.Take(pch);
      assert AllValid(s) && Views(s) == before;
      ViewsSnoc(s, msg);
      TakesIsAbsorbed(before, m, msg.View(), pch, handled);
    }

    /** The last message of several, and those before it. */
    lemma LastView()
      requires Valid() && vRecvMsg != []
      ensures var n := |vRecvMsg| - 1; var s, msg := vRecvMsg[..n], vRecvMsg[n];
              && vRecvMsg == s + [msg] && AllValid(s) && msg.Valid() && msg !in s
              && View() == Views(s) + [msg.View()] && Proper(msg.View()) && (msg.IsComplete() <==> Complete(msg.View()))
    {
      var n := |vRecvMsg| - 1;
      assert View()[n] == vRecvMsg[n].View();
      vRecvMsg[n].CompleteIs();
    }

    /** One turn of the loop: some of the bytes, one at least, go to the current message or
        to a new one. */
    method Absorb(pch: seq<byte>) returns (handled: int)
      requires Valid() && pch != []
      modifies this, Objects()
      ensures Valid() && fresh(Objects() - old(Objects()))
      ensures handled < 0 ==> Stopped(View()) && View() == Feed(old(View()), pch)
      ensures handled >= 0 ==>
                0 < handled <= |pch| && !Stopped(View()) && Feed(View(), pch[handled..]) == Feed(old(View()), pch)
    {
      ghost var ms := View();
      if vRecvMsg != [] { vRecvMsg[|vRecvMsg| - 1].CompleteIs(); }
      hide Queue, Absorbed, Complete, Feed, Stopped, Views, NoRepeats, AllValid;
      if vRecvMsg == [] || vRecvMsg[|vRecvMsg| - 1].IsComplete() {
        handled := Start(pch);
      } else {
        handled := Continue(pch);
      }
      AbsorbedMore(ms, Views(vRecvMsg), pch, handled);
    }

    /** However many bytes come at once, the result is that of taking them one by one; the
        answer is false if they end up in or behind a rejected header. */
    method ReceiveMsgBytes(pch: seq<byte>) returns (ok: bool)
      requires Valid()
      modifies this, Objects()
      ensures Valid() && fresh(Objects() - old(Objects()))
      ensures View() == Feed(old(View()), pch)
      ensures ok <==> pch == [] || !Stopped(View())
    {
      ghost var ms := View();
      var rest := pch;
      hide *;
      while |rest| > 0
        invariant Valid() && fresh(Objects() - old(Objects()))
        invariant Feed(View(), rest) == Feed(ms, pch)
        invariant rest == pch || !Stopped(View())
        decreases |rest|
      {
        var handled := Absorb(rest);
        if handled < 0 { return false; }
        rest := rest[handled..];
      }
      FeedNone(View());
      ok := true;
    }
  }

  /** Chunks as they arrive, until one is refused. */
  method ReceiveAll(node: Node, chunks: seq<seq<byte>>) returns (ok: bool)
    requires node.Valid() && !Stopped(node.View())
    modifies node, node.Objects()
    ensures node.Valid() && node.View() == Feed(old(node.View()), Concat(chunks))
    ensures ok <==> !Stopped(node.View())
  {
    ghost var ms := node.View();
    var n := 0;
    assert chunks[0..] == chunks;
    hide Node.Valid, Feed, Queue, Stopped;
    while n < |chunks|
      invariant n <= |chunks| && node.Valid() && !Stopped(node.View())
      invariant fresh(node.Objects() - old(node.Objects()))
      invariant Feed(node.View(), Concat(chunks[n..])) == Feed(ms, Concat(chunks))
    {
      assert Concat(chunks[n..]) == chunks[n] + Concat(chunks[n + 1..]) by {
        assert chunks[n..][1..] == chunks[n + 1..];
      }
      FeedSplit(node.View(), chunks[n], Concat(chunks[n + 1..]));
      FeedNone(node.View());
      ok := node.ReceiveMsgBytes(chunks[n]);
      if !ok {
        StoppedStays(node.View(), Concat(chunks[n + 1..]));
        return false;
      }
      n := n + 1;
    }
    FeedNone(node.View());
    ok := true;
  }
}
