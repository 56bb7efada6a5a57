/** The block-download bookkeeping as the program keeps it: each event changes the lists, the
    counters and the two maps in place. */
module DownloadTracker {
  import opened Basics
  import opened Downloads

  /** The clock gives whatever it gives. */
  method GetTimeMicros() returns (now: int)
    ensures true
  {
    now := *;
  }

  /** The first blocks of the peer's queue, as many as there is room for. */
  predicate AsksFor(s: State, id: NodeId, vGetData: seq<Hash>)
    requires id in s.nodes
  {
    var queue, flying := s.nodes[id].vBlocksToDownload, s.nodes[id].vBlocksInFlight;
    && |vGetData| == Min(|queue|, MAX_BLOCKS_IN_TRANSIT_PER_PEER - |flying|)
    && forall i :: 0 <= i < |vGetData| ==> vGetData[i] == queue[i].hash
  }

  class Tracker {
    var mapNodeState: map<NodeId, NodeState>
    var mapBlocksInFlight: map<Hash, Handle>
    var mapBlocksToDownload: map<Hash, Handle>
    var next: nat

    function S(): State
      reads this
    {
      State(mapNodeState, mapBlocksInFlight, mapBlocksToDownload, next)
    }

    constructor ()
      ensures S() == Start() && Inv(S()) && Bounded(S())
    {
      mapNodeState, mapBlocksInFlight, mapBlocksToDownload, next := map[], map[], map[], 0;
      new;
      StartInv();
      hide *;
    }

    method InitializeNode(nodeid: NodeId)
      requires Inv(S())
      modifies this
      ensures S() == Initialized(old(S()), nodeid) && Inv(S())
    {
      InitializedInv(S(), nodeid);
      if nodeid !in mapNodeState { mapNodeState := mapNodeState[nodeid := NEWNODE]; }
    }

    method FinalizeNode(nodeid: NodeId)
      requires Inv(S()) && nodeid in mapNodeState
      modifies this
      ensures S() == Finalized(old(S()), nodeid) && Inv(S())
    {
      FinalizedInv(S(), nodeid);
      hide Inv;
      var state := mapNodeState[nodeid];
      mapBlocksInFlight := EraseAll(mapBlocksInFlight, state.vBlocksInFlight);
      mapBlocksToDownload := EraseAll(mapBlocksToDownload, state.vBlocksToDownload);
      mapNodeState := mapNodeState - {nodeid};
    }

    method MarkBlockAsReceived(hash: Hash, nodeFrom: int) returns (ghost now: int)
      requires Inv(S())
      modifies this
      ensures S() == Received(old(S()), hash, nodeFrom, now) && Inv(S())
      ensures hash !in mapBlocksToDownload && hash !in mapBlocksInFlight && mapNodeState.Keys == old(mapNodeState).Keys
    {
      ghost var s := S();
      Dequeue(hash);
      now := Land(hash, nodeFrom);
      ReceivedInv(s, hash, nodeFrom, now);
      ReceivedNodes(s, hash, nodeFrom, now);
    }

    /** The first half: the block is wanted from nobody any more. */
    method Dequeue(hash: Hash)
      requires Inv(S())
      modifies this
      ensures S() == Dequeued(old(S()), hash) && Inv(S())
    {
      NodeThere(S(), hash);
      hide Inv;
      DequeuedInv(S(), hash);
      if hash in mapBlocksToDownload {
        var it := mapBlocksToDownload[hash];
        var state := mapNodeState[it.node];
        state := state.(vBlocksToDownload := Erased(state.vBlocksToDownload, it.at));
        state := state.(nBlocksToDownload := state.nBlocksToDownload - 1);
        mapNodeState := mapNodeState[it.node := state];
        mapBlocksToDownload := mapBlocksToDownload - {hash};
      }
    }

    /** The second half: nor is it on its way. */
    method Land(hash: Hash, nodeFrom: int) returns (ghost now: int)
      requires Inv(S())
      modifies this
      ensures S() == Landed(old(S()), hash, nodeFrom, now)
    {
      now := 0;
      hide Inverse, Counts;
      if hash in mapBlocksInFlight {
        var it := mapBlocksInFlight[hash];
        NodeThere(S(), hash);
        var state := mapNodeState[it.node];
        state := state.(vBlocksInFlight := Erased(state.vBlocksInFlight, it.at));
        state := state.(nBlocksInFlight := state.nBlocksInFlight - 1);
        if it.node == nodeFrom {
          var nNow := GetTimeMicros();
          now := nNow;
          state := state.(nLastBlockReceive := nNow);
        }
        mapNodeState := mapNodeState[it.node := state];
        mapBlocksInFlight := mapBlocksInFlight - {hash};
      }
    }

    method AddBlockToQueue(nodeid: NodeId, hash: Hash) returns (added: bool)
      requires Inv(S())
      modifies this
      ensures added == MayQueue(old(S()), nodeid, hash)
      ensures S() == Enqueued(old(S()), nodeid, hash) && Inv(S())
    {
      hide Inv;
      EnqueuedInv(S(), nodeid, hash);
      if hash in mapBlocksToDownload || hash in mapBlocksInFlight { return false; }
      if nodeid !in mapNodeState { return false; }
      var state, it := mapNodeState[nodeid], next;
      next := next + 1;
      state := state.(vBlocksToDownload := state.vBlocksToDownload + [Waiting(it, hash)]);
      state := state.(nBlocksToDownload := state.nBlocksToDownload + 1);
      mapNodeState := mapNodeState[nodeid := state];
      mapBlocksToDownload := mapBlocksToDownload[hash := Handle(nodeid, it)];
      added := true;
    }

    method MarkBlockAsInFlight(nodeid: NodeId, hash: Hash) returns (ghost now: int)
      requires Inv(S()) && nodeid in mapNodeState
      modifies this
      ensures S() == Requested(old(S()), nodeid, hash, now) && Inv(S())
    {
      ghost var s := S();
      ghost var received := MarkBlockAsReceived(hash, -1);
      hide Inv, Received, Launched;
      now := Launch(nodeid, hash);
      FromNobody(s, hash, received, now);
      RequestedInv(s, nodeid, hash, now);
    }

    /** The second half: the request goes to the end of the peer's list. */
    method Launch(nodeid: NodeId, hash: Hash) returns (ghost now: int)
      requires nodeid in mapNodeState
      modifies this
      ensures S() == Launched(old(S()), nodeid, hash, now)
    {
      var state, it := mapNodeState[nodeid], next;
      next := next + 1;
      var nTime := GetTimeMicros();
      now := nTime;
      var newentry := InFlight(it, hash, nTime, state.nBlocksInFlight);
      if state.nBlocksInFlight == 0 { state := state.(nLastBlockReceive := nTime); }
      state := state.(vBlocksInFlight := state.vBlocksInFlight + [newentry]);
      state := state.(nBlocksInFlight := state.nBlocksInFlight + 1);
      mapNodeState := mapNodeState[nodeid := state];
      mapBlocksInFlight := mapBlocksInFlight[hash := Handle(nodeid, it)];
    }

    /** The getdata loop of SendMessages.  It ends, after 128 requests at most, so that one
        message always holds them all. */
    method SendGetData(nodeid: NodeId, fDisconnect: bool) returns (vGetData: seq<Hash>, ghost times: seq<int>)
      requires Inv(S()) && Bounded(S()) && nodeid in mapNodeState
      modifies this
      ensures Inv(S()) && Bounded(S())
      ensures fDisconnect ==> vGetData == [] && S() == old(S())
      ensures !fDisconnect ==> S() == Sent(old(S()), nodeid, times) && |times| == |vGetData|
      ensures !fDisconnect ==> AsksFor(old(S()), nodeid, vGetData)
    {
      vGetData, times := [], [];
      ghost var s := S();
      SendingStart(s, nodeid);
      hide *;
      while !fDisconnect && mapNodeState[nodeid].nBlocksToDownload != 0
            && mapNodeState[nodeid].nBlocksInFlight < MAX_BLOCKS_IN_TRANSIT_PER_PEER
        invariant Sending(s, S(), nodeid, vGetData, times) && nodeid in mapNodeState
        invariant fDisconnect ==> vGetData == [] && S() == s
        decreases mapNodeState[nodeid].nBlocksToDownload
      {
        ghost var t := S();
        SendingCounts(s, t, nodeid, vGetData, times);
        var hash := mapNodeState[nodeid].vBlocksToDownload[0].hash;
        ghost var now := MarkBlockAsInFlight(nodeid, hash);
        SendingStep(s, t, nodeid, vGetData, times, now);
        vGetData := vGetData + [hash];
        times := times + [now];
      }
      SendingCounts(s, S(), nodeid, vGetData, times);
    }
  }

  /** The loop of requests so far. */
  ghost predicate Sending(s: State, t: State, id: NodeId, asked: seq<Hash>, times: seq<int>) {
    && id in s.nodes && id in t.nodes && Inv(t) && Bounded(t) && t == Sent(s, id, times)
    && |times| == |asked| <= |s.nodes[id].vBlocksToDownload|
    && t.nodes[id].vBlocksToDownload == s.nodes[id].vBlocksToDownload[|asked|..]
    && |t.nodes[id].vBlocksInFlight| == |s.nodes[id].vBlocksInFlight| + |asked|
    && forall i :: 0 <= i < |asked| ==> asked[i] == s.nodes[id].vBlocksToDownload[i].hash
  }

  lemma SendingStart(s: State, id: NodeId)
    requires Inv(s) && Bounded(s) && id in s.nodes
    ensures Sending(s, s, id, [], [])
  {
    hide Inv, Bounded;
  }

  lemma SendingCounts(s: State, t: State, id: NodeId, asked: seq<Hash>, times: seq<int>)
    requires Sending(s, t, id, asked, times)
    ensures id in t.nodes && Inv(t) && Bounded(t) && t == Sent(s, id, times) && |times| == |asked|
    ensures var st := t.nodes[id];
            && st.nBlocksToDownload >= 0 && (st.nBlocksToDownload == 0 <==> st.vBlocksToDownload == [])
            && (st.nBlocksToDownload != 0 && st.nBlocksInFlight < MAX_BLOCKS_IN_TRANSIT_PER_PEER <==> MaySend(t, id))
    ensures !MaySend(t, id) ==> id in s.nodes && AsksFor(s, id, asked)
  {
    CountsAre(t, id);
    hide Inv, Bounded, Sent;
  }

  lemma SendingStep(s: State, t: State, id: NodeId, asked: seq<Hash>, times: seq<int>, now: int)
    requires Sending(s, t, id, asked, times) && MaySend(t, id)
    ensures var t' := FrontRequested(t, id, now);
            && Sending(s, t', id, asked + [t.nodes[id].vBlocksToDownload[0].hash], times + [now])
            && id in t'.nodes && t'.nodes[id].nBlocksToDownload == t.nodes[id].nBlocksToDownload - 1
  {
    hide Inv, Bounded, Sent, FrontRequested, FrontOk;
    FrontInv(t, id, now);
    FrontMoves(t, id, now);
    SentMore(s, id, times, now);
  }

  method EraseAll(m: map<Hash, Handle>, cells: seq<Cell>) returns (m': map<Hash, Handle>)
    ensures m' == m - HashesOf(cells)
  {
    m' := m;
    var n := 0;
    while n < |cells|
      invariant n <= |cells| && m' == m - HashesOf(cells[..n])
    {
      assert HashesOf(cells[..n + 1]) == HashesOf(cells[..n]) + {cells[n].hash} by {
        assert cells[..n + 1] == cells[..n] + [cells[n]];
      }
      m' := m' - {cells[n].hash};
      n := n + 1;
    }
    assert cells[..n] == cells;
  }

  lemma NodeThere(s: State, hash: Hash)
    requires Inv(s)
    ensures hash in s.toDownload ==> s.toDownload[hash].node in s.nodes
    ensures hash in s.inFlight ==> s.inFlight[hash].node in s.nodes
  {
  }

  lemma CountsAre(s: State, id: NodeId)
    requires Inv(s) && Bounded(s) && id in s.nodes
    ensures s.nodes[id].nBlocksToDownload == |s.nodes[id].vBlocksToDownload|
    ensures s.nodes[id].nBlocksInFlight == |s.nodes[id].vBlocksInFlight| <= MAX_BLOCKS_IN_TRANSIT_PER_PEER
  {
    assert Counts(s.nodes);
  }

  /** Sent by no peer: then the time does not matter. */
  lemma FromNobody(s: State, hash: Hash, now1: int, now2: int)
    ensures Received(s, hash, -1, now1) == Received(s, hash, -1, now2)
  {
  }

  lemma {:induction false} SentMore(s: State, id: NodeId, times: seq<int>, now: int)
    requires MaySend(Sent(s, id, times), id)
    ensures Sent(s, id, times + [now]) == FrontRequested(Sent(s, id, times), id, now)
    decreases |times|
  {
    hide FrontRequested;
    if times != [] {
      assert (times + [now])[1..] == times[1..] + [now];
      SentMore(FrontRequested(s, id, times[0]), id, times[1..], now);
    }
  }
}
