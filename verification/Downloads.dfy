/** Which blocks are wanted from which peer, as a value: the peers' lists, the two maps that
    lead back into them, and what each event does. */
module Downloads {
  import opened Basics

  const MAX_BLOCKS_IN_TRANSIT_PER_PEER := 128

  type NodeId = nat
  type Hash = nat

  /** A cell of a peer's list; `at` stands for the iterator that points to it. */
  datatype Cell = Waiting(at: nat, hash: Hash)
                | InFlight(at: nat, hash: Hash, nTime: int, nQueuedBefore: int)

  datatype Handle = Handle(node: NodeId, at: nat)

  datatype NodeState = NodeState(vBlocksInFlight: seq<Cell>, nBlocksInFlight: int, vBlocksToDownload: seq<Cell>,
                                 nBlocksToDownload: int, nLastBlockReceive: int)

  datatype State = State(nodes: map<NodeId, NodeState>, inFlight: map<Hash, Handle>, toDownload: map<Hash, Handle>,
                         next: nat)

  // ---------- one kind of list and its map ----------

  ghost predicate Placed(cells: seq<Cell>, hash: Hash, at: nat) {
    exists i :: 0 <= i < |cells| && cells[i].at == at && cells[i].hash == hash
  }

  ghost predicate OneByOne(cells: seq<Cell>, next: nat) {
    && (forall i :: 0 <= i < |cells| ==> cells[i].at < next)
    && forall i, j :: 0 <= i < j < |cells| ==> cells[i].at != cells[j].at
  }

  /** The map and the lists are inverse: every cell is found by its hash, and every entry of
      the map leads to a cell of a peer that is there. */
  ghost predicate Inverse(lists: map<NodeId, seq<Cell>>, owner: map<Hash, Handle>, next: nat) {
    && (forall id :: id in lists ==> OneByOne(lists[id], next))
    && (forall id, i :: id in lists && 0 <= i < |lists[id]| ==>
          lists[id][i].hash in owner && owner[lists[id][i].hash] == Handle(id, lists[id][i].at))
    && forall hash :: hash in owner ==>
         owner[hash].node in lists && Placed(lists[owner[hash].node], hash, owner[hash].at)
  }

  function Erased(cells: seq<Cell>, at: nat): seq<Cell> {
    if cells == [] then [] else if cells[0].at == at then cells[1..] else [cells[0]] + Erased(cells[1..], at)
  }

  lemma {:induction false} ErasedIs(cells: seq<Cell>, at: nat, i: nat, next: nat)
    requires OneByOne(cells, next) && i < |cells| && cells[i].at == at
    ensures Erased(cells, at) == cells[..i] + cells[i + 1..]
    decreases |cells|
  {
    if i == 0 {
      assert cells[..0] + cells[1..] == cells[1..];
    } else {
      assert cells[0].at != cells[i].at;
      OneByOneTail(cells, next);
      hide OneByOne;
      ErasedIs(cells[1..], at, i - 1, next);
      assert cells[0..1] + (cells[1..][..i - 1] + cells[1..][i..]) == cells[..i] + cells[i + 1..];
    }
  }

  lemma OneByOneTail(cells: seq<Cell>, next: nat)
    requires OneByOne(cells, next) && cells != []
    ensures OneByOne(cells[1..], next)
  {
    assert forall k :: 0 <= k < |cells| - 1 ==> cells[1..][k] == cells[k + 1];
  }

  lemma OneByOneErased(cells: seq<Cell>, i: nat, next: nat)
    requires OneByOne(cells, next) && i < |cells|
    ensures OneByOne(Without(cells, i), next)
  {
  }

  /** A cell at the end of a list, for a hash not in the map. */
  lemma InsertInverse(lists: map<NodeId, seq<Cell>>, owner: map<Hash, Handle>, next: nat, id: NodeId, cell: Cell)
    requires Inverse(lists, owner, next) && id in lists && cell.at == next && cell.hash !in owner
    ensures Inverse(lists[id := lists[id] + [cell]], owner[cell.hash := Handle(id, next)], next + 1)
  {
    var lists', owner' := lists[id := lists[id] + [cell]], owner[cell.hash := Handle(id, next)];
    forall j | j in lists' ensures OneByOne(lists'[j], next + 1) { assert OneByOne(lists[j], next); }
    forall hash | hash in owner'
      ensures owner'[hash].node in lists' && Placed(lists'[owner'[hash].node], hash, owner'[hash].at)
    {
      if hash == cell.hash {
        assert lists'[id][|lists[id]|] == cell;
      } else {
        var cells := lists[owner[hash].node];
        var i :| 0 <= i < |cells| && cells[i].at == owner[hash].at && cells[i].hash == hash;
        assert lists'[owner[hash].node][i] == lists[owner[hash].node][i];
      }
    }
  }

  /** The hash leaves the map, and its cell the list. */
  lemma EraseInverse(lists: map<NodeId, seq<Cell>>, owner: map<Hash, Handle>, next: nat, hash: Hash)
    requires Inverse(lists, owner, next) && hash in owner
    ensures owner[hash].node in lists
    ensures var id := owner[hash].node; Inverse(lists[id := Erased(lists[id], owner[hash].at)], owner - {hash}, next)
    ensures |Erased(lists[owner[hash].node], owner[hash].at)| == |lists[owner[hash].node]| - 1
  {
    var id, at := owner[hash].node, owner[hash].at;
    var i :| 0 <= i < |lists[id]| && lists[id][i].at == at && lists[id][i].hash == hash;
    ErasedIs(lists[id], at, i, next);
    OneByOneErased(lists[id], i, next);
    EraseCell(lists, owner, next, id, i);
  }

  function Without(cells: seq<Cell>, i: nat): seq<Cell>
    requires i < |cells|
  {
    cells[..i] + cells[i + 1..]
  }

  lemma EraseCell(lists: map<NodeId, seq<Cell>>, owner: map<Hash, Handle>, next: nat, id: NodeId, i: nat)
    requires Inverse(lists, owner, next) && id in lists && i < |lists[id]| && OneByOne(Without(lists[id], i), next)
    ensures Inverse(lists[id := Without(lists[id], i)], owner - {lists[id][i].hash}, next)
  {
    assert forall j :: j in lists ==> OneByOne(lists[j], next);
    hide *;
    OwnersAfter(lists, owner, next, id, i);
    CellsAfter(lists, owner, next, id, i);
    MakeInverse(lists[id := Without(lists[id], i)], owner - {lists[id][i].hash}, next);
  }

  lemma MakeInverse(lists: map<NodeId, seq<Cell>>, owner: map<Hash, Handle>, next: nat)
    requires forall id :: id in lists ==> OneByOne(lists[id], next)
    requires forall id: NodeId, i: nat :: id in lists && i < |lists[id]| ==>
               lists[id][i].hash in owner && owner[lists[id][i].hash] == Handle(id, lists[id][i].at)
    requires forall hash :: hash in owner ==>
               owner[hash].node in lists && Placed(lists[owner[hash].node], hash, owner[hash].at)
    ensures Inverse(lists, owner, next)
  {
    hide OneByOne, Placed;
  }

  lemma OwnersAfter(lists: map<NodeId, seq<Cell>>, owner: map<Hash, Handle>, next: nat, id: NodeId, i: nat)
    requires Inverse(lists, owner, next) && id in lists && i < |lists[id]|
    ensures var lists' := lists[id := Without(lists[id], i)];
            forall h :: h in owner && h != lists[id][i].hash ==>
              owner[h].node in lists' && Placed(lists'[owner[h].node], h, owner[h].at)
  {
    hide OneByOne, Placed, Without;
    var lists' := lists[id := Without(lists[id], i)];
    forall h | h in owner && h != lists[id][i].hash
      ensures owner[h].node in lists' && Placed(lists'[owner[h].node], h, owner[h].at)
    {
      if owner[h].node == id { StillPlaced(lists[id], h, owner[h].at, i); }
    }
  }

  lemma CellsAfter(lists: map<NodeId, seq<Cell>>, owner: map<Hash, Handle>, next: nat, id: NodeId, i: nat)
    requires Inverse(lists, owner, next) && id in lists && i < |lists[id]|
    ensures var lists' := lists[id := Without(lists[id], i)];
            forall j: NodeId, k: nat :: j in lists' && k < |lists'[j]| ==>
              && lists'[j][k].hash in owner && lists'[j][k].hash != lists[id][i].hash
              && owner[lists'[j][k].hash] == Handle(j, lists'[j][k].at)
  {
    hide *;
    var lists': map<NodeId, seq<Cell>> := lists[id := Without(lists[id], i)];
    forall j: NodeId, k: nat | j in lists' && k < |lists'[j]|
      ensures lists'[j][k].hash in owner && lists'[j][k].hash != lists[id][i].hash
      ensures owner[lists'[j][k].hash] == Handle(j, lists'[j][k].at)
    {
      CellAfter(lists, owner, next, id, i, j, k);
    }
  }

  lemma CellAfter(lists: map<NodeId, seq<Cell>>, owner: map<Hash, Handle>, next: nat, id: NodeId, i: nat, j: NodeId,
                  k: nat)
    requires Inverse(lists, owner, next) && id in lists && i < |lists[id]| && j in lists
    requires k < |lists[id := Without(lists[id], i)][j]|
    ensures var c := lists[id := Without(lists[id], i)][j][k];
            c.hash in owner && c.hash != lists[id][i].hash && owner[c.hash] == Handle(j, c.at)
  {
    OtherCell(lists, owner, next, id, i, j, if j == id && k >= i then k + 1 else k);
  }

  lemma StillPlaced(cells: seq<Cell>, h: Hash, at: nat, i: nat)
    requires i < |cells| && Placed(cells, h, at) && cells[i].hash != h
    ensures Placed(Without(cells, i), h, at)
  {
    var k :| 0 <= k < |cells| && cells[k].at == at && cells[k].hash == h;
    assert Without(cells, i)[if k < i then k else k - 1] == cells[k];
  }

  /** Two different cells hold different hashes. */
  lemma OtherCell(lists: map<NodeId, seq<Cell>>, owner: map<Hash, Handle>, next: nat, id: NodeId, i: nat, j: NodeId,
                  k: nat)
    requires Inverse(lists, owner, next) && id in lists && i < |lists[id]| && j in lists && k < |lists[j]|
    requires j != id || k != i
    ensures lists[j][k].hash in owner && lists[j][k].hash != lists[id][i].hash
    ensures owner[lists[j][k].hash] == Handle(j, lists[j][k].at)
  {
    assert OneByOne(lists[id], next);
    assert owner[lists[id][i].hash] == Handle(id, lists[id][i].at);
  }

  function HashesOf(cells: seq<Cell>): set<Hash> { set c | c in cells :: c.hash }

  /** A peer goes, with all its cells. */
  lemma RemoveInverse(lists: map<NodeId, seq<Cell>>, owner: map<Hash, Handle>, next: nat, id: NodeId)
    requires Inverse(lists, owner, next) && id in lists
    ensures Inverse(lists - {id}, owner - HashesOf(lists[id]), next)
    ensures forall hash :: hash in owner && owner[hash].node == id ==> hash in HashesOf(lists[id])
  {
    forall j, k | j in lists && j != id && 0 <= k < |lists[j]| ensures lists[j][k].hash !in HashesOf(lists[id]) {
      forall c | c in lists[id] ensures c.hash != lists[j][k].hash {
        var m :| 0 <= m < |lists[id]| && lists[id][m] == c;
        assert owner[lists[id][m].hash] == Handle(id, lists[id][m].at);
      }
    }
    forall hash | hash in owner && owner[hash].node == id ensures hash in HashesOf(lists[id]) {
      var i :| 0 <= i < |lists[id]| && lists[id][i].at == owner[hash].at && lists[id][i].hash == hash;
      assert lists[id][i] in lists[id];
    }
  }

  lemma AddInverse(lists: map<NodeId, seq<Cell>>, owner: map<Hash, Handle>, next: nat, id: NodeId)
    requires Inverse(lists, owner, next) && id !in lists
    ensures Inverse(lists[id := []], owner, next)
  {
  }

  lemma LaterInverse(lists: map<NodeId, seq<Cell>>, owner: map<Hash, Handle>, next: nat)
    requires Inverse(lists, owner, next)
    ensures Inverse(lists, owner, next + 1)
  {
    forall id | id in lists ensures OneByOne(lists[id], next + 1) { assert OneByOne(lists[id], next); }
  }

  // ---------- the state ----------

  ghost function Flying(nodes: map<NodeId, NodeState>): map<NodeId, seq<Cell>> {
    map id | id in nodes :: nodes[id].vBlocksInFlight
  }

  ghost function Queued(nodes: map<NodeId, NodeState>): map<NodeId, seq<Cell>> {
    map id | id in nodes :: nodes[id].vBlocksToDownload
  }

  ghost predicate Counts(nodes: map<NodeId, NodeState>) {
    forall id :: id in nodes ==>
      && nodes[id].nBlocksInFlight == |nodes[id].vBlocksInFlight|
      && nodes[id].nBlocksToDownload == |nodes[id].vBlocksToDownload|
  }

  ghost predicate Inv(s: State) {
    && Inverse(Flying(s.nodes), s.inFlight, s.next)
    && Inverse(Queued(s.nodes), s.toDownload, s.next)
    && s.inFlight.Keys !! s.toDownload.Keys
    && Counts(s.nodes)
  }

  /** No peer is asked for more than so many blocks at once. */
  ghost predicate Bounded(s: State) {
    forall id :: id in s.nodes ==> s.nodes[id].nBlocksInFlight <= MAX_BLOCKS_IN_TRANSIT_PER_PEER
  }

  function Start(): State { State(map[], map[], map[], 0) }

  lemma StartInv()
    ensures Inv(Start()) && Bounded(Start())
  {
  }

  const NEWNODE := NodeState([], 0, [], 0, 0)

  function Initialized(s: State, id: NodeId): State {
    if id in s.nodes then s else s.(nodes := s.nodes[id := NEWNODE])
  }

  function Finalized(s: State, id: NodeId): State
    requires id in s.nodes
  {
    s.(nodes := s.nodes - {id},
       inFlight := s.inFlight - HashesOf(s.nodes[id].vBlocksInFlight),
       toDownload := s.toDownload - HashesOf(s.nodes[id].vBlocksToDownload))
  }

  function Dequeued(s: State, hash: Hash): State {
    if hash in s.toDownload && s.toDownload[hash].node in s.nodes then
      var id := s.toDownload[hash].node;
      var st := s.nodes[id];
      s.(nodes := s.nodes[id := st.(vBlocksToDownload := Erased(st.vBlocksToDownload, s.toDownload[hash].at),
                                    nBlocksToDownload := st.nBlocksToDownload - 1)],
         toDownload := s.toDownload - {hash})
    else s
  }

  function Landed(s: State, hash: Hash, nodeFrom: int, now: int): State {
    if hash in s.inFlight && s.inFlight[hash].node in s.nodes then
      var id := s.inFlight[hash].node;
      var st := s.nodes[id];
      s.(nodes := s.nodes[id := st.(vBlocksInFlight := Erased(st.vBlocksInFlight, s.inFlight[hash].at),
                                    nBlocksInFlight := st.nBlocksInFlight - 1,
                                    nLastBlockReceive := if id == nodeFrom then now else st.nLastBlockReceive)],
         inFlight := s.inFlight - {hash})
    else s
  }

  function Received(s: State, hash: Hash, nodeFrom: int, now: int): State {
    Landed(Dequeued(s, hash), hash, nodeFrom, now)
  }

  function MayQueue(s: State, id: NodeId, hash: Hash): bool {
    hash !in s.toDownload && hash !in s.inFlight && id in s.nodes
  }

  function Enqueued(s: State, id: NodeId, hash: Hash): State {
    if MayQueue(s, id, hash) then
      var st := s.nodes[id];
      s.(nodes := s.nodes[id := st.(vBlocksToDownload := st.vBlocksToDownload + [Waiting(s.next, hash)],
                                    nBlocksToDownload := st.nBlocksToDownload + 1)],
         toDownload := s.toDownload[hash := Handle(id, s.next)], next := s.next + 1)
    else s
  }

  /** The request itself, of a block that is listed nowhere. */
  function Launched(s: State, id: NodeId, hash: Hash, now: int): State
    requires id in s.nodes
  {
    var st := s.nodes[id];
    s.(nodes := s.nodes[id := st.(vBlocksInFlight := st.vBlocksInFlight
                                                     + [InFlight(s.next, hash, now, st.nBlocksInFlight)],
                                  nBlocksInFlight := st.nBlocksInFlight + 1,
                                  nLastBlockReceive := if st.nBlocksInFlight == 0 then now else st.nLastBlockReceive)],
       inFlight := s.inFlight[hash := Handle(id, s.next)], next := s.next + 1)
  }

  lemma ReceivedNodes(s: State, hash: Hash, nodeFrom: int, now: int)
    ensures Received(s, hash, nodeFrom, now).nodes.Keys == s.nodes.Keys
  {
  }

  function Requested(s: State, id: NodeId, hash: Hash, now: int): State
    requires id in s.nodes
  {
    ReceivedNodes(s, hash, -1, now);
    Launched(Received(s, hash, -1, now), id, hash, now)
  }

  // ---------- every event keeps the state in order ----------

  lemma InitializedInv(s: State, id: NodeId)
    requires Inv(s)
    ensures Inv(Initialized(s, id))
  {
    if id !in s.nodes {
      AddInverse(Flying(s.nodes), s.inFlight, s.next, id);
      AddInverse(Queued(s.nodes), s.toDownload, s.next, id);
      assert Flying(s.nodes[id := NEWNODE]) == Flying(s.nodes)[id := []];
      assert Queued(s.nodes[id := NEWNODE]) == Queued(s.nodes)[id := []];
      hide Inverse, Flying, Queued;
    }
  }

  lemma FinalizedInv(s: State, id: NodeId)
    requires Inv(s) && id in s.nodes
    ensures Inv(Finalized(s, id))
    ensures forall hash :: hash in Finalized(s, id).inFlight ==> Finalized(s, id).inFlight[hash].node != id
    ensures forall hash :: hash in Finalized(s, id).toDownload ==> Finalized(s, id).toDownload[hash].node != id
  {
    hide Inverse;
    RemoveInverse(Flying(s.nodes), s.inFlight, s.next, id);
    RemoveInverse(Queued(s.nodes), s.toDownload, s.next, id);
    assert Flying(s.nodes - {id}) == Flying(s.nodes) - {id};
    assert Queued(s.nodes - {id}) == Queued(s.nodes) - {id};
  }

  /** A change to one peer that touches one kind of list only. */
  lemma ListsAfter(nodes: map<NodeId, NodeState>, id: NodeId, st: NodeState)
    requires id in nodes
    ensures Flying(nodes[id := st]) == Flying(nodes)[id := st.vBlocksInFlight]
    ensures Queued(nodes[id := st]) == Queued(nodes)[id := st.vBlocksToDownload]
    ensures st.vBlocksInFlight == nodes[id].vBlocksInFlight ==> Flying(nodes[id := st]) == Flying(nodes)
    ensures st.vBlocksToDownload == nodes[id].vBlocksToDownload ==> Queued(nodes[id := st]) == Queued(nodes)
  {
  }

  lemma DequeuedInv(s: State, hash: Hash)
    requires Inv(s)
    ensures Inv(Dequeued(s, hash)) && Dequeued(s, hash).toDownload == s.toDownload - {hash}
    ensures Dequeued(s, hash).inFlight == s.inFlight && Flying(Dequeued(s, hash).nodes) == Flying(s.nodes)
  {
    hide Inverse;
    if hash in s.toDownload {
      EraseInverse(Queued(s.nodes), s.toDownload, s.next, hash);
      var id := s.toDownload[hash].node;
      ListsAfter(s.nodes, id, Dequeued(s, hash).nodes[id]);
    }
  }

  lemma LandedInv(s: State, hash: Hash, nodeFrom: int, now: int)
    requires Inv(s)
    ensures Inv(Landed(s, hash, nodeFrom, now)) && Landed(s, hash, nodeFrom, now).inFlight == s.inFlight - {hash}
    ensures Landed(s, hash, nodeFrom, now).toDownload == s.toDownload
    ensures Queued(Landed(s, hash, nodeFrom, now).nodes) == Queued(s.nodes)
  {
    hide Inverse;
    if hash in s.inFlight {
      EraseInverse(Flying(s.nodes), s.inFlight, s.next, hash);
      var id := s.inFlight[hash].node;
      ListsAfter(s.nodes, id, Landed(s, hash, nodeFrom, now).nodes[id]);
    }
  }

  /** A block that has arrived is listed nowhere, and nothing else is forgotten. */
  lemma ReceivedInv(s: State, hash: Hash, nodeFrom: int, now: int)
    requires Inv(s)
    ensures var s' := Received(s, hash, nodeFrom, now);
            Inv(s') && s'.toDownload == s.toDownload - {hash} && s'.inFlight == s.inFlight - {hash}
  {
    hide Inv, Dequeued, Landed;
    DequeuedInv(s, hash);
    LandedInv(Dequeued(s, hash), hash, nodeFrom, now);
  }

  lemma EnqueuedInv(s: State, id: NodeId, hash: Hash)
    requires Inv(s)
    ensures Inv(Enqueued(s, id, hash))
  {
    hide Inverse;
    if MayQueue(s, id, hash) {
      InsertInverse(Queued(s.nodes), s.toDownload, s.next, id, Waiting(s.next, hash));
      LaterInverse(Flying(s.nodes), s.inFlight, s.next);
      ListsAfter(s.nodes, id, Enqueued(s, id, hash).nodes[id]);
    }
  }

  lemma LaunchedInv(s: State, id: NodeId, hash: Hash, now: int)
    requires Inv(s) && id in s.nodes && hash !in s.inFlight && hash !in s.toDownload
    ensures Inv(Launched(s, id, hash, now))
  {
    hide Inverse;
    InsertInverse(Flying(s.nodes), s.inFlight, s.next, id, InFlight(s.next, hash, now, s.nodes[id].nBlocksInFlight));
    LaterInverse(Queued(s.nodes), s.toDownload, s.next);
    ListsAfter(s.nodes, id, Launched(s, id, hash, now).nodes[id]);
  }

  lemma RequestedInv(s: State, id: NodeId, hash: Hash, now: int)
    requires Inv(s) && id in s.nodes
    ensures Inv(Requested(s, id, hash, now))
  {
    hide Inv, Received, Launched;
    ReceivedNodes(s, hash, -1, now);
    ReceivedInv(s, hash, -1, now);
    LaunchedInv(Received(s, hash, -1, now), id, hash, now);
  }

  // ---------- runs ----------

  datatype Event = Connect(id: NodeId)
                 | Disconnect(id: NodeId)
                 | Announced(id: NodeId, hash: Hash)
                 | Arrived(hash: Hash, nodeFrom: int, now: int)
                 | Send(id: NodeId, times: seq<int>)

  /** The request for the first block of the peer's queue. */
  function FrontRequested(s: State, id: NodeId, now: int): State
    requires id in s.nodes && s.nodes[id].vBlocksToDownload != []
  {
    Requested(s, id, s.nodes[id].vBlocksToDownload[0].hash, now)
  }

  predicate MaySend(s: State, id: NodeId) {
    && id in s.nodes && s.nodes[id].vBlocksToDownload != []
    && s.nodes[id].nBlocksInFlight < MAX_BLOCKS_IN_TRANSIT_PER_PEER
  }

  /** Requests as long as there is something to ask for and room to ask; each takes the time
      it is made at. */
  function Sent(s: State, id: NodeId, times: seq<int>): State
    decreases |times|
  {
    if times == [] || !MaySend(s, id) then s else Sent(FrontRequested(s, id, times[0]), id, times[1..])
  }

  function After(s: State, e: Event): State {
    match e
    case Connect(id) => Initialized(s, id)
    case Disconnect(id) => if id in s.nodes then Finalized(s, id) else s
    case Announced(id, hash) => Enqueued(s, id, hash)
    case Arrived(hash, nodeFrom, now) => Received(s, hash, nodeFrom, now)
    case Send(id, times) => Sent(s, id, times)
  }

  function AfterAll(s: State, events: seq<Event>): State
    decreases |events|
  {
    if events == [] then s else AfterAll(After(s, events[0]), events[1..])
  }

  lemma RequestedBounded(s: State, id: NodeId, hash: Hash, now: int)
    requires Inv(s) && Bounded(s) && id in s.nodes && s.nodes[id].nBlocksInFlight < MAX_BLOCKS_IN_TRANSIT_PER_PEER
    ensures Bounded(Requested(s, id, hash, now))
  {
  }

  lemma {:induction false} SentInv(s: State, id: NodeId, times: seq<int>)
    requires Inv(s) && Bounded(s)
    ensures Inv(Sent(s, id, times)) && Bounded(Sent(s, id, times))
    decreases |times|
  {
    hide Inv, Bounded, Requested;
    if times != [] && MaySend(s, id) {
      var hash := s.nodes[id].vBlocksToDownload[0].hash;
      RequestedInv(s, id, hash, times[0]);
      RequestedBounded(s, id, hash, times[0]);
      SentInv(FrontRequested(s, id, times[0]), id, times[1..]);
    }
  }

  lemma AfterBounded(s: State, e: Event)
    requires Inv(s) && Bounded(s)
    ensures Bounded(After(s, e))
  {
    hide Inverse, Erased, Sent;
    match e
    case Send(id, times) => SentInv(s, id, times);
    case _ =>
  }

  lemma AfterInv(s: State, e: Event)
    requires Inv(s) && Bounded(s)
    ensures Inv(After(s, e)) && Bounded(After(s, e))
  {
    hide Inv, Bounded, Sent, Initialized, Finalized, Enqueued, Received;
    AfterBounded(s, e);
    match e
    case Connect(id) => InitializedInv(s, id);
    case Disconnect(id) => if id in s.nodes { FinalizedInv(s, id); }
    case Announced(id, hash) => EnqueuedInv(s, id, hash);
    case Arrived(hash, nodeFrom, now) => ReceivedInv(s, hash, nodeFrom, now);
    case Send(id, times) => SentInv(s, id, times);
  }

  /** Whatever happens in whatever order, with any number of peers, the bookkeeping is in
      order: the maps and the lists are inverse, no block is listed twice, the counters are
      exact, and no peer owes more than 128 blocks. */
  lemma {:induction false} AfterAllInv(s: State, events: seq<Event>)
    requires Inv(s) && Bounded(s)
    ensures Inv(AfterAll(s, events)) && Bounded(AfterAll(s, events))
    decreases |events|
  {
    hide Inv, Bounded, After;
    if events != [] {
      AfterInv(s, events[0]);
      AfterAllInv(After(s, events[0]), events[1..]);
    }
  }

  /** What the invariant says of one block: it is wanted in one place at most, and there by
      one peer only. */
  lemma OnePlace(s: State, hash: Hash, id1: NodeId, id2: NodeId, c1: Cell, c2: Cell)
    requires Inv(s) && id1 in s.nodes && id2 in s.nodes && c1.hash == hash && c2.hash == hash
    requires c1 in s.nodes[id1].vBlocksInFlight + s.nodes[id1].vBlocksToDownload
    requires c2 in s.nodes[id2].vBlocksInFlight + s.nodes[id2].vBlocksToDownload
    ensures id1 == id2 && c1 == c2
  {
    CellOwner(s, id1, c1);
    CellOwner(s, id2, c2);
    if c1 in s.nodes[id1].vBlocksInFlight {
      SameAt(Flying(s.nodes)[id1], s.next, c1, c2);
    } else {
      SameAt(Queued(s.nodes)[id1], s.next, c1, c2);
    }
  }

  lemma CellOwner(s: State, id: NodeId, c: Cell)
    requires Inv(s) && id in s.nodes
    ensures c in s.nodes[id].vBlocksInFlight ==> c.hash in s.inFlight && s.inFlight[c.hash] == Handle(id, c.at)
    ensures c in s.nodes[id].vBlocksToDownload ==> c.hash in s.toDownload && s.toDownload[c.hash] == Handle(id, c.at)
  {
    if c in s.nodes[id].vBlocksInFlight {
      var i :| 0 <= i < |Flying(s.nodes)[id]| && Flying(s.nodes)[id][i] == c;
    }
    if c in s.nodes[id].vBlocksToDownload {
      var i :| 0 <= i < |Queued(s.nodes)[id]| && Queued(s.nodes)[id][i] == c;
    }
  }

  lemma SameAt(cells: seq<Cell>, next: nat, c1: Cell, c2: Cell)
    requires OneByOne(cells, next) && c1 in cells && c2 in cells && c1.at == c2.at
    ensures c1 == c2
  {
  }

  // ---------- what one round of requests does ----------

  /** The first block of the queue goes to the end of the list of requests. */
  lemma FrontMoves(s: State, id: NodeId, now: int)
    requires Inv(s) && id in s.nodes && s.nodes[id].vBlocksToDownload != []
    ensures var st, hash := s.nodes[id], s.nodes[id].vBlocksToDownload[0].hash;
            FrontRequested(s, id, now).nodes == s.nodes[id :=
              st.(vBlocksToDownload := st.vBlocksToDownload[1..], nBlocksToDownload := st.nBlocksToDownload - 1,
                  vBlocksInFlight := st.vBlocksInFlight + [InFlight(s.next, hash, now, st.nBlocksInFlight)],
                  nBlocksInFlight := st.nBlocksInFlight + 1,
                  nLastBlockReceive := if st.nBlocksInFlight == 0 then now else st.nLastBlockReceive)]
    ensures FrontRequested(s, id, now).next == s.next + 1
  {
    var c := s.nodes[id].vBlocksToDownload[0];
    assert c in s.nodes[id].vBlocksToDownload;
    CellOwner(s, id, c);
    hide Inverse;
    assert c.hash !in s.inFlight;
  }

  lemma FrontInv(s: State, id: NodeId, now: int)
    requires Inv(s) && Bounded(s) && MaySend(s, id)
    ensures Inv(FrontRequested(s, id, now)) && Bounded(FrontRequested(s, id, now))
  {
    hide Inv, Bounded, Requested;
    RequestedInv(s, id, s.nodes[id].vBlocksToDownload[0].hash, now);
    RequestedBounded(s, id, s.nodes[id].vBlocksToDownload[0].hash, now);
  }

  /** The requests for the first k blocks of a queue. */
  ghost function Requests(queue: seq<Cell>, times: seq<int>, next: nat, before: nat, k: nat): seq<Cell>
    requires k <= |queue| && k <= |times|
  {
    seq(k, i requires 0 <= i < k => InFlight(next + i, queue[i].hash, times[i], before + i))
  }

  /** k requests were made of one peer, in the order of its queue, and no other was touched. */
  ghost predicate SentOk(s: State, s': State, id: NodeId, times: seq<int>, k: nat)
    requires id in s.nodes && k <= |s.nodes[id].vBlocksToDownload| && k <= |times|
  {
    var st := s.nodes[id];
    && s'.nodes.Keys == s.nodes.Keys && (forall j :: j in s.nodes && j != id ==> s'.nodes[j] == s.nodes[j])
    && s'.nodes[id].vBlocksToDownload == st.vBlocksToDownload[k..]
    && s'.nodes[id].vBlocksInFlight
       == st.vBlocksInFlight + Requests(st.vBlocksToDownload, times, s.next, |st.vBlocksInFlight|, k)
  }

  lemma RequestsCons(queue: seq<Cell>, times: seq<int>, next: nat, before: nat, k: nat)
    requires 0 < k <= |queue| && k <= |times|
    ensures Requests(queue, times, next, before, k)
         == [InFlight(next, queue[0].hash, times[0], before)]
            + Requests(queue[1..], times[1..], next + 1, before + 1, k - 1)
  {
  }

  lemma SentOkMore(s: State, s1: State, s': State, id: NodeId, times: seq<int>, k: nat)
    requires id in s.nodes && 0 < k <= |s.nodes[id].vBlocksToDownload| && k <= |times|
    requires FrontOk(s, s1, id, times[0])
    requires SentOk(s1, s', id, times[1..], k - 1)
    ensures SentOk(s, s', id, times, k)
  {
    var queue, flying := s.nodes[id].vBlocksToDownload, s.nodes[id].vBlocksInFlight;
    RequestsCons(queue, times, s.next, |flying|, k);
    hide Requests;
    var first := InFlight(s.next, queue[0].hash, times[0], |flying|);
    var rest := Requests(queue[1..], times[1..], s.next + 1, |flying| + 1, k - 1);
    assert flying + [first] + rest == flying + ([first] + rest);
  }

  ghost predicate FrontOk(s: State, s1: State, id: NodeId, now: int)
    requires id in s.nodes && s.nodes[id].vBlocksToDownload != []
  {
    && s1.nodes.Keys == s.nodes.Keys && s1.next == s.next + 1
    && (forall j :: j in s.nodes && j != id ==> s1.nodes[j] == s.nodes[j])
    && s1.nodes[id].vBlocksToDownload == s.nodes[id].vBlocksToDownload[1..]
    && s1.nodes[id].vBlocksInFlight == s.nodes[id].vBlocksInFlight
         + [InFlight(s.next, s.nodes[id].vBlocksToDownload[0].hash, now, |s.nodes[id].vBlocksInFlight|)]
  }

  lemma FrontIsOk(s: State, id: NodeId, now: int)
    requires Inv(s) && id in s.nodes && s.nodes[id].vBlocksToDownload != []
    ensures FrontOk(s, FrontRequested(s, id, now), id, now)
  {
    assert Counts(s.nodes);
    hide Inv, FrontRequested;
    FrontMoves(s, id, now);
  }

  lemma SentOkNone(s: State, id: NodeId, times: seq<int>)
    requires id in s.nodes
    ensures SentOk(s, s, id, times, 0)
  {
  }

  /** Given enough time stamps, one round asks for as many blocks as fit, in the order they
      were queued, and touches no other peer. */
  lemma {:induction false} SentIs(s: State, id: NodeId, times: seq<int>, k: nat)
    requires Inv(s) && Bounded(s) && id in s.nodes
    requires k <= |times|
    requires k == Min(|s.nodes[id].vBlocksToDownload|,
                      MAX_BLOCKS_IN_TRANSIT_PER_PEER - |s.nodes[id].vBlocksInFlight|)
    ensures SentOk(s, Sent(s, id, times), id, times, k)
    decreases |times|
  {
    hide Inv, Bounded, FrontRequested, SentOk, Requested;
    SendingIs(s, id, k);
    if k > 0 {
      var s1 := FrontRequested(s, id, times[0]);
      FrontIsOk(s, id, times[0]);
      FrontInv(s, id, times[0]);
      SentIs(s1, id, times[1..], k - 1);
      SentOkMore(s, s1, Sent(s1, id, times[1..]), id, times, k);
    } else {
      SentOkNone(s, id, times);
    }
  }

  lemma SendingIs(s: State, id: NodeId, k: nat)
    requires Inv(s) && Bounded(s) && id in s.nodes
    requires k == Min(|s.nodes[id].vBlocksToDownload|, MAX_BLOCKS_IN_TRANSIT_PER_PEER - |s.nodes[id].vBlocksInFlight|)
    ensures k > 0 <==> MaySend(s, id)
  {
    assert Counts(s.nodes);
    hide Inverse;
  }
}
