/** encodeBinary and decodeBinary on the heap, proved against the snapshot format. */
module EncodeBinary {
  import opened Bytes
  import opened Storage
  import opened PeerDb
  import opened Codec
  import opened Snapshot
  import opened GoMap

  // ---------- Writing ----------

  /** The format of all swarms and all their peers, each once, in some order. */
  ghost predicate SnapshotOf(data: seq<Byte>, swarms: map<Hash, Swarm>) {
    exists blocks :: data == Snapshot.Encode(blocks) && Lists(blocks, swarms)
  }

  /** The snapshot of the database, in an arbitrary iteration order. */
  method Encode(db: Memory) returns (data: seq<Byte>)
    requires db.Valid()
    ensures SnapshotOf(data, db.view.swarms)
  {
    ghost var blocks := [];
    data := [];
    var todo := db.hashmap.Keys;
    ghost var swarms := db.view.swarms;
    WrittenNothing(swarms);
    while todo != {}
      invariant todo <= swarms.Keys && Written(data, blocks, swarms, todo)
      decreases todo
    {
      var hash :| hash in todo;
      var block, b := EncodeSwarm(db, hash);
      WrittenStep(data, blocks, swarms, todo, block, b);
      todo, data, blocks := todo - {hash}, data + block, blocks + [b];
    }
    WrittenAll(data, blocks, swarms);
  }

  lemma WrittenAll(data: seq<Byte>, blocks: seq<Block>, swarms: map<Hash, Swarm>)
    requires Written(data, blocks, swarms, {})
    ensures data == Snapshot.Encode(blocks) && Lists(blocks, swarms)
  {
    assert swarms - {} == swarms;
  }

  /** All swarms but those in `todo` are written. */
  ghost predicate Written(data: seq<Byte>, blocks: seq<Block>, swarms: map<Hash, Swarm>, todo: set<Hash>) {
    data == Snapshot.Encode(blocks) && Lists(blocks, swarms - todo)
  }

  lemma WrittenStep(data: seq<Byte>, blocks: seq<Block>, swarms: map<Hash, Swarm>, todo: set<Hash>, block: seq<Byte>,
                    b: Block)
    requires Written(data, blocks, swarms, todo) && block == EncodeBlock(b)
    requires b.hash in todo && todo <= swarms.Keys && ListsPeers(b.peers, swarms[b.hash].peers)
    ensures Written(data + block, blocks + [b], swarms, todo - {b.hash})
  {
    ListsStep(blocks, swarms, todo, b);
    WriteManySnoc(EncodeBlock, blocks, b);
  }

  method EncodeSwarm(db: Memory, hash: Hash) returns (data: seq<Byte>, ghost b: Block)
    requires db.Valid() && hash in db.hashmap
    ensures data == EncodeBlock(b) && b.hash == hash && ListsPeers(b.peers, db.view.swarms[hash].peers)
  {
    HoldsSwarm(db, hash);
    var swarm := db.hashmap[hash].Peers;
    ghost var stored := db.view.swarms[hash].peers;
    var header := hash.bytes + LittleEndian(U32(|swarm|), 4);
    ghost var ps;
    var body;
    body, ps := EncodePeers(swarm, stored);
    assert |swarm| == |swarm.Keys| && |stored| == |stored.Keys|;
    b := Block(hash, ps);
    data := header + body;
    assert data == hash.bytes + (LittleEndian(U32(|ps|), 4) + body);
  }

  method EncodePeers(swarm: map<PeerID, Peer>, ghost stored: map<PeerID, Entry>)
    returns (body: seq<Byte>, ghost ps: seq<PeerRecord>)
    requires Holds(swarm, stored)
    ensures body == WriteMany(EncodePeer, ps) && ListsPeers(ps, stored)
  {
    body, ps := [], [];
    var todo := swarm.Keys;
    assert stored - todo == map[];
    while todo != {}
      invariant todo <= swarm.Keys
      invariant body == WriteMany(EncodePeer, ps) && ListsPeers(ps, stored - todo)
    {
      var id :| id in todo;
      ListsPeersStep(ps, stored, todo, id);
      WriteManySnoc(EncodePeer, ps, (id, swarm[id].data));
      var record := EncodeRecord(id, swarm[id]);
      todo, body, ps := todo - {id}, body + record, ps + [(id, swarm[id].data)];
    }
    assert stored - {} == stored;
  }

  /** The fields of one peer, in their order. */
  method EncodeRecord(id: PeerID, peer: Peer) returns (record: seq<Byte>)
    ensures record == EncodePeer((id, peer.data))
  {
    var ip := peer.data.ip.AsSlice();
    record := id.bytes;
    record := record + ([if peer.data.complete then 1 else 0]
              + (LittleEndian(|ip|, 4) + ip
              + (LittleEndian(peer.data.port, 2) + LittleEndian(U64(peer.data.lastSeen), 8))));
  }

  lemma WrittenNothing(swarms: map<Hash, Swarm>)
    ensures Written([], [], swarms, swarms.Keys)
  {
    assert Hashes([]) == {} && swarms - swarms.Keys == map[];
  }

  lemma ListsStep(blocks: seq<Block>, swarms: map<Hash, Swarm>, todo: set<Hash>, b: Block)
    requires b.hash in todo && todo <= swarms.Keys && ListsPeers(b.peers, swarms[b.hash].peers)
    requires Lists(blocks, swarms - todo)
    ensures Lists(blocks + [b], swarms - (todo - {b.hash}))
  {
    var before, after := swarms - todo, swarms - (todo - {b.hash});
    NextOf(swarms, todo, b.hash);
    OneMore(before, after, b.hash);
    HashesStep(blocks, b);
    forall c | c in blocks ensures c.hash in before {
      assert c.hash in Hashes(blocks);
    }
    ListedStill(blocks, before, after, b);
  }

  lemma HashesStep(blocks: seq<Block>, b: Block)
    ensures Hashes(blocks + [b]) == Hashes(blocks) + {b.hash}
  {
    HashesSnoc(blocks + [b]);
    assert (blocks + [b])[..|blocks|] == blocks;
  }

  lemma ListedStill(blocks: seq<Block>, before: map<Hash, Swarm>, after: map<Hash, Swarm>, b: Block)
    requires forall c | c in blocks :: c.hash in before && ListsPeers(c.peers, before[c.hash].peers)
    requires b.hash in after && before == after - {b.hash} && ListsPeers(b.peers, after[b.hash].peers)
    ensures forall c | c in blocks + [b] :: c.hash in after && ListsPeers(c.peers, after[c.hash].peers)
  {
    forall c | c in blocks + [b] ensures c.hash in after && ListsPeers(c.peers, after[c.hash].peers) {
      if c in blocks {
        assert before[c.hash] == after[c.hash];
      } else {
        assert c == b;
      }
    }
  }

  lemma NextOf<K(!new), V>(m: map<K, V>, todo: set<K>, k: K)
    requires k in todo && todo <= m.Keys
    ensures k in m - (todo - {k}) && (m - (todo - {k}))[k] == m[k] && k !in m - todo
    ensures m - todo == m - (todo - {k}) - {k}
  {
  }

  lemma OneMore<K, V>(before: map<K, V>, after: map<K, V>, k: K)
    requires k in after && before == after - {k} && k !in before
    ensures after.Keys == before.Keys + {k} && |after| == |before| + 1
  {
    assert after.Keys == before.Keys + {k};
    assert |after| == |after.Keys| && |before| == |before.Keys|;
  }

  lemma ListsPeersStep(ps: seq<PeerRecord>, peers: map<PeerID, Entry>, todo: set<PeerID>, id: PeerID)
    requires id in todo && todo <= peers.Keys && ListsPeers(ps, peers - todo)
    ensures ListsPeers(ps + [(id, peers[id])], peers - (todo - {id}))
  {
    assert (ps + [(id, peers[id])])[..|ps|] == ps;
    var before, after := peers - todo, peers - (todo - {id});
    assert after == before[id := peers[id]];
    assert after.Keys == before.Keys + {id};
    assert |after| == |after.Keys| && |before| == |before.Keys|;
  }

  // ---------- Reading ----------

  method ReadAddr(reader: Reader) returns (r: Read<Addr>)
    requires reader.Valid()
    modifies reader
    ensures reader.Valid() && r == DecodeAddr(old(reader.Rest()))
    ensures r.Got? ==> reader.Rest() == r.rest
  {
    var length := reader.ReadInt(4);
    if length.Failed? {
      return Failed(length.error);
    }
    if I32(length.value) < 0 {
      return Failed(Panic);
    }
    var addr := reader.Read(I32(length.value));
    if addr.Failed? {
      return Failed(addr.error);
    }
    var ip := AddrFromSlice(addr.value);
    r := if ip.None? then Failed(BadAddress) else Got(ip.value, addr.rest);
  }

  method ReadEntry(reader: Reader) returns (r: Read<Entry>)
    requires reader.Valid()
    modifies reader
    ensures reader.Valid() && r == DecodeEntry(old(reader.Rest()))
    ensures r.Got? ==> reader.Rest() == r.rest
  {
    var complete := reader.Read(1);
    if complete.Failed? {
      return Failed(complete.error);
    }
    var ip := ReadAddr(reader);
    if ip.Failed? {
      return Failed(ip.error);
    }
    var port := reader.ReadInt(2);
    if port.Failed? {
      return Failed(port.error);
    }
    var lastSeen := reader.ReadInt(8);
    if lastSeen.Failed? {
      return Failed(lastSeen.error);
    }
    r := Got(Entry(complete.value[0] != 0, ip.value, U16(port.value), I64(lastSeen.value)), lastSeen.rest);
  }

  /** One turn of the peer loop. */
  method DecodeOnePeer(db: Memory, reader: Reader, hash: Hash, ghost read: seq<Byte> -> Read<PeerRecord>)
    returns (r: Read<PeerRecord>)
    requires db.Valid() && reader.Valid() && hash in db.hashmap && reader !in db.Repr && Same(read, DecodePeer)
    modifies reader, db.Repr
    ensures db.Valid() && reader.Valid() && hash in db.hashmap && fresh(db.Repr - old(db.Repr))
    ensures r == read(old(reader.Rest())) && (r.Got? ==> reader.Rest() == r.rest)
    ensures db.view == if r.Got? then PutPeer(old(db.view), hash, r.value) else old(db.view)
  {
    assert Shown(reader.Rest());
    var id := reader.Read(20);
    if id.Failed? {
      return Failed(id.error);
    }
    var peer := db.TakePeer(hash, PeerID(id.value));
    assert db.Repr - old(db.Repr) <= {peer};
    var e := LoadEntry(db, reader, hash, PeerID(id.value), peer);
    r := if e.Failed? then Failed(e.error) else Got((PeerID(id.value), e.value), e.rest);
  }

  /** The rest of a peer, into its object. On a failure the object is lost. */
  method LoadEntry(db: Memory, reader: Reader, hash: Hash, id: PeerID, peer: Peer) returns (e: Read<Entry>)
    requires db.Valid() && reader.Valid() && hash in db.hashmap && db.Reserved(peer, hash, id)
    modifies reader, db`hashmap, db`view, peer`data
    ensures db.Valid() && reader.Valid() && hash in db.hashmap
    ensures e == DecodeEntry(old(reader.Rest())) && (e.Got? ==> reader.Rest() == e.rest)
    ensures db.view == if e.Got? then PutPeer(old(db.view), hash, (id, e.value)) else old(db.view)
  {
    e := ReadEntry(reader);
    if e.Got? {
      db.Load(hash, id, peer, e.value);
    }
  }

  /** The peer loop of one block. */
  method DecodePeers(db: Memory, reader: Reader, hash: Hash, count: nat, ghost read: seq<Byte> -> Read<PeerRecord>)
    returns (n: nat, complete: uint16, error: Option<Error>)
    requires db.Valid() && reader.Valid() && reader !in db.Repr && Same(read, DecodePeer)
    requires hash in db.hashmap && db.view.swarms[hash] == EMPTY_SWARM
    modifies reader, db.Repr
    ensures db.Valid() && reader.Valid() && hash in db.hashmap && fresh(db.Repr - old(db.Repr))
    ensures var r := ReadMany(read, old(reader.Rest()), count);
            && n == |r.items| && complete == U16(Completes(r.items)) && error == r.error
            && (r.error.None? ==> reader.Rest() == r.rest)
            && db.view == Put(old(db.view), hash, Swarm(0, 0, AddPeers(r.items)))
  {
    ghost var before, all := db.view, ReadMany(read, reader.Rest(), count);
    PeersLoopStart(read, before, hash, reader.Rest(), count);
    ghost var items;
    n, complete, error, items := PeersOneByOne(db, reader, hash, count, read, before, all);
  }

  method PeersOneByOne(db: Memory, reader: Reader, hash: Hash, count: nat, ghost read: seq<Byte> -> Read<PeerRecord>,
                       ghost before: Db, ghost all: Many<PeerRecord>)
    returns (n: nat, complete: uint16, error: Option<Error>, ghost items: seq<PeerRecord>)
    requires db.Valid() && reader.Valid() && reader !in db.Repr && Same(read, DecodePeer)
    requires hash in db.hashmap && hash in before.swarms
    requires PeersLoop(read, before, db.view, hash, all, [], reader.Rest(), count, 0, 0)
    modifies reader, db.Repr
    ensures db.Valid() && reader.Valid() && hash in db.hashmap && fresh(db.Repr - old(db.Repr))
    ensures all.items == items && all.error == error && (error.None? ==> reader.Rest() == all.rest)
    ensures n == |items| && complete == U16(Completes(items))
    ensures db.view == Put(before, hash, Swarm(0, 0, AddPeers(items)))
  {
    n, complete, error, items := 0, 0, None, [];
    var left := count;
    while left > 0
      invariant db.Valid() && reader.Valid() && hash in db.hashmap
      invariant fresh(db.Repr - old(db.Repr)) && reader !in db.Repr
      invariant PeersLoop(read, before, db.view, hash, all, items, reader.Rest(), left, n, complete)
    {
      var p := PeerTurn(db, reader, hash, read, before, all, items, left, n, complete);
      if p.Failed? {
        return n, complete, Some(p.error), items;
      }
      n, complete, left := n + 1, Counted(complete, p.value), left - 1;
      items := items + [p.value];
    }
    PeersLoopEnd(read, before, db.view, hash, all, items, reader.Rest(), n, complete);
  }

  function Counted(complete: uint16, p: PeerRecord): uint16 {
    if p.1.complete then U16(complete + 1) else complete
  }

  /** One turn of the loop. */
  method PeerTurn(db: Memory, reader: Reader, hash: Hash, ghost read: seq<Byte> -> Read<PeerRecord>, ghost before: Db,
                  ghost all: Many<PeerRecord>, ghost items: seq<PeerRecord>, ghost left: nat, ghost n: nat,
                  ghost complete: uint16)
    returns (p: Read<PeerRecord>)
    requires db.Valid() && reader.Valid() && hash in db.hashmap && reader !in db.Repr && Same(read, DecodePeer)
    requires PeersLoop(read, before, db.view, hash, all, items, reader.Rest(), left, n, complete)
    requires left > 0 && hash in before.swarms
    modifies reader, db.Repr
    ensures db.Valid() && reader.Valid() && hash in db.hashmap && fresh(db.Repr - old(db.Repr))
    ensures p.Got? ==> PeersLoop(read, before, db.view, hash, all, items + [p.value], reader.Rest(), left - 1, n + 1,
                                 Counted(complete, p.value))
    ensures p.Failed? ==> all.items == items && all.error == Some(p.error) && db.view == old(db.view)
  {
    PeersLoopStep(read, before, db.view, hash, all, items, reader.Rest(), left, n, complete);
    p := DecodeOnePeer(db, reader, hash, read);
  }

  /** The peer loop after `items`, with `left` peers to read from `s`. */
  ghost predicate PeersLoop(read: seq<Byte> -> Read<PeerRecord>, before: Db, now: Db, hash: Hash, all: Many<PeerRecord>,
                            items: seq<PeerRecord>, s: seq<Byte>, left: nat, n: nat, complete: uint16)
  {
    && Resumes(read, all, items, s, left)
    && n == |items| && complete == U16(Completes(items))
    && now == Put(before, hash, Swarm(0, 0, AddPeers(items)))
  }

  lemma PeersLoopStart(read: seq<Byte> -> Read<PeerRecord>, db: Db, hash: Hash, s: seq<Byte>, count: nat)
    requires hash in db.swarms && db.swarms[hash] == EMPTY_SWARM
    ensures PeersLoop(read, db, db, hash, ReadMany(read, s, count), [], s, count, 0, 0)
  {
    var r := ReadMany(read, s, count);
    assert [] + r.items == r.items;
    assert db.swarms[hash := Swarm(0, 0, AddPeers([]))] == db.swarms;
  }

  lemma PeersLoopEnd(read: seq<Byte> -> Read<PeerRecord>, before: Db, now: Db, hash: Hash, all: Many<PeerRecord>,
                     items: seq<PeerRecord>, s: seq<Byte>, n: nat, complete: uint16)
    requires PeersLoop(read, before, now, hash, all, items, s, 0, n, complete)
    ensures all == Many(items, s, None)
  {
    assert items + [] == items;
  }

  lemma PeersLoopStep(read: seq<Byte> -> Read<PeerRecord>, before: Db, now: Db, hash: Hash, all: Many<PeerRecord>,
                      items: seq<PeerRecord>, s: seq<Byte>, left: nat, n: nat, complete: uint16)
    requires PeersLoop(read, before, now, hash, all, items, s, left, n, complete) && left > 0 && hash in before.swarms
    ensures match read(s)
            case Got(p, rest) =>
              hash in now.swarms &&
              PeersLoop(read, before, PutPeer(now, hash, p), hash, all, items + [p], rest, left - 1, n + 1,
                        Counted(complete, p))
            case Failed(e) => all == Many(items, s, Some(e))
  {
    ResumesStep(read, all, items, s, left);
    if read(s).Got? {
      PutNext(before, hash, items, read(s).value);
    }
  }

  lemma PutNext(db: Db, hash: Hash, items: seq<PeerRecord>, p: PeerRecord)
    requires hash in db.swarms
    ensures PutPeer(Put(db, hash, Swarm(0, 0, AddPeers(items))), hash, p) ==
        Put(db, hash, Swarm(0, 0, AddPeers(items + [p])))
    ensures Completes(items + [p]) == Completes(items) + One(p.1.complete)
  {
    assert (items + [p])[..|items|] == items;
    var sw, after := Swarm(0, 0, AddPeers(items)), Swarm(0, 0, AddPeers(items + [p]));
    assert db.swarms[hash := sw][hash := after] == db.swarms[hash := after];
  }

  ghost function PutPeer(db: Db, hash: Hash, p: PeerRecord): Db
    requires hash in db.swarms
  {
    Put(db, hash, db.swarms[hash].(peers := db.swarms[hash].peers[p.0 := p.1]))
  }

  /** How one turn of the block loop ends. */
  datatype Turn = Done | Next | Stop(error: Error)

  /** A block changes the table as it is read: its swarm is entered with zero counters,
      filled, and given its counters at the end. */
  ghost predicate Turned(step: Step<Block, Partial>, before: map<Hash, Swarm>, after: map<Hash, Swarm>, n: nat,
                         turn: Turn) {
    match step
    case End => turn == Done && after == before && n == 0
    case Whole(b, _) => turn == Next && after == before[b.hash := Rebuilt(b.peers)] && n == |b.peers|
    case Broken(p) =>
      && turn == Stop(p.error) && n == |p.peers|
      && after == if p.hash.Some? then before[p.hash.value := Swarm(0, 0, AddPeers(p.peers))] else before
  }

  /** The swarm of one hash, after its hash has been read. */
  method DecodeSwarm(db: Memory, reader: Reader, hash: Hash, ghost read: seq<Byte> -> Read<PeerRecord>)
    returns (n: nat, turn: Turn)
    requires db.Valid() && reader.Valid() && reader !in db.Repr && Same(read, DecodePeer)
    modifies reader, db.Repr
    ensures db.Valid() && reader.Valid() && fresh(db.Repr - old(db.Repr))
    ensures var step := BodyWith(read, hash, old(reader.Rest()));
            && Turned(step, old(db.view).swarms, db.view.swarms, n, turn)
            && (step.Whole? ==> reader.Rest() == step.rest)
    ensures db.view == old(db.view).(swarms := db.view.swarms)
  {
    ghost var before := db.view.swarms;
    db.MakePeermap(hash);
    var count := reader.ReadInt(4);
    if count.Failed? {
      return 0, Stop(count.error);
    }
    n, turn := DecodeCounted(db, reader, hash, count.value, read, before);
  }

  method DecodeCounted(db: Memory, reader: Reader, hash: Hash, count: nat, ghost read: seq<Byte> -> Read<PeerRecord>,
                       ghost before: map<Hash, Swarm>)
    returns (n: nat, turn: Turn)
    requires db.Valid() && reader.Valid() && reader !in db.Repr && Same(read, DecodePeer)
    requires db.view.swarms == before[hash := EMPTY_SWARM]
    modifies reader, db.Repr
    ensures db.Valid() && reader.Valid() && fresh(db.Repr - old(db.Repr))
    ensures var r := ReadMany(read, old(reader.Rest()), count);
            && n == |r.items| && (r.error.None? ==> reader.Rest() == r.rest)
            && turn == (if r.error.Some? then Stop(r.error.value) else Next)
            && db.view == old(db.view).(swarms :=
                 before[hash := if r.error.Some? then Swarm(0, 0, AddPeers(r.items)) else Rebuilt(r.items)])
  {
    ghost var r := ReadMany(read, reader.Rest(), count);
    var complete, error;
    n, complete, error := DecodePeers(db, reader, hash, count, read);
    OverwriteTwice(before, hash, EMPTY_SWARM, Swarm(0, 0, AddPeers(r.items)));
    if error.Some? {
      return n, Stop(error.value);
    }
    FinishSwarm(db, hash, complete, before, r.items);
    turn := Next;
  }

  lemma OverwriteTwice(m: map<Hash, Swarm>, h: Hash, a: Swarm, b: Swarm)
    ensures m[h := a][h := b] == m[h := b]
  {
  }

  /** The counters, from the peers that were read. */
  method FinishSwarm(db: Memory, hash: Hash, complete: uint16, ghost before: map<Hash, Swarm>,
                     ghost items: seq<PeerRecord>)
    requires db.Valid() && complete == U16(Completes(items))
    requires db.view.swarms == before[hash := Swarm(0, 0, AddPeers(items))]
    modifies db`hashmap, db`view
    ensures db.Valid() && db.view == old(db.view).(swarms := before[hash := Rebuilt(items)])
  {
    var size := |db.hashmap[hash].Peers|;
    SameSize(db.hashmap[hash].Peers, AddPeers(items));
    db.SetCounters(hash, complete, U16(size - complete));
    SwarmFinished(before, hash, items, complete, size);
  }

  lemma SameSize<K, A, B>(a: map<K, A>, b: map<K, B>)
    requires a.Keys == b.Keys
    ensures |a| == |b|
  {
    assert |a| == |a.Keys| && |b| == |b.Keys|;
  }

  lemma SwarmFinished(before: map<Hash, Swarm>, hash: Hash, items: seq<PeerRecord>, complete: uint16, size: nat)
    requires complete == U16(Completes(items)) && size == |AddPeers(items)|
    ensures before[hash := Swarm(0, 0, AddPeers(items))][hash := Swarm(complete, U16(size - complete), AddPeers(items))]
         == before[hash := Rebuilt(items)]
  {
  }

  /** One turn of the block loop. */
  method DecodeTurn(db: Memory, reader: Reader, ghost step: seq<Byte> -> Step<Block, Partial>)
    returns (n: nat, turn: Turn)
    requires db.Valid() && reader.Valid() && reader !in db.Repr && SameStep(step, DecodeBlock)
    modifies reader, db.Repr
    ensures db.Valid() && reader.Valid() && fresh(db.Repr - old(db.Repr))
    ensures var r := step(old(reader.Rest()));
            && Turned(r, old(db.view).swarms, db.view.swarms, n, turn)
            && (r.Whole? ==> reader.Rest() == r.rest)
    ensures db.view == old(db.view).(swarms := db.view.swarms)
  {
    assert Shown(reader.Rest());
    var hash := reader.Read(20);
    if hash.Failed? {
      return 0, if hash.error == Eof then Done else Stop(hash.error);
    }
    n, turn := DecodeSwarm(db, reader, Hash(hash.value), DecodePeer);
  }

  /** Loads a snapshot: the table, the totals and the error are those of the format,
      also when the snapshot is cut or corrupt; the metrics are not touched. */
  method Decode(db: Memory, data: seq<Byte>) returns (peers: nat, hashes: nat, error: Option<Error>)
    requires db.Valid()
    modifies db.Repr
    ensures db.Valid() && fresh(db.Repr - old(db.Repr))
    ensures Loaded(db.view.swarms, peers, hashes, error) == Snapshot.Decode(data)
    ensures db.view == old(db.view).(swarms := db.view.swarms)
  {
    BlocksProceed();
    peers, hashes, error := DecodeLoop(db, data, DecodeBlock);
  }

  method DecodeLoop(db: Memory, data: seq<Byte>, ghost step: seq<Byte> -> Step<Block, Partial>)
    returns (peers: nat, hashes: nat, error: Option<Error>)
    requires db.Valid() && SameStep(step, DecodeBlock) && Proceeds(step)
    modifies db.Repr
    ensures db.Valid() && fresh(db.Repr - old(db.Repr))
    ensures Loaded(db.view.swarms, peers, hashes, error) == LoadedFrom(ReadAll(step, data))
    ensures db.view == old(db.view).(swarms := db.view.swarms)
  {
    db.Make();
    var reader := new Reader(data);
    peers, hashes, error := 0, 0, None;
    ghost var blocks: seq<Block>, all := [], ReadAll(step, data);
    assert BlocksLoop(step, all, blocks, data, map[], 0, 0) by {
      assert [] + all.items == all.items;
    }
    var going := true;
    while going
      invariant db.Valid() && reader.Valid() && reader !in db.Repr && fresh(db.Repr - old(db.Repr)) && fresh(reader)
      invariant db.view == old(db.view).(swarms := db.view.swarms)
      invariant if going then error == None &&
          BlocksLoop(step, all, blocks, reader.Rest(), db.view.swarms, peers, hashes)
                else Loaded(db.view.swarms, peers, hashes, error) == LoadedFrom(all)
      decreases going, |reader.Rest()|
    {
      ghost var s, swarms := reader.Rest(), db.view.swarms;
      var n, turn := DecodeTurn(db, reader, step);
      BlocksLoopStep(step, all, blocks, s, swarms, db.view.swarms, peers, hashes, n, turn);
      peers := peers + n;
      match turn {
        case Done => going := false;
        case Stop(e) => going, error := false, Some(e);
        case Next =>
          hashes := hashes + 1;
          blocks := blocks + [step(s).item];
      }
    }
  }

  ghost predicate BlocksLoop(step: seq<Byte> -> Step<Block, Partial>, all: All<Block, Partial>, blocks: seq<Block>,
                             s: seq<Byte>, swarms: map<Hash, Swarm>, peers: nat, hashes: nat)
    requires Proceeds(step)
  {
    && ResumesAll(step, all, blocks, s)
    && swarms == AddBlocks(blocks) && peers == PeerTotal(blocks) && hashes == |blocks|
  }

  lemma BlocksLoopStep(step: seq<Byte> -> Step<Block, Partial>, all: All<Block, Partial>, blocks: seq<Block>,
                       s: seq<Byte>, swarms: map<Hash, Swarm>, after: map<Hash, Swarm>, peers: nat, hashes: nat,
                       n: nat, turn: Turn)
    requires Proceeds(step) && BlocksLoop(step, all, blocks, s, swarms, peers, hashes)
    requires Turned(step(s), swarms, after, n, turn)
    ensures match turn
            case Done => Loaded(after, peers + n, hashes, None) == LoadedFrom(all)
            case Stop(e) => Loaded(after, peers + n, hashes, Some(e)) == LoadedFrom(all)
            case Next =>
              && step(s).Whole?
              && BlocksLoop(step, all, blocks + [step(s).item], step(s).rest, after, peers + n, hashes + 1)
  {
    ResumesAllStep(step, all, blocks, s);
    if step(s).Whole? {
      assert (blocks + [step(s).item])[..|blocks|] == blocks;
    }
  }
}
