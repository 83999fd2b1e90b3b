/** The binary snapshot of the peer database: blocks of one hash, a count and that
    many peers, little-endian, in whatever order the maps are iterated. */
module Snapshot {
  import opened Bytes
  import opened Storage
  import opened PeerDb
  import opened Agreement
  import opened Codec

  // ---------- The format ----------

  type PeerRecord = (PeerID, Entry)

  datatype Block = Block(hash: Hash, peers: seq<PeerRecord>)

  function EncodeAddr(ip: Addr): seq<Byte> {
    LittleEndian(|ip.AsSlice()|, 4) + ip.AsSlice()
  }

  function EncodeEntry(e: Entry): seq<Byte> {
    [if e.complete then 1 else 0] + (EncodeAddr(e.ip) + EncodeStamp(e.port, e.lastSeen))
  }

  function EncodeStamp(port: uint16, lastSeen: int64): seq<Byte> {
    LittleEndian(port, 2) + LittleEndian(U64(lastSeen), 8)
  }

  function EncodePeer(p: PeerRecord): seq<Byte> {
    p.0.bytes + EncodeEntry(p.1)
  }

  function EncodeBlock(b: Block): seq<Byte> {
    b.hash.bytes + (LittleEndian(U32(|b.peers|), 4) + WriteMany(EncodePeer, b.peers))
  }

  function Encode(blocks: seq<Block>): seq<Byte> {
    WriteMany(EncodeBlock, blocks)
  }

  function DecodeAddr(s: seq<Byte>): Read<Addr> {
    var (length, s1) :- TakeInt(4, s);
    if I32(length) < 0 then Failed(Panic) else  // make panics
    var (addr, s2) :- Take(I32(length), s1);
    var ip := AddrFromSlice(addr);
    if ip.None? then Failed(BadAddress) else Got(ip.value, s2)
  }

  function DecodeEntry(s: seq<Byte>): Read<Entry> {
    var (complete, s1) :- Take(1, s);
    var (ip, s2) :- DecodeAddr(s1);
    var (stamp, s3) :- DecodeStamp(s2);
    Got(Entry(complete[0] != 0, ip, stamp.0, stamp.1), s3)
  }

  function DecodeStamp(s: seq<Byte>): Read<(uint16, int64)> {
    var (port, s1) :- TakeInt(2, s);
    var (lastSeen, s2) :- TakeInt(8, s1);
    Got((U16(port), I64(lastSeen)), s2)
  }

  function DecodePeer(s: seq<Byte>): Read<PeerRecord> {
    var (id, s1) :- Take(20, s);
    var (e, s2) :- DecodeEntry(s1);
    Got((PeerID(id), e), s2)
  }

  // The effect of reading peers, in order.

  function AddPeers(ps: seq<PeerRecord>): map<PeerID, Entry> {
    if ps == [] then map[] else AddPeers(ps[..|ps| - 1])[ps[|ps| - 1].0 := ps[|ps| - 1].1]
  }

  function Completes(ps: seq<PeerRecord>): nat {
    if ps == [] then 0 else Completes(ps[..|ps| - 1]) + One(ps[|ps| - 1].1.complete)
  }

  /** The swarm with its counters as decodeBinary rebuilds them. */
  function Rebuilt(ps: seq<PeerRecord>): Swarm {
    Swarm(U16(Completes(ps)), U16(|AddPeers(ps)| - U16(Completes(ps))), AddPeers(ps))
  }

  /** A block that breaks off: its hash unless that is cut already, and its peers so far. */
  datatype Partial = Partial(hash: Option<Hash>, peers: seq<PeerRecord>, error: Error)

  function DecodeBlock(s: seq<Byte>): Step<Block, Partial> {
    match Take(20, s)
    case Failed(e) => if e.Eof? then End else Broken(Partial(None, [], e))
    case Got(hash, s1) => DecodeBody(Hash(hash), s1)
  }

  function DecodeBody(hash: Hash, s: seq<Byte>): Step<Block, Partial> {
    BodyWith(DecodePeer, hash, s)
  }

  function BodyWith(read: seq<Byte> -> Read<PeerRecord>, hash: Hash, s: seq<Byte>): Step<Block, Partial> {
    match TakeInt(4, s)
    case Failed(e) => Broken(Partial(Some(hash), [], e))
    case Got(count, s1) =>
      var r := ReadMany(read, s1, count);
      if r.error.Some? then Broken(Partial(Some(hash), r.items, r.error.value)) else Whole(Block(hash, r.items), r.rest)
  }

  lemma DecodePeerShortens(s: seq<Byte>)
    ensures DecodePeer(s).Got? ==> |DecodePeer(s).rest| <= |s|
  {
  }

  lemma BlocksProceed()
    ensures Proceeds(DecodeBlock)
  {
    forall s | DecodeBlock(s).Whole? ensures |DecodeBlock(s).rest| < |s| {
      forall u ensures DecodePeer(u).Got? ==> |DecodePeer(u).rest| <= |u| {
        DecodePeerShortens(u);
      }
      ReadManyShortens(DecodePeer, s[20..][4..], TakeInt(4, s[20..]).value);
    }
  }

  function AddBlocks(blocks: seq<Block>): map<Hash, Swarm> {
    if blocks == [] then map[]
    else AddBlocks(blocks[..|blocks| - 1])[blocks[|blocks| - 1].hash := Rebuilt(blocks[|blocks| - 1].peers)]
  }

  function PeerTotal(blocks: seq<Block>): nat {
    if blocks == [] then 0 else PeerTotal(blocks[..|blocks| - 1]) + |blocks[|blocks| - 1].peers|
  }

  /** What decodeBinary leaves and returns. */
  datatype Loaded = Loaded(swarms: map<Hash, Swarm>, peers: nat, hashes: nat, error: Option<Error>)

  function LoadedFrom(r: All<Block, Partial>): Loaded {
    var swarms := AddBlocks(r.items);
    match r.broken
    case None => Loaded(swarms, PeerTotal(r.items), |r.items|, None)
    case Some(p) =>
      Loaded(if p.hash.Some? then swarms[p.hash.value := Swarm(0, 0, AddPeers(p.peers))] else swarms,
             PeerTotal(r.items) + |p.peers|, |r.items|, Some(p.error))
  }

  ghost function Decode(data: seq<Byte>): Loaded {
    BlocksProceed();
    LoadedFrom(ReadAll(DecodeBlock, data))
  }

  // ---------- Reading inverts writing ----------

  lemma AddrInverts(ip: Addr, t: seq<Byte>)
    ensures DecodeAddr(EncodeAddr(ip) + t) == Got(ip, t)
  {
    var bs := ip.AsSlice();
    assert EncodeAddr(ip) + t == LittleEndian(|bs|, 4) + (bs + t);
    Widths();
    TakeIntOfWrite(|bs|, 4, bs + t);
    TakePrefix(bs, t);
  }

  lemma EntryInverts(e: Entry, t: seq<Byte>)
    ensures DecodeEntry(EncodeEntry(e) + t) == Got(e, t)
  {
    var c: seq<Byte> := [if e.complete then 1 else 0];
    var s2 := EncodeStamp(e.port, e.lastSeen) + t;
    var s1 := EncodeAddr(e.ip) + s2;
    assert EncodeEntry(e) + t == c + s1;
    TakePrefix(c, s1);
    AddrInverts(e.ip, s2);
    StampInverts(e.port, e.lastSeen, t);
  }

  lemma StampInverts(port: uint16, lastSeen: int64, t: seq<Byte>)
    ensures DecodeStamp(EncodeStamp(port, lastSeen) + t) == Got((port, lastSeen), t)
  {
    var s1 := LittleEndian(U64(lastSeen), 8) + t;
    assert EncodeStamp(port, lastSeen) + t == LittleEndian(port, 2) + s1;
    Widths();
    TakeIntOfWrite(port, 2, s1);
    TakeIntOfWrite(U64(lastSeen), 8, t);
    assert I64(U64(lastSeen)) == lastSeen;
  }

  lemma PeerInverts()
    ensures Inverts(DecodePeer, EncodePeer)
  {
    forall p, t ensures DecodePeer(EncodePeer(p) + t) == Got(p, t) {
      assert EncodePeer(p) + t == p.0.bytes + (EncodeEntry(p.1) + t);
      TakePrefix(p.0.bytes, EncodeEntry(p.1) + t);
      EntryInverts(p.1, t);
    }
  }

  lemma AddrStable(s: seq<Byte>, t: seq<Byte>)
    requires DecodeAddr(s).Got?
    ensures DecodeAddr(s + t) == Got(DecodeAddr(s).value, DecodeAddr(s).rest + t)
  {
    TakeStable(4, s, t);
    TakeStable(I32(TakeInt(4, s).value), s[4..], t);
  }

  lemma EntryStable(s: seq<Byte>, t: seq<Byte>)
    requires DecodeEntry(s).Got?
    ensures DecodeEntry(s + t) == Got(DecodeEntry(s).value, DecodeEntry(s).rest + t)
  {
    TakeStable(1, s, t);
    AddrStable(s[1..], t);
    var s2 := DecodeAddr(s[1..]).rest;
    TakeStable(2, s2, t);
    TakeStable(8, s2[2..], t);
  }

  lemma PeerStable()
    ensures Stable(DecodePeer)
  {
    forall s, t | DecodePeer(s).Got? ensures DecodePeer(s + t) == Got(DecodePeer(s).value, DecodePeer(s).rest + t) {
      TakeStable(20, s, t);
      EntryStable(s[20..], t);
    }
  }

  // ---------- Blocks ----------

  predicate CountFits(b: Block) {
    |b.peers| < 0x1_0000_0000
  }

  lemma BodyInverts(b: Block, t: seq<Byte>)
    requires CountFits(b)
    ensures DecodeBody(b.hash, LittleEndian(|b.peers|, 4) + (WriteMany(EncodePeer, b.peers) + t)) == Whole(b, t)
  {
    Widths();
    TakeIntOfWrite(|b.peers|, 4, WriteMany(EncodePeer, b.peers) + t);
    PeerInverts();
    ReadManyOfWrite(DecodePeer, EncodePeer, b.peers, t);
  }

  lemma BodyStable(hash: Hash, s: seq<Byte>, t: seq<Byte>)
    requires DecodeBody(hash, s).Whole?
    ensures DecodeBody(hash, s + t) == Whole(DecodeBody(hash, s).item, DecodeBody(hash, s).rest + t)
  {
    TakeStable(4, s, t);
    PeerStable();
    ReadManyStable(DecodePeer, s[4..], TakeInt(4, s).value, t);
  }

  lemma BlocksInvert()
    ensures StepInverts(DecodeBlock, EncodeBlock, CountFits)
  {
    forall b, t | CountFits(b) ensures DecodeBlock(EncodeBlock(b) + t) == Whole(b, t) {
      var s1 := LittleEndian(|b.peers|, 4) + (WriteMany(EncodePeer, b.peers) + t);
      assert EncodeBlock(b) + t == b.hash.bytes + s1;
      TakePrefix(b.hash.bytes, s1);
      BodyInverts(b, t);
    }
    forall s, t | DecodeBlock(s).Whole?
      ensures DecodeBlock(s + t) == Whole(DecodeBlock(s).item, DecodeBlock(s).rest + t)
    {
      TakeStable(20, s, t);
      BodyStable(Hash(s[..20]), s[20..], t);
    }
  }

  lemma CutAt(blocks: seq<Block>, k: nat)
    requires k <= |blocks| && forall b | b in blocks :: CountFits(b)
    ensures |Encode(blocks[..k])| <= |Encode(blocks)|
    ensures Decode(Encode(blocks)[..|Encode(blocks[..k])|]) ==
        Loaded(AddBlocks(blocks[..k]), PeerTotal(blocks[..k]), k, None)
  {
    WriteManyAppend(EncodeBlock, blocks[..k], blocks[k..]);
    assert blocks[..k] + blocks[k..] == blocks;
    assert Encode(blocks)[..|Encode(blocks[..k])|] == Encode(blocks[..k]);
    DecodeOfEncode(blocks[..k]);
  }

  /** A cut snapshot loads without an error exactly when the cut falls between two
      blocks, and then yields exactly the blocks before the cut. */
  lemma TruncatedSnapshot(blocks: seq<Block>, n: nat)
    requires forall b | b in blocks :: CountFits(b)
    requires n <= |Encode(blocks)|
    ensures Decode(Encode(blocks)[..n]).error == None <==> Between(EncodeBlock, blocks, n)
    ensures Between(EncodeBlock, blocks, n) ==>
              exists k :: 0 <= k <= |blocks| && n == |Encode(blocks[..k])| &&
                Decode(Encode(blocks)[..n]) == Loaded(AddBlocks(blocks[..k]), PeerTotal(blocks[..k]), k, None)
  {
    BlocksProceed();
    BlocksInvert();
    CutBetween(DecodeBlock, EncodeBlock, CountFits, blocks, n);
    if Between(EncodeBlock, blocks, n) {
      var k :| 0 <= k <= |blocks| && n == |WriteMany(EncodeBlock, blocks[..k])|;
      CutAt(blocks, k);
      assert n == |Encode(blocks[..k])|;
    }
  }

  /** Reading a whole snapshot yields its blocks. */
  lemma DecodeOfEncode(blocks: seq<Block>)
    requires forall b | b in blocks :: CountFits(b)
    ensures Decode(Encode(blocks)) == Loaded(AddBlocks(blocks), PeerTotal(blocks), |blocks|, None)
  {
    BlocksProceed();
    BlocksInvert();
    ReadAllBack(DecodeBlock, EncodeBlock, CountFits, blocks);
  }

  // ---------- Blocks in some iteration order ----------

  /** `ps` lists the peers of `m`, each once. */
  ghost predicate ListsPeers(ps: seq<PeerRecord>, m: map<PeerID, Entry>) {
    AddPeers(ps) == m && |ps| == |m|
  }

  function Hashes(blocks: seq<Block>): set<Hash> {
    set b | b in blocks :: b.hash
  }

  /** `blocks` lists the swarms, each once, the empty ones included. */
  ghost predicate Lists(blocks: seq<Block>, swarms: map<Hash, Swarm>) {
    && Hashes(blocks) == swarms.Keys && |blocks| == |swarms|
    && forall b | b in blocks :: ListsPeers(b.peers, swarms[b.hash].peers)
  }

  lemma {:induction false} AddPeersSize(ps: seq<PeerRecord>)
    ensures |AddPeers(ps)| <= |ps|
  {
    if ps != [] {
      var n := |ps| - 1;
      AddPeersSize(ps[..n]);
      assert AddPeers(ps).Keys == AddPeers(ps[..n]).Keys + {ps[n].0};
      assert |AddPeers(ps)| == |AddPeers(ps).Keys| && |AddPeers(ps[..n])| == |AddPeers(ps[..n]).Keys|;
    }
  }

  lemma LastIsNew(ps: seq<PeerRecord>)
    requires ps != [] && |AddPeers(ps)| == |ps|
    ensures var n := |ps| - 1;
            ps[n].0 !in AddPeers(ps[..n]) && |AddPeers(ps[..n])| == n
  {
    var n := |ps| - 1;
    AddPeersSize(ps[..n]);
    assert AddPeers(ps).Keys == AddPeers(ps[..n]).Keys + {ps[n].0};
    assert |AddPeers(ps)| == |AddPeers(ps).Keys| && |AddPeers(ps[..n])| == |AddPeers(ps[..n]).Keys|;
  }

  lemma {:induction false} CountsOfList(ps: seq<PeerRecord>)
    requires |AddPeers(ps)| == |ps|
    ensures Completes(ps) == Count(AddPeers(ps), Complete)
    ensures |ps| == Count(AddPeers(ps), Complete) + Count(AddPeers(ps), Incomplete)
  {
    if ps == [] {
      var none: map<PeerID, Entry> := map[];
      assert Which(none, Complete) == {} && Which(none, Incomplete) == {};
    } else {
      var n := |ps| - 1;
      LastIsNew(ps);
      CountsOfList(ps[..n]);
      CountAdd(AddPeers(ps[..n]), ps[n].0, ps[n].1, Complete);
      CountAdd(AddPeers(ps[..n]), ps[n].0, ps[n].1, Incomplete);
    }
  }

  /** The rebuilt counters are the stored ones. */
  lemma RebuiltIsStored(ps: seq<PeerRecord>, sw: Swarm)
    requires ListsPeers(ps, sw.peers) && SwarmAgrees(sw)
    ensures Rebuilt(ps) == sw
  {
    CountsOfList(ps);
  }

  // Snapshots that list something twice: a later record of an id overwrites an earlier
  // one, and so does a later block of a hash.

  /** How many records overwrite a complete peer. */
  function Replaced(ps: seq<PeerRecord>): nat {
    if ps == [] then 0
    else
      var n := |ps| - 1;
      Replaced(ps[..n]) + One(ps[n].0 in AddPeers(ps[..n]) && AddPeers(ps[..n])[ps[n].0].complete)
  }

  lemma {:induction false} CompletesOfRecords(ps: seq<PeerRecord>)
    ensures Completes(ps) == Count(AddPeers(ps), Complete) + Replaced(ps)
  {
    if ps == [] {
      CountNone(Complete);
    } else {
      var n := |ps| - 1;
      CompletesOfRecords(ps[..n]);
      CountPut(AddPeers(ps[..n]), ps[n].0, ps[n].1, Complete);
    }
  }

  lemma CountBoth(m: map<PeerID, Entry>)
    ensures |m| == Count(m, Complete) + Count(m, Incomplete)
  {
    assert m.Keys == Which(m, Complete) + Which(m, Incomplete);
    assert |m| == |m.Keys|;
  }

  /** The rebuilt counters agree with the peers if and only if the number of records that
      overwrite a complete peer is a multiple of 65536. */
  lemma RebuiltAgrees(ps: seq<PeerRecord>)
    ensures SwarmAgrees(Rebuilt(ps)) <==> Replaced(ps) % 0x1_0000 == 0
  {
    CompletesOfRecords(ps);
    CountBoth(AddPeers(ps));
    Offset(|AddPeers(ps)|, Count(AddPeers(ps), Complete), Replaced(ps));
  }

  lemma Offset(size: nat, complete: nat, more: nat)
    ensures U16(complete + more) == U16(complete) <==> more % 0x1_0000 == 0
    ensures U16(complete + more) == U16(complete) ==> U16(size - U16(complete + more)) == U16(size - complete)
  {
  }

  /** Two records of one id: the counters go wrong if and only if the first is complete. */
  lemma SameIdTwice(id: PeerID, first: Entry, second: Entry)
    ensures SwarmAgrees(Rebuilt([(id, first), (id, second)])) <==> !first.complete
  {
    var ps := [(id, first), (id, second)];
    RebuiltAgrees(ps);
    var one := ps[..1];
    assert one[..0] == [] && one[0] == (id, first);
    assert AddPeers(one) == AddPeers([])[id := first];
    assert Replaced(one) == 0 && Replaced(ps) == One(first.complete);
  }

  ghost predicate DistinctIds(ps: seq<PeerRecord>) {
    forall i, j | 0 <= i < j < |ps| :: ps[i].0 != ps[j].0
  }

  lemma {:induction false} IdsAdded(ps: seq<PeerRecord>, id: PeerID)
    ensures id in AddPeers(ps) <==> exists i :: 0 <= i < |ps| && ps[i].0 == id
  {
    if ps != [] {
      var n := |ps| - 1;
      IdsAdded(ps[..n], id);
      if i :| 0 <= i < |ps| && ps[i].0 == id {
        assert i == n || ps[..n][i].0 == id;
      }
    }
  }

  /** A list of records holds as many peers as records if and only if its ids differ. */
  lemma {:induction false} PeersCounted(ps: seq<PeerRecord>)
    ensures |AddPeers(ps)| <= |ps|
    ensures |AddPeers(ps)| == |ps| <==> DistinctIds(ps)
  {
    if ps != [] {
      var n := |ps| - 1;
      PeersCounted(ps[..n]);
      IdsAdded(ps[..n], ps[n].0);
      PutSize(AddPeers(ps[..n]), ps[n].0, ps[n].1);
      assert ps == ps[..n] + [ps[n]];
    }
  }

  lemma PutSize<K(!new), V>(m: map<K, V>, k: K, v: V)
    ensures |m[k := v]| == |m| + One(k !in m)
  {
    assert m[k := v].Keys == m.Keys + {k};
    assert |m| == |m.Keys| && |m[k := v]| == |m[k := v].Keys|;
  }

  /** No later block has the hash of block `i`. */
  ghost predicate IsLast(blocks: seq<Block>, i: nat)
    requires i < |blocks|
  {
    forall j | i < j < |blocks| :: blocks[j].hash != blocks[i].hash
  }

  /** Of the blocks of a hash the last one counts, with its own counters. */
  lemma {:induction false} LastBlockCounts(blocks: seq<Block>, i: nat)
    requires i < |blocks| && IsLast(blocks, i)
    ensures blocks[i].hash in AddBlocks(blocks) && AddBlocks(blocks)[blocks[i].hash] == Rebuilt(blocks[i].peers)
  {
    var n := |blocks| - 1;
    if i < n {
      assert IsLast(blocks[..n], i);
      LastBlockCounts(blocks[..n], i);
      assert blocks[n].hash != blocks[i].hash;
    }
  }

  lemma {:induction false} LastBlockOf(blocks: seq<Block>, h: Hash) returns (i: nat)
    requires h in AddBlocks(blocks)
    ensures i < |blocks| && IsLast(blocks, i) && blocks[i].hash == h
  {
    i := |blocks| - 1;
    if blocks[i].hash != h {
      var n := i;
      i := LastBlockOf(blocks[..n], h);
    }
  }

  ghost predicate DistinctHashes(blocks: seq<Block>) {
    forall i | 0 <= i < |blocks| :: IsLast(blocks, i)
  }

  /** The number of peers in all swarms. */
  function Stored(swarms: map<Hash, Swarm>): nat {
    |Flat(Db(swarms, 0, 0, map[]))|
  }

  lemma StoredWithout(swarms: map<Hash, Swarm>, h: Hash)
    requires h in swarms
    ensures Stored(swarms) == Stored(swarms - {h}) + |swarms[h].peers|
  {
    FlatWithout(Db(swarms, 0, 0, map[]), h);
  }

  lemma StoredPut(swarms: map<Hash, Swarm>, h: Hash, sw: Swarm)
    ensures Stored(swarms[h := sw]) == Stored(swarms) + |sw.peers| - if h in swarms then |swarms[h].peers| else 0
  {
    StoredWithout(swarms[h := sw], h);
    PutAndRemove(swarms, h, sw);
    if h in swarms {
      StoredWithout(swarms, h);
    }
  }

  lemma PutAndRemove<K(!new), V>(m: map<K, V>, k: K, v: V)
    ensures m[k := v] - {k} == m - {k}
    ensures k !in m ==> m - {k} == m
  {
  }

  /** Every block counts towards the totals in full: it has no id twice, and if a later
      one takes its place, no peers. */
  ghost predicate CountedOnce(blocks: seq<Block>) {
    forall i | 0 <= i < |blocks| :: OnceAt(blocks, i)
  }

  ghost predicate OnceAt(blocks: seq<Block>, i: nat)
    requires i < |blocks|
  {
    if IsLast(blocks, i) then DistinctIds(blocks[i].peers) else blocks[i].peers == []
  }

  lemma LastInPrefix(blocks: seq<Block>, i: nat)
    requires blocks != [] && i < |blocks| - 1
    ensures var n := |blocks| - 1;
            IsLast(blocks, i) <==> IsLast(blocks[..n], i) && blocks[n].hash != blocks[i].hash
  {
    var n := |blocks| - 1;
    assert forall j | i < j < n :: blocks[..n][j] == blocks[j];
  }

  lemma OnceInPrefix(blocks: seq<Block>, i: nat)
    requires blocks != [] && i < |blocks| - 1
    ensures var n := |blocks| - 1;
            OnceAt(blocks, i) <==>
            OnceAt(blocks[..n], i) && (blocks[i].hash == blocks[n].hash ==> blocks[i].peers == [])
  {
    LastInPrefix(blocks, i);
  }

  lemma CountedOnceNext(blocks: seq<Block>)
    requires blocks != []
    ensures var n := |blocks| - 1;
            var h := blocks[n].hash;
            CountedOnce(blocks) <==>
            && CountedOnce(blocks[..n]) && DistinctIds(blocks[n].peers)
            && (h in AddBlocks(blocks[..n]) ==> AddBlocks(blocks[..n])[h].peers == map[])
  {
    var n, pre := |blocks| - 1, blocks[..|blocks| - 1];
    var h := blocks[n].hash;
    forall i | 0 <= i < n ensures OnceAt(blocks, i) <==> OnceAt(pre, i) && EmptyIfOf(pre, h, i) {
      OnceInPrefix(blocks, i);
    }
    assert OnceAt(blocks, n) <==> DistinctIds(blocks[n].peers);
    if CountedOnce(pre) {
      OnceOfHash(pre, h);
    }
  }

  ghost predicate EmptyIfOf(blocks: seq<Block>, h: Hash, i: nat)
    requires i < |blocks|
  {
    blocks[i].hash == h ==> blocks[i].peers == []
  }

  lemma OnceOfHash(blocks: seq<Block>, h: Hash)
    requires CountedOnce(blocks)
    ensures (forall i | 0 <= i < |blocks| :: EmptyIfOf(blocks, h, i)) <==>
            (h in AddBlocks(blocks) ==> AddBlocks(blocks)[h].peers == map[])
  {
    if h in AddBlocks(blocks) {
      var l := LastBlockOf(blocks, h);
      LastBlockCounts(blocks, l);
      NoPeers(blocks[l].peers);
      forall i | 0 <= i < |blocks| && i != l ensures EmptyIfOf(blocks, h, i) {
        EmptyElsewhere(blocks, h, l, i);
      }
      assert EmptyIfOf(blocks, h, l) <==> AddBlocks(blocks)[h].peers == map[];
    } else {
      forall i | 0 <= i < |blocks| ensures EmptyIfOf(blocks, h, i) {
        HashIsAdded(blocks, i);
      }
    }
  }

  lemma NoPeers(ps: seq<PeerRecord>)
    ensures AddPeers(ps) == map[] <==> ps == []
  {
    assert ps != [] ==> ps[|ps| - 1].0 in AddPeers(ps);
  }

  lemma EmptyElsewhere(blocks: seq<Block>, h: Hash, l: nat, i: nat)
    requires l < |blocks| && blocks[l].hash == h && IsLast(blocks, l)
    requires i < |blocks| && i != l && OnceAt(blocks, i)
    ensures EmptyIfOf(blocks, h, i)
  {
    if blocks[i].hash == h {
      OnlyOneLast(blocks, i, l);
    }
  }

  lemma OnlyOneLast(blocks: seq<Block>, i: nat, l: nat)
    requires i < |blocks| && l < |blocks| && blocks[i].hash == blocks[l].hash && IsLast(blocks, l)
    ensures IsLast(blocks, i) <==> i == l
  {
    if i < l {
      assert blocks[l].hash == blocks[i].hash;
    }
  }

  lemma {:induction false} HashIsAdded(blocks: seq<Block>, i: nat)
    requires i < |blocks|
    ensures blocks[i].hash in AddBlocks(blocks)
  {
    if i < |blocks| - 1 {
      HashIsAdded(blocks[..|blocks| - 1], i);
    }
  }

  /** The total of peers that the reader returns is exact if and only if every block
      counts once, and else it is too large. */
  lemma {:induction false} PeerTotalExact(blocks: seq<Block>)
    ensures Stored(AddBlocks(blocks)) <= PeerTotal(blocks)
    ensures Stored(AddBlocks(blocks)) == PeerTotal(blocks) <==> CountedOnce(blocks)
  {
    if blocks == [] {
      assert Flat(Db(map[], 0, 0, map[])) == map[];
    } else {
      var n, pre := |blocks| - 1, blocks[..|blocks| - 1];
      var h := blocks[n].hash;
      PeerTotalExact(pre);
      StoredPut(AddBlocks(pre), h, Rebuilt(blocks[n].peers));
      PeersCounted(blocks[n].peers);
      CountedOnceNext(blocks);
    }
  }

  /** The total of hashes is exact if and only if they differ. */
  lemma {:induction false} HashTotalExact(blocks: seq<Block>)
    ensures |AddBlocks(blocks)| <= |blocks|
    ensures |AddBlocks(blocks)| == |blocks| <==> DistinctHashes(blocks)
  {
    if blocks != [] {
      var n, pre := |blocks| - 1, blocks[..|blocks| - 1];
      HashTotalExact(pre);
      PutSize(AddBlocks(pre), blocks[n].hash, Rebuilt(blocks[n].peers));
      forall i: nat | i < n ensures IsLast(blocks, i) <==> IsLast(pre, i) && blocks[n].hash != blocks[i].hash {
        LastInPrefix(blocks, i);
      }
      if blocks[n].hash in AddBlocks(pre) {
        var l := LastBlockOf(pre, blocks[n].hash);
      } else {
        forall i | 0 <= i < n ensures blocks[i].hash != blocks[n].hash {
          HashIsAdded(pre, i);
        }
      }
    }
  }

  lemma {:induction false} AddBlocksListed(blocks: seq<Block>, swarms: map<Hash, Swarm>)
    requires forall b | b in blocks :: b.hash in swarms && Rebuilt(b.peers) == swarms[b.hash]
    ensures AddBlocks(blocks).Keys == Hashes(blocks)
    ensures forall h | h in AddBlocks(blocks) :: h in swarms && AddBlocks(blocks)[h] == swarms[h]
  {
    if blocks != [] {
      var n := |blocks| - 1;
      AddBlocksListed(blocks[..n], swarms);
      HashesSnoc(blocks);
    }
  }

  lemma HashesSnoc(blocks: seq<Block>)
    requires blocks != []
    ensures Hashes(blocks) == Hashes(blocks[..|blocks| - 1]) + {blocks[|blocks| - 1].hash}
  {
    var n := |blocks| - 1;
    assert blocks == blocks[..n] + [blocks[n]];
    forall h | h in Hashes(blocks) ensures h in Hashes(blocks[..n]) + {blocks[n].hash} {
      var b :| b in blocks && b.hash == h;
    }
    forall h | h in Hashes(blocks[..n]) ensures h in Hashes(blocks) {
      var b :| b in blocks[..n] && b.hash == h;
      assert b in blocks;
    }
    assert blocks[n] in blocks;
  }

  // How many peers there are.

  lemma {:induction false} SlotsOfHash(hash: Hash, ids: set<PeerID>)
    ensures |set i | i in ids :: (hash, i)| == |ids|
  {
    if ids == {} {
      assert (set i | i in ids :: (hash, i)) == {};
    } else {
      var j :| j in ids;
      SlotsOfHash(hash, ids - {j});
      assert (set i | i in ids :: (hash, i)) == (set i | i in ids - {j} :: (hash, i)) + {(hash, j)};
    }
  }

  lemma FlatSize(db: Db)
    ensures |Flat(db)| == |Keys(db)|
  {
    assert Flat(db).Keys == Keys(db);
  }

  lemma KeysWithout(db: Db, h: Hash)
    requires h in db.swarms
    ensures |Keys(db)| == |Keys(Without(db, {h}))| + |db.swarms[h].peers|
  {
    var here := set i | i in db.swarms[h].peers.Keys :: (h, i);
    SlotsOfHash(h, db.swarms[h].peers.Keys);
    var others := Keys(Without(db, {h}));
    forall k: Key ensures k in Keys(db) <==> k in others || k in here
      ensures k in here ==> k !in others
    {
      assert k in here <==> k.0 == h && k.1 in db.swarms[h].peers;
    }
    assert Keys(db) == others + here && others !! here;
    assert |db.swarms[h].peers| == |db.swarms[h].peers.Keys|;
  }

  lemma FlatWithout(db: Db, h: Hash)
    requires h in db.swarms
    ensures |Flat(db)| == |Flat(Without(db, {h}))| + |db.swarms[h].peers|
  {
    FlatSize(db);
    FlatSize(Without(db, {h}));
    KeysWithout(db, h);
  }

  lemma {:induction false} HashesSize(blocks: seq<Block>)
    ensures |Hashes(blocks)| <= |blocks|
  {
    if blocks == [] {
      assert Hashes(blocks) == {};
    } else {
      HashesSnoc(blocks);
      HashesSize(blocks[..|blocks| - 1]);
    }
  }

  /** A listing without its last block lists the other swarms. */
  lemma ListsInit(blocks: seq<Block>, swarms: map<Hash, Swarm>)
    requires Lists(blocks, swarms) && blocks != []
    ensures var n := |blocks| - 1;
            blocks[n].hash in swarms && Lists(blocks[..n], swarms - {blocks[n].hash})
  {
    var n := |blocks| - 1;
    var h := blocks[n].hash;
    HashesSnoc(blocks);
    HashesSize(blocks[..n]);
    assert |swarms| == |swarms.Keys|;
    assert h !in Hashes(blocks[..n]);
    assert (swarms - {h}).Keys == Hashes(blocks[..n]);
    assert |swarms - {h}| == |(swarms - {h}).Keys|;
    forall b | b in blocks[..n] ensures b.hash in Hashes(blocks[..n]) && b in blocks {
    }
  }

  lemma {:induction false} TotalOfList(blocks: seq<Block>, db: Db)
    requires Lists(blocks, db.swarms)
    ensures PeerTotal(blocks) == |Flat(db)|
  {
    if blocks == [] {
      assert Keys(db) == {};
      assert Flat(db) == map[];
    } else {
      var n := |blocks| - 1;
      ListsInit(blocks, db.swarms);
      TotalOfList(blocks[..n], Without(db, {blocks[n].hash}));
      FlatWithout(db, blocks[n].hash);
      assert blocks[n] in blocks;
    }
  }

  /** The round trip: whatever the iteration order, a snapshot of a database whose
      counters agree with its peers reads back as the same swarms, the empty ones and
      the counters included, and reports the exact totals. */
  lemma SnapshotRoundTrip(blocks: seq<Block>, db: Db)
    requires Lists(blocks, db.swarms) && forall h | h in db.swarms :: SwarmAgrees(db.swarms[h])
    requires forall h | h in db.swarms :: |db.swarms[h].peers| < 0x1_0000_0000
    ensures Decode(Encode(blocks)) == Loaded(db.swarms, |Flat(db)|, |db.swarms|, None)
  {
    forall b | b in blocks ensures b.hash in db.swarms && CountFits(b) && Rebuilt(b.peers) == db.swarms[b.hash] {
      assert b.hash in Hashes(blocks);
      RebuiltIsStored(b.peers, db.swarms[b.hash]);
    }
    DecodeOfEncode(blocks);
    AddBlocksListed(blocks, db.swarms);
    TotalOfList(blocks, db);
  }
}
