/** The database on the heap: swarms and peers are objects, peers are recycled
    through a pool, and every operation updates maps, counters and metrics by hand.
    Each method is proved to do to the whole state what PeerDb says. */
module GoMap {
  import opened Bytes
  import opened Storage
  import opened PeerDb
  import opened TrimLoop
  import opened Recount

  /** A *storage.Peer: an object that holds one peer record. */
  class Peer {
    var data: Entry
    ghost var owner: Option<Key>  // the slot that holds this object; None while it is in the pool

    constructor ()
      ensures owner == None
    {
      data, owner := Entry(false, V4([0, 0, 0, 0]), 0, 0), None;
    }

    method Fill(complete: bool, ip: Addr, port: uint16, now: int64)
      modifies this`data
      ensures data == Entry(complete, ip, port, now)
    {
      data := data.(complete := complete);
      data := data.(ip := ip);
      data := data.(port := port);
      data := data.(lastSeen := now);
    }
  }

  /** sync.Pool: Get hands out any pooled object or makes one. */
  class PeerPool {
    var free: multiset<Peer>
    var created: int32

    constructor ()
      ensures free == multiset{} && created == 0
    {
      free, created := multiset{}, 0;
    }

    method Get() returns (peer: Peer)
      modifies this
      ensures || (fresh(peer) && peer.owner == None && free == old(free) && created == I32(old(created) + 1))
              || (peer in old(free) && free == old(free) - multiset{peer} && created == old(created))
    {
      var usePooled: bool := *;
      if usePooled && free != multiset{} {
        peer :| peer in free;
        free := free - multiset{peer};
      } else {
        created := I32(created + 1);
        peer := new Peer();
      }
    }

    method Put(peer: Peer)
      modifies this
      ensures free == old(free) + multiset{peer} && created == old(created)
    {
      free := free + multiset{peer};
    }
  }

  class IpStats {
    var submap: map<Addr, int16>

    constructor ()
      ensures submap == map[]
    {
      submap := map[];
    }

    method Total() returns (n: int)
      ensures n == |submap|
    {
      n := |submap|;
    }

    method Inc(ip: Addr)
      modifies this
      ensures submap == PeerDb.Inc(old(submap), ip)
    {
      submap := submap[ip := I16(IpCount(submap, ip) + 1)];
    }

    method Remove(ip: Addr)
      modifies this
      ensures submap == PeerDb.Remove(old(submap), ip)
    {
      submap := submap[ip := I16(IpCount(submap, ip) - 1)];
      if submap[ip] == 0 {
        submap := submap - {ip};
      }
    }
  }

  class Metrics {
    var Seeds: int64
    var Leeches: int64

    constructor ()
      ensures Seeds == Leeches == 0
    {
      Seeds, Leeches := 0, 0;
    }
  }

  /** A swarm, by value: the table below is its only owner. */
  datatype PeerMap = PeerMap(Complete: uint16, Incomplete: uint16, Peers: map<PeerID, Peer>)

  lemma OneMore<T>(s: set<T>, x: T)
    requires x !in s
    ensures |s + {x}| == |s| + 1
  {
  }

  lemma OthersStay(db: Db, hash: Hash, sw: Swarm, id: PeerID)
    requires hash in db.swarms && sw.peers == db.swarms[hash].peers - {id}
    ensures forall h, i | Has(Put(db, hash, sw), h, i) ::
              Has(db, h, i) && Put(db, hash, sw).swarms[h].peers[i] == db.swarms[h].peers[i]
  {
  }

  class Memory {
    var hashmap: map<Hash, PeerMap>
    const stats: Metrics
    const ipStats: IpStats
    const pool: PeerPool
    ghost var view: Db
    ghost var Repr: set<object>

    ghost predicate PoolValid()
      reads this, Repr
    {
      && pool in Repr
      && forall p | p in pool.free :: p in Repr && p.owner == None && pool.free[p] == 1
    }

    ghost predicate MetricsValid()
      reads this, Repr
    {
      && stats in Repr && ipStats in Repr
      && view.seeds == stats.Seeds && view.leeches == stats.Leeches && view.ips == ipStats.submap
    }

    ghost predicate SwarmsValid()
      reads this
    {
      && view.swarms.Keys == hashmap.Keys
      && forall h | h in hashmap ::
          && hashmap[h].Complete == view.swarms[h].complete && hashmap[h].Incomplete == view.swarms[h].incomplete
          && hashmap[h].Peers.Keys == view.swarms[h].peers.Keys
    }

    /** A stored peer knows its slot. */
    ghost predicate Stored(h: Hash, i: PeerID, peer: Peer)
      reads this, peer
    {
      peer.owner == Some((h, i)) && Has(view, h, i) && peer.data == view.swarms[h].peers[i]
    }

    /** The objects hold the value `view`; every stored peer knows its one slot, and
        the pooled peers are not stored anywhere. */
    ghost predicate Valid()
      reads this, Repr
    {
      && this in Repr
      && PoolValid()
      && MetricsValid()
      && SwarmsValid()
      && forall h, i | h in hashmap && i in hashmap[h].Peers ::
          hashmap[h].Peers[i] in Repr && Stored(h, i, hashmap[h].Peers[i])
    }

    /** An empty database over the given global statistics and pool. */
    constructor (stats: Metrics, ipStats: IpStats, pool: PeerPool)
      requires forall p | p in pool.free :: p.owner == None && pool.free[p] == 1
      ensures Valid() && fresh(Repr - {stats, ipStats, pool} - set p | p in pool.free)
      ensures view == Db(map[], stats.Seeds, stats.Leeches, ipStats.submap)
    {
      hashmap := map[];
      this.stats, this.ipStats, this.pool := stats, ipStats, pool;
      view := Db(map[], stats.Seeds, stats.Leeches, ipStats.submap);
      Repr := {this, stats, ipStats, pool} + set p | p in pool.free;
    }

    /** Each stored peer is in one slot only, and not in the pool. */
    lemma Ownership()
      requires Valid()
      ensures forall h, i, h', i' | h in hashmap && i in hashmap[h].Peers && h' in hashmap && i' in hashmap[h'].Peers ::
                hashmap[h].Peers[i] == hashmap[h'].Peers[i'] ==> h == h' && i == i'
      ensures forall h, i | h in hashmap && i in hashmap[h].Peers :: hashmap[h].Peers[i] !in pool.free
      ensures forall p | p in pool.free :: pool.free[p] == 1
    {
      assert forall h, i | h in hashmap && i in hashmap[h].Peers :: hashmap[h].Peers[i].owner == Some((h, i));
    }

    method MakePeermap(hash: Hash)
      requires Valid()
      modifies this`hashmap, this`view
      ensures Valid() && hashmap == old(hashmap)[hash := PeerMap(0, 0, map[])]
      ensures view == Put(old(view), hash, EMPTY_SWARM)
    {
      hashmap := hashmap[hash := PeerMap(0, 0, map[])];
      view := Put(view, hash, EMPTY_SWARM);
    }

    /** A peer marked for a slot, which neither a swarm nor the pool holds yet. */
    ghost predicate Reserved(peer: Peer, hash: Hash, id: PeerID)
      reads this, Repr
    {
      && pool in Repr && peer in Repr && peer.owner == Some((hash, id)) && peer !in pool.free
      && (hash in hashmap && id in hashmap[hash].Peers ==> hashmap[hash].Peers[id] != peer)
    }

    /** pools.Peers.Get, for a slot. */
    method TakePeer(ghost hash: Hash, ghost id: PeerID) returns (peer: Peer)
      requires Valid()
      modifies this`Repr, pool, pool.free
      ensures Valid() && Repr == old(Repr) + {peer} && (peer in old(Repr) || fresh(peer))
      ensures Reserved(peer, hash, id)
    {
      peer := pool.Get();
      peer.owner := Some((hash, id));
      Repr := Repr + {peer};
      forall h, i | h in hashmap && i in hashmap[h].Peers
        ensures hashmap[h].Peers[i] in Repr && Stored(h, i, hashmap[h].Peers[i])
      {
        assert old(Stored(h, i, hashmap[h].Peers[i]));
      }
    }

    method Save(ip: Addr, port: uint16, complete: bool, hash: Hash, id: PeerID, now: int64)
      requires Valid()
      modifies Repr
      ensures Valid() && fresh(Repr - old(Repr))
      ensures view == ApplySave(old(view), hash, id, Entry(complete, ip, port, now))
    {
      if hash !in hashmap {
        SaveIntoNewSwarm(view, hash, id, Entry(complete, ip, port, now));
        MakePeermap(hash);
      }
      var peerExists := id in hashmap[hash].Peers;
      var peer;
      if peerExists {
        peer := hashmap[hash].Peers[id];
      } else {
        peer := TakePeer(hash, id);
      }
      SaveInto(peer, peerExists, ip, port, complete, hash, id, now);
    }

    /** Save, with the peer at hand: slot and counters, metrics, the peer's own fields. */
    method SaveInto(peer: Peer, peerExists: bool,
                    ip: Addr, port: uint16, complete: bool, hash: Hash, id: PeerID, now: int64)
      requires Valid() && hash in hashmap
      requires peerExists <==> id in hashmap[hash].Peers
      requires if peerExists then peer == hashmap[hash].Peers[id] else Reserved(peer, hash, id)
      modifies this`hashmap, this`view, peer`data, stats, ipStats
      ensures Valid()
      ensures view == ApplySave(old(view), hash, id, Entry(complete, ip, port, now))
    {
      ghost var mid, sw := view, view.swarms[hash];
      ghost var prev, stale := Slot(sw, id), peer.data;
      assert peerExists ==> Stored(hash, id, peer);
      var peermap := hashmap[hash];
      if !peerExists {
        peermap := peermap.(Peers := peermap.Peers[id := peer]);
      }
      peermap := CountSave(peermap, peer, peerExists, complete);
      SetSwarm(hash, peermap, id, peer, Enlisted(sw, id, stale, complete));
      Meter(peer, peerExists, complete, ip, prev);
      SaveInStages(mid, hash, id, stale, Entry(complete, ip, port, now));
      Refresh(peer, complete, ip, port, now, hash, id);
    }

    /** Writes a swarm back, with `peer` in slot `id`. */
    method SetSwarm(hash: Hash, peermap: PeerMap, id: PeerID, peer: Peer, ghost sw: Swarm)
      requires Valid() && hash in hashmap
      requires peer in Repr && peer.owner == Some((hash, id)) && peer !in pool.free
      requires peermap.Complete == sw.complete && peermap.Incomplete == sw.incomplete
      requires peermap.Peers == hashmap[hash].Peers[id := peer]
      requires sw.peers == view.swarms[hash].peers[id := peer.data]
      modifies this`hashmap, this`view
      ensures Valid() && hashmap == old(hashmap)[hash := peermap] && view == Put(old(view), hash, sw)
    {
      hashmap := hashmap[hash := peermap];
      view := Put(view, hash, sw);
      forall h, i | h in hashmap && i in hashmap[h].Peers
        ensures hashmap[h].Peers[i] in Repr && Stored(h, i, hashmap[h].Peers[i])
      {
        if (h, i) != (hash, id) {
          assert old(Stored(h, i, hashmap[h].Peers[i]));
          assert view.swarms[h].peers[i] == old(view).swarms[h].peers[i];
        }
      }
    }

    method Meter(peer: Peer, peerExists: bool, complete: bool, ip: Addr, ghost prev: Option<Entry>)
      requires Valid() && prev == if peerExists then Some(peer.data) else None
      modifies this`view, stats, ipStats
      ensures Valid() && view == Metered(old(view), prev, complete, ip)
    {
      MeterSave(peer, peerExists, stats, ipStats, complete, ip);
      view := Metered(view, prev, complete, ip);
    }

    /** The peer's own fields. */
    method Refresh(peer: Peer, complete: bool, ip: Addr, port: uint16, now: int64, hash: Hash, id: PeerID)
      requires Valid() && hash in hashmap && id in hashmap[hash].Peers && peer == hashmap[hash].Peers[id]
      modifies this`view, peer`data
      ensures Valid()
      ensures view == Put(old(view), hash, Renewed(old(view).swarms[hash], id, Entry(complete, ip, port, now)))
    {
      ghost var sw := view.swarms[hash];
      peer.Fill(complete, ip, port, now);
      view := Put(view, hash, Renewed(sw, id, Entry(complete, ip, port, now)));
      assert SwarmsValid();
      forall h, i | h in hashmap && i in hashmap[h].Peers
        ensures Stored(h, i, hashmap[h].Peers[i])
      {
        var p := hashmap[h].Peers[i];
        assert old(Stored(h, i, p));
        if (h, i) != (hash, id) {
          assert p != peer;
          assert view.swarms[h].peers[i] == old(view).swarms[h].peers[i];
        }
      }
    }

    /** Writes a swarm back without slot `id`, whose peer is then held by nobody. */
    method UnsetSwarm(hash: Hash, peermap: PeerMap, id: PeerID, peer: Peer, ghost sw: Swarm)
      requires Valid() && hash in hashmap && id in hashmap[hash].Peers && peer == hashmap[hash].Peers[id]
      requires peermap.Complete == sw.complete && peermap.Incomplete == sw.incomplete
      requires peermap.Peers == hashmap[hash].Peers - {id}
      requires sw.peers == view.swarms[hash].peers - {id}
      modifies this`hashmap, this`view
      ensures Valid() && hashmap == old(hashmap)[hash := peermap] && view == Put(old(view), hash, sw)
      ensures Reserved(peer, hash, id)
    {
      assert Stored(hash, id, peer);
      OthersStay(view, hash, sw, id);
      hashmap := hashmap[hash := peermap];
      view := Put(view, hash, sw);
      assert SwarmsValid();
      forall h, i | h in hashmap && i in hashmap[h].Peers
        ensures hashmap[h].Peers[i] in Repr && Stored(h, i, hashmap[h].Peers[i])
      {
        var p := hashmap[h].Peers[i];
        assert p == old(hashmap)[h].Peers[i] && old(Stored(h, i, p));
        assert Has(view, h, i);
      }
    }

    /** pools.Peers.Put. */
    method Release(peer: Peer, ghost hash: Hash, ghost id: PeerID)
      requires Valid() && Reserved(peer, hash, id)
      modifies pool, peer`owner
      ensures Valid()
    {
      ghost var was := peer.owner;
      assert forall h, i | h in hashmap && i in hashmap[h].Peers :: Stored(h, i, hashmap[h].Peers[i]);
      peer.owner := None;
      pool.Put(peer);
    }

    /** Removes a stored peer: slot and counters, metrics, pool. */
    method Delete(peer: Peer, hash: Hash, id: PeerID)
      requires Valid() && hash in hashmap && id in hashmap[hash].Peers && peer == hashmap[hash].Peers[id]
      modifies this`hashmap, this`view, stats, ipStats, pool, peer`owner
      ensures Valid() && view == ApplyDrop(old(view), hash, id)
    {
      ghost var before, sw := view, view.swarms[hash];
      assert Stored(hash, id, peer);
      var peermap := hashmap[hash];
      peermap := peermap.(Peers := peermap.Peers - {id});
      if peer.data.complete {
        peermap := peermap.(Complete := U16(peermap.Complete - 1));
      } else {
        peermap := peermap.(Incomplete := U16(peermap.Incomplete - 1));
      }
      UnsetSwarm(hash, peermap, id, peer, SwarmDrop(sw, id));
      MeterOut(peer);
      Release(peer, hash, id);
    }

    method MeterOut(peer: Peer)
      requires Valid()
      modifies this`view, stats, ipStats
      ensures Valid() && view == MeteredOut(old(view), peer.data)
    {
      if peer.data.complete {
        stats.Seeds := I64(stats.Seeds - 1);
      } else {
        stats.Leeches := I64(stats.Leeches - 1);
      }
      ipStats.Remove(peer.data.ip);
      view := MeteredOut(view, peer.data);
    }

    method Drop(hash: Hash, id: PeerID)
      requires Valid()
      modifies Repr
      ensures Valid() && Repr == old(Repr)
      ensures view == ApplyDrop(old(view), hash, id)
    {
      if hash !in hashmap {
        return;
      }
      if id !in hashmap[hash].Peers {
        return;
      }
      Delete(hashmap[hash].Peers[id], hash, id);
    }

    method HashStats(hash: Hash) returns (complete: uint16, incomplete: uint16)
      requires SwarmsValid()
      ensures (complete, incomplete) == PeerDb.HashStats(view, hash)
    {
      if hash !in hashmap {
        return 0, 0;
      }
      return hashmap[hash].Complete, hashmap[hash].Incomplete;
    }

    /** One turn of trim's inner loop. */
    method TrimPeer(hash: Hash, id: PeerID, clock: int64, expiry: int64) returns (gone: bool)
      requires Valid() && hash in hashmap && id in hashmap[hash].Peers
      modifies Repr
      ensures Valid() && Repr == old(Repr)
      ensures gone == Expired(old(view).swarms[hash].peers[id], clock, expiry)
      ensures view == if gone then ApplyDrop(old(view), hash, id) else old(view)
    {
      var peer := hashmap[hash].Peers[id];
      assert Stored(hash, id, peer);
      gone := I64(clock - peer.data.lastSeen) > expiry;
      if gone {
        Delete(peer, hash, id);
      }
    }

    /** The inner loop of trim: the expired peers of one swarm, in any order. */
    method TrimSwarm(hash: Hash, clock: int64, expiry: int64) returns (peers: nat, ghost order: seq<Key>)
      requires Valid() && hash in hashmap
      modifies Repr
      ensures Valid() && Repr == old(Repr) && hash in view.swarms
      ensures peers == |order| && Swept(old(view), view, hash, {}, order, clock, expiry)
    {
      peers, order := 0, [];
      var todo := hashmap[hash].Peers.Keys;
      ghost var before := view;
      SweepStart(before, hash, clock, expiry);
      while todo != {}
        invariant Valid() && Repr == old(Repr) && hash in view.swarms
        invariant peers == |order| && Swept(before, view, hash, todo, order, clock, expiry)
      {
        var id :| id in todo;
        SweepStep(before, view, hash, todo, order, id, clock, expiry);
        todo := todo - {id};
        var gone := TrimPeer(hash, id, clock, expiry);
        if gone {
          peers := peers + 1;
          order := order + [(hash, id)];
        }
      }
    }

    method RemoveSwarm(hash: Hash)
      requires Valid() && hash in hashmap && hashmap[hash].Peers == map[]
      modifies this`hashmap, this`view
      ensures Valid() && view == Without(old(view), {hash})
    {
      hashmap := hashmap - {hash};
      view := Without(view, {hash});
    }

    /** One turn of the outer loop. */
    method TrimTurn(hash: Hash, clock: int64, expiry: int64, ghost before: Db, ghost todo: set<Hash>,
                    ghost gone: set<Hash>, ghost order: seq<Key>)
      returns (n: nat, removed: bool, ghost swept: seq<Key>)
      requires Valid() && hash in todo && Trimming(before, view, todo, gone, order, clock, expiry)
      modifies Repr
      ensures Valid() && Repr == old(Repr) && n == |swept|
      ensures removed ==>
          hash !in gone && Trimming(before, view, todo - {hash}, gone + {hash}, order + swept, clock, expiry)
      ensures !removed ==> Trimming(before, view, todo - {hash}, gone, order + swept, clock, expiry)
    {
      ghost var now := view;
      n, swept := TrimSwarm(hash, clock, expiry);
      TrimStep(before, now, view, todo, gone, order, hash, swept, clock, expiry);
      removed := |hashmap[hash].Peers| == 0;
      if removed {
        RemoveSwarm(hash);
      }
    }

    /** Drops the expired peers, and the swarms that are or become empty. */
    method Trim(clock: int64, expiry: int64) returns (peers: nat, hashes: nat, ghost order: seq<Key>)
      requires Valid()
      modifies Repr
      ensures Valid() && Repr == old(Repr)
      ensures Legal(old(view), PeerDb.Trim(clock, expiry, order)) && view == ApplyTrim(old(view), order)
      ensures peers == |ExpiredKeys(old(view), clock, expiry)|
      ensures hashes == |old(view).swarms| - |view.swarms|
    {
      ghost var before, gone := view, {};
      peers, hashes, order, gone := TrimAll(clock, expiry);
      TrimEnd(before, view, gone, order, clock, expiry);
    }

    method TrimAll(clock: int64, expiry: int64)
      returns (peers: nat, hashes: nat, ghost order: seq<Key>, ghost gone: set<Hash>)
      requires Valid()
      modifies Repr
      ensures Valid() && Repr == old(Repr) && peers == |order| && hashes == |gone|
      ensures Trimming(old(view), view, {}, gone, order, clock, expiry)
    {
      peers, hashes, order, gone := 0, 0, [], {};
      var todo := hashmap.Keys;
      ghost var before := view;
      TrimStart(before, clock, expiry);
      while todo != {}
        invariant Valid() && Repr == old(Repr)
        invariant peers == |order| && hashes == |gone|
        invariant Trimming(before, view, todo, gone, order, clock, expiry)
      {
        var hash :| hash in todo;
        var n, removed, swept := TrimTurn(hash, clock, expiry, before, todo, gone, order);
        todo, peers, order := todo - {hash}, peers + n, order + swept;
        if removed {
          OneMore(gone, hash);
          hashes, gone := hashes + 1, gone + {hash};
        }
      }
    }

    /** Counts all peers from scratch, in any order. */
    method SyncExpvars()
      requires Valid()
      modifies this`view, stats, ipStats
      ensures Valid() && view.swarms == old(view).swarms
      ensures Tallied(old(view).ips, view.ips, view.seeds, view.leeches, Flat(view))
    {
      var seeds, leeches := CountAll();
      ghost var was := view;
      StoreTotals(seeds, leeches);
      SameSwarmsSameFlat(was, view);
    }

    /** All but the metrics is in order. */
    ghost predicate PeersValid()
      reads this, Repr
    {
      && this in Repr && stats in Repr && ipStats in Repr
      && PoolValid()
      && SwarmsValid()
      && forall h, i | h in hashmap && i in hashmap[h].Peers ::
          hashmap[h].Peers[i] in Repr && Stored(h, i, hashmap[h].Peers[i])
    }

    method StoreTotals(seeds: int64, leeches: int64)
      requires PeersValid()
      modifies this`view, stats
      ensures Valid() && view == Db(old(view).swarms, seeds, leeches, ipStats.submap)
      ensures stats.Seeds == seeds && stats.Leeches == leeches
    {
      stats.Seeds := seeds;
      stats.Leeches := leeches;
      view := Db(view.swarms, seeds, leeches, ipStats.submap);
    }

    ghost predicate PeersInView()
      reads this, set h, i | h in hashmap && i in hashmap[h].Peers :: hashmap[h].Peers[i]
    {
      && view.swarms.Keys == hashmap.Keys
      && forall h | h in hashmap ::
          && hashmap[h].Peers.Keys == view.swarms[h].peers.Keys
          && forall i | i in hashmap[h].Peers :: hashmap[h].Peers[i].data == view.swarms[h].peers[i]
    }

    method CountAll() returns (seeds: int64, leeches: int64)
      requires PeersInView()
      modifies ipStats
      ensures Tallied(old(ipStats.submap), ipStats.submap, seeds, leeches, Flat(view))
    {
      seeds, leeches := 0, 0;
      var todo := hashmap.Keys;
      ghost var f: map<Key, Entry>, ips0 := map[], ipStats.submap;
      TallyNone(ips0);
      FlatOutsideAll(view);
      while todo != {}
        invariant todo <= hashmap.Keys && PeersInView()
        invariant Tallied(ips0, ipStats.submap, seeds, leeches, f)
        invariant f == FlatOutside(view, todo)
      {
        var hash :| hash in todo;
        seeds, leeches, f := SyncSwarm(hash, seeds, leeches, ips0, f, todo);
        todo := todo - {hash};
      }
      assert f == Flat(view);
    }

    method SyncPeer(ghost key: Key, peer: Peer, seeds0: int64, leeches0: int64, ghost ips0: map<Addr, int16>,
                    ghost f0: map<Key, Entry>)
      returns (seeds: int64, leeches: int64, ghost f: map<Key, Entry>)
      requires Tallied(ips0, ipStats.submap, seeds0, leeches0, f0) && key !in f0
      modifies ipStats
      ensures f == f0[key := peer.data] && Tallied(ips0, ipStats.submap, seeds, leeches, f)
    {
      TallyOne(ips0, ipStats.submap, seeds0, leeches0, f0, key, peer.data);
      seeds, leeches, f := seeds0, leeches0, f0[key := peer.data];
      ipStats.Inc(peer.data.ip);
      if peer.data.complete {
        seeds := I64(seeds + 1);
      } else {
        leeches := I64(leeches + 1);
      }
    }

    method SyncSwarm(hash: Hash, seeds0: int64, leeches0: int64, ghost ips0: map<Addr, int16>,
                     ghost f0: map<Key, Entry>, ghost rest: set<Hash>)
      returns (seeds: int64, leeches: int64, ghost f: map<Key, Entry>)
      requires PeersInView() && hash in hashmap && hash in rest
      requires Tallied(ips0, ipStats.submap, seeds0, leeches0, f0) && f0 == FlatOutside(view, rest)
      modifies ipStats
      ensures Tallied(ips0, ipStats.submap, seeds, leeches, f) && f == FlatOutside(view, rest - {hash})
    {
      seeds, leeches, f := seeds0, leeches0, f0;
      var todo := hashmap[hash].Peers.Keys;
      while todo != {}
        modifies ipStats
        invariant todo <= hashmap[hash].Peers.Keys
        invariant Tallied(ips0, ipStats.submap, seeds, leeches, f)
        invariant FlatPart(view, rest, hash, todo, f)
      {
        var id :| id in todo;
        var peer := hashmap[hash].Peers[id];
        FlatPartStep(view, rest, hash, todo, f, id);
        todo := todo - {id};
        seeds, leeches, f := SyncPeer((hash, id), peer, seeds, leeches, ips0, f);
      }
      FlatPartEnd(view, rest, hash, f);
    }

    // ---------- Steps of loading a snapshot ----------

    method Make()
      requires Valid()
      modifies this`hashmap, this`view
      ensures Valid() && hashmap == map[] && view == old(view).(swarms := map[])
    {
      hashmap := map[];
      view := view.(swarms := map[]);
    }

    /** Fills a peer from the pool and puts it into its slot. */
    method Load(hash: Hash, id: PeerID, peer: Peer, e: Entry)
      requires Valid() && hash in hashmap && Reserved(peer, hash, id)
      modifies this`hashmap, this`view, peer`data
      ensures Valid() && hash in hashmap
      ensures view == Put(old(view), hash, old(view).swarms[hash].(peers := old(view).swarms[hash].peers[id := e]))
    {
      FillReserved(hash, id, peer, e);
      ghost var sw := view.swarms[hash];
      var peermap := hashmap[hash];
      SetSwarm(hash, peermap.(Peers := peermap.Peers[id := peer]), id, peer, sw.(peers := sw.peers[id := e]));
    }

    method FillReserved(hash: Hash, id: PeerID, peer: Peer, e: Entry)
      requires Valid() && Reserved(peer, hash, id)
      modifies peer`data
      ensures Valid() && peer.data == e
    {
      assert forall h, i | h in hashmap && i in hashmap[h].Peers :: Stored(h, i, hashmap[h].Peers[i]);
      peer.Fill(e.complete, e.ip, e.port, e.lastSeen);
    }

    method SetCounters(hash: Hash, complete: uint16, incomplete: uint16)
      requires Valid() && hash in hashmap
      modifies this`hashmap, this`view
      ensures Valid() && hash in hashmap
      ensures view == Put(old(view), hash, Swarm(complete, incomplete, old(view).swarms[hash].peers))
    {
      ghost var sw := view.swarms[hash];
      hashmap := hashmap[hash := PeerMap(complete, incomplete, hashmap[hash].Peers)];
      view := Put(view, hash, Swarm(complete, incomplete, sw.peers));
      forall h, i | h in hashmap && i in hashmap[h].Peers
        ensures hashmap[h].Peers[i] in Repr && Stored(h, i, hashmap[h].Peers[i])
      {
        assert old(Stored(h, i, hashmap[h].Peers[i]));
        assert view.swarms[h].peers[i] == old(view).swarms[h].peers[i];
      }
    }
  }

  // ---------- One swarm ----------

  /** The objects of a swarm hold its stored peers. */
  ghost predicate Holds(swarm: map<PeerID, Peer>, stored: map<PeerID, Entry>)
    reads swarm.Values
  {
    swarm.Keys == stored.Keys && forall i | i in swarm :: swarm[i].data == stored[i]
  }

  lemma HoldsSwarm(db: Memory, hash: Hash)
    requires db.Valid() && hash in db.hashmap
    ensures hash in db.view.swarms && Holds(db.hashmap[hash].Peers, db.view.swarms[hash].peers)
  {
    assert forall i | i in db.hashmap[hash].Peers :: db.Stored(hash, i, db.hashmap[hash].Peers[i]);
  }

  // ---------- Stages of an operation, on the objects that it touches ----------

  /** The completion counters of a swarm, for a peer that reports `complete`. */
  method CountSave(peermap: PeerMap, peer: Peer, peerExists: bool, complete: bool) returns (after: PeerMap)
    ensures var was := if peerExists then Some(peer.data) else None;
            after == PeerMap(U16(peermap.Complete + One(complete) - One(Was(was, true))),
                             U16(peermap.Incomplete + One(!complete) - One(Was(was, false))), peermap.Peers)
  {
    after := peermap;
    if peerExists {
      if !peer.data.complete && complete {
        after := after.(Incomplete := U16(after.Incomplete - 1));
        after := after.(Complete := U16(after.Complete + 1));
      } else if peer.data.complete && !complete {
        after := after.(Complete := U16(after.Complete - 1));
        after := after.(Incomplete := U16(after.Incomplete + 1));
      }
    } else {
      if complete {
        after := after.(Complete := U16(after.Complete + 1));
      } else {
        after := after.(Incomplete := U16(after.Incomplete + 1));
      }
    }
  }

  /** The global metrics, for a peer that reports `complete` from `ip`. */
  method MeterSave(peer: Peer, peerExists: bool, stats: Metrics, ipStats: IpStats, complete: bool, ip: Addr)
    modifies stats, ipStats
    ensures var was := if peerExists then Some(peer.data) else None;
            && stats.Seeds == I64(old(stats.Seeds) + One(complete) - One(Was(was, true)))
            && stats.Leeches == I64(old(stats.Leeches) + One(!complete) - One(Was(was, false)))
            && ipStats.submap == MovedIp(old(ipStats.submap), was, ip)
  {
    if peerExists {
      if !peer.data.complete && complete {
        stats.Leeches := I64(stats.Leeches - 1);
        stats.Seeds := I64(stats.Seeds + 1);
      } else if peer.data.complete && !complete {
        stats.Seeds := I64(stats.Seeds - 1);
        stats.Leeches := I64(stats.Leeches + 1);
      }
      if peer.data.ip != ip {
        ipStats.Remove(peer.data.ip);
        ipStats.Inc(ip);
      }
    } else {
      ipStats.Inc(ip);
      if complete {
        stats.Seeds := I64(stats.Seeds + 1);
      } else {
        stats.Leeches := I64(stats.Leeches + 1);
      }
    }
  }
}
