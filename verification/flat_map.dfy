/** The simple thing that the database refines: one flat map of peers, and the
    hashes that are known. */
module FlatMap {
  import opened Bytes
  import opened Storage
  import opened PeerDb

  datatype Simple = Simple(known: set<Hash>, peers: map<Key, Entry>)

  function Abs(db: Db): Simple {
    Simple(db.swarms.Keys, Flat(db))
  }

  function SimpleApply(s: Simple, op: Op): Simple {
    match op
    case Save(ip, port, complete, hash, id, now) =>
      Simple(s.known + {hash}, s.peers[(hash, id) := Entry(complete, ip, port, now)])
    case Drop(hash, id) => s.(peers := s.peers - {(hash, id)})
    case Trim(clock, expiry, _) =>
      var kept := map k | k in s.peers && !Expired(s.peers[k], clock, expiry) :: s.peers[k];
      Simple(set k | k in kept :: k.0, kept)
    case Sweep(hash, clock, expiry, _) =>
      var kept := map k | k in s.peers && !(k.0 == hash && Expired(s.peers[k], clock, expiry)) :: s.peers[k];
      Simple(if hash in (set k | k in kept :: k.0) then s.known else s.known - {hash}, kept)
  }

  lemma FlatAt(db: Db, h: Hash, i: PeerID)
    ensures (h, i) in Flat(db) <==> Has(db, h, i)
    ensures Has(db, h, i) ==> Flat(db)[(h, i)] == db.swarms[h].peers[i]
  {
  }

  lemma FlatOfUpdate(db: Db, after: Db, hash: Hash, id: PeerID, e: Entry)
    requires after.swarms.Keys == db.swarms.Keys + {hash}
    requires forall h | h in db.swarms && h != hash :: after.swarms[h] == db.swarms[h]
    requires after.swarms[hash].peers == SwarmOf(db, hash).peers[id := e]
    ensures Flat(after) == Flat(db)[(hash, id) := e]
  {
    assert Keys(after) == Keys(db) + {(hash, id)} by {
      forall k: Key ensures Has(after, k.0, k.1) <==> Has(db, k.0, k.1) || k == (hash, id) {
      }
    }
  }

  lemma FlatOfSave(db: Db, hash: Hash, id: PeerID, e: Entry)
    ensures Flat(ApplySave(db, hash, id, e)) == Flat(db)[(hash, id) := e]
    ensures ApplySave(db, hash, id, e).swarms.Keys == db.swarms.Keys + {hash}
  {
    FlatOfUpdate(db, ApplySave(db, hash, id, e), hash, id, e);
  }

  lemma FlatOfRemoval(db: Db, after: Db, hash: Hash, id: PeerID)
    requires after.swarms.Keys == db.swarms.Keys
    requires forall h | h in db.swarms && h != hash :: after.swarms[h] == db.swarms[h]
    requires hash in db.swarms && after.swarms[hash].peers == db.swarms[hash].peers - {id}
    ensures Flat(after) == Flat(db) - {(hash, id)}
  {
    assert Keys(after) == Keys(db) - {(hash, id)} by {
      forall k: Key ensures Has(after, k.0, k.1) <==> Has(db, k.0, k.1) && k != (hash, id) {
      }
    }
  }

  lemma FlatOfDrop(db: Db, hash: Hash, id: PeerID)
    ensures Flat(ApplyDrop(db, hash, id)) == Flat(db) - {(hash, id)}
    ensures ApplyDrop(db, hash, id).swarms.Keys == db.swarms.Keys
  {
    if Has(db, hash, id) {
      FlatOfRemoval(db, ApplyDrop(db, hash, id), hash, id);
    } else {
      assert (hash, id) !in Keys(db);
    }
  }

  lemma {:induction false} FlatOfDropAll(db: Db, order: seq<Key>)
    ensures Flat(DropAll(db, order)) == Flat(db) - Elems(order)
    ensures DropAll(db, order).swarms.Keys == db.swarms.Keys
  {
    if order != [] {
      var n := |order| - 1;
      FlatOfDropAll(db, order[..n]);
      FlatOfDrop(DropAll(db, order[..n]), order[n].0, order[n].1);
      ElemsOfSnoc(order);
    }
  }

  lemma FlatOfWithout(db: Db, gone: set<Hash>)
    requires forall h | h in gone && h in db.swarms :: db.swarms[h].peers == map[]
    ensures Flat(Without(db, gone)) == Flat(db)
  {
    assert Keys(Without(db, gone)) == Keys(db) by {
      forall k: Key ensures Has(Without(db, gone), k.0, k.1) <==> Has(db, k.0, k.1) {
      }
    }
  }

  /** The hashes a trim leaves are those that still have a peer. */
  lemma KnownAfterTrim(db: Db, order: seq<Key>)
    ensures Flat(ApplyTrim(db, order)) == Flat(db) - Elems(order)
    ensures ApplyTrim(db, order).swarms.Keys == set k | k in Flat(db) - Elems(order) :: k.0
  {
    var swept := DropAll(db, order);
    var after := ApplyTrim(db, order);
    FlatOfDropAll(db, order);
    FlatOfWithout(swept, EmptySwarms(swept));
    forall h | h in after.swarms ensures exists k :: k in Flat(after) && k.0 == h {
      var i :| i in after.swarms[h].peers;
      assert (h, i) in Keys(after);
    }
    forall k | k in Flat(after) ensures k.0 in after.swarms {
      assert k in Keys(after);
    }
  }

  /** The hash that was swept stays known if it still has a peer. */
  lemma KnownAfterSweep(db: Db, hash: Hash, order: seq<Key>)
    ensures var after, left := ApplySweep(db, hash, order), Flat(db) - Elems(order);
            && Flat(after) == left
            && after.swarms.Keys ==
                if hash in (set k | k in left :: k.0) then db.swarms.Keys else db.swarms.Keys - {hash}
  {
    var swept := DropAll(db, order);
    FlatOfDropAll(db, order);
    FlatOfWithout(swept, {hash} * EmptySwarms(swept));
    assert hash in EmptySwarms(swept) ==> {hash} * EmptySwarms(swept) == {hash};
    forall k | k in Flat(swept) ensures k in Keys(swept) {
    }
    if hash in swept.swarms && hash !in EmptySwarms(swept) {
      var i :| i in swept.swarms[hash].peers;
      assert (hash, i) in Keys(swept);
    }
  }

  lemma TrimRefines(db: Db, clock: int64, expiry: int64, order: seq<Key>)
    requires Legal(db, Trim(clock, expiry, order))
    ensures Abs(ApplyTrim(db, order)) == SimpleApply(Abs(db), Trim(clock, expiry, order))
  {
    KnownAfterTrim(db, order);
    assert Elems(order) == ExpiredKeys(db, clock, expiry);
    assert Flat(db) - Elems(order) == SimpleApply(Abs(db), Trim(clock, expiry, order)).peers;
  }

  lemma SweepRefines(db: Db, hash: Hash, clock: int64, expiry: int64, order: seq<Key>)
    requires Legal(db, Sweep(hash, clock, expiry, order))
    ensures Abs(ApplySweep(db, hash, order)) == SimpleApply(Abs(db), Sweep(hash, clock, expiry, order))
  {
    KnownAfterSweep(db, hash, order);
    assert Elems(order) == ExpiredAt(db, hash, clock, expiry);
    assert Flat(db) - Elems(order) == SimpleApply(Abs(db), Sweep(hash, clock, expiry, order)).peers;
  }

  /** Every operation does to the flat map what the simple model says. */
  lemma ApplyRefines(db: Db, op: Op)
    requires Legal(db, op)
    ensures Abs(Apply(db, op)) == SimpleApply(Abs(db), op)
  {
    match op
    case Save(ip, port, complete, hash, id, now) => FlatOfSave(db, hash, id, Entry(complete, ip, port, now));
    case Drop(hash, id) => FlatOfDrop(db, hash, id);
    case Trim(clock, expiry, order) => TrimRefines(db, clock, expiry, order);
    case Sweep(hash, clock, expiry, order) => SweepRefines(db, hash, clock, expiry, order);
  }
}
