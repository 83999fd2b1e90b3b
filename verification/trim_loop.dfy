/** The loops of trim, as sweeps over the swarms in an arbitrary order: what is gone
    and what is left between two turns. */
module TrimLoop {
  import opened Bytes
  import opened Storage
  import opened PeerDb
  import opened FlatMap

  lemma DropAllSnoc(db: Db, order: seq<Key>, k: Key)
    ensures DropAll(db, order + [k]) == ApplyDrop(DropAll(db, order), k.0, k.1)
  {
    assert (order + [k])[..|order|] == order;
  }

  lemma {:induction false} DropAllAppend(db: Db, first: seq<Key>, second: seq<Key>)
    ensures DropAll(db, first + second) == DropAll(DropAll(db, first), second)
  {
    if second == [] {
      assert first + second == first;
    } else {
      var n := |second| - 1;
      DropAllAppend(db, first, second[..n]);
      DropAllSnoc(db, first + second[..n], second[n]);
      assert first + second == first + second[..n] + [second[n]];
    }
  }

  /** Removing swarms and dropping peers of other swarms commute. */
  lemma {:induction false} DropAllWithout(db: Db, gone: set<Hash>, order: seq<Key>)
    requires forall k | k in order :: k.0 !in gone
    ensures DropAll(Without(db, gone), order) == Without(DropAll(db, order), gone)
  {
    if order != [] {
      var n := |order| - 1;
      DropAllWithout(db, gone, order[..n]);
      DropWithout(DropAll(db, order[..n]), gone, order[n]);
    }
  }

  lemma DropWithout(db: Db, gone: set<Hash>, k: Key)
    requires k.0 !in gone
    ensures ApplyDrop(Without(db, gone), k.0, k.1) == Without(ApplyDrop(db, k.0, k.1), gone)
  {
    if Has(db, k.0, k.1) {
      var sw := SwarmDrop(db.swarms[k.0], k.1);
      assert (db.swarms - gone)[k.0 := sw] == db.swarms[k.0 := sw] - gone;
    }
  }

  lemma {:induction false} DropAllElsewhere(db: Db, order: seq<Key>, h: Hash)
    requires h in db.swarms && forall k | k in order :: k.0 != h
    ensures h in DropAll(db, order).swarms && DropAll(db, order).swarms[h] == db.swarms[h]
  {
    if order != [] {
      DropAllElsewhere(db, order[..|order| - 1], h);
    }
  }

  /** Part of a sweep through one swarm: the peers in `todo` are still to be met, the
      expired ones among the others are dropped in `order`. */
  ghost predicate Swept(before: Db, now: Db, hash: Hash, todo: set<PeerID>, order: seq<Key>, clock: int64,
                        expiry: int64)
    requires hash in before.swarms && hash in now.swarms
  {
    var was, left := before.swarms[hash].peers, now.swarms[hash].peers;
    && now == DropAll(before, order)
    && (forall i | i in todo :: i in was && i in left && left[i] == was[i])
    && Enumerates(order, set i | i in was && i !in todo && Expired(was[i], clock, expiry) :: (hash, i))
  }

  lemma SweepStart(db: Db, hash: Hash, clock: int64, expiry: int64)
    requires hash in db.swarms
    ensures Swept(db, db, hash, db.swarms[hash].peers.Keys, [], clock, expiry)
  {
  }

  lemma SweepStep(before: Db, now: Db, hash: Hash, todo: set<PeerID>, order: seq<Key>, id: PeerID, clock: int64,
                  expiry: int64)
    requires hash in before.swarms && hash in now.swarms && id in todo
    requires Swept(before, now, hash, todo, order, clock, expiry)
    ensures var e := now.swarms[hash].peers[id];
            if Expired(e, clock, expiry) then
              hash in ApplyDrop(now, hash, id).swarms &&
              Swept(before, ApplyDrop(now, hash, id), hash, todo - {id}, order + [(hash, id)], clock, expiry)
            else
              Swept(before, now, hash, todo - {id}, order, clock, expiry)
  {
    var was := before.swarms[hash].peers;
    var met := set i | i in was && i !in todo && Expired(was[i], clock, expiry) :: (hash, i);
    var next := set i | i in was && i !in todo - {id} && Expired(was[i], clock, expiry) :: (hash, i);
    if Expired(was[id], clock, expiry) {
      DropAllSnoc(before, order, (hash, id));
      assert next == met + {(hash, id)};
      assert (hash, id) !in met;
    } else {
      assert next == met;
    }
  }

  function ExpiredOutside(db: Db, todo: set<Hash>, clock: int64, expiry: int64): set<Key> {
    set k | k in Flat(db) && k.0 !in todo && Expired(Flat(db)[k], clock, expiry)
  }

  /** Part of a trim: the swarms in `todo` are still to be met, the empty ones among
      the others are gone. */
  ghost predicate Trimming(before: Db, now: Db, todo: set<Hash>, gone: set<Hash>, order: seq<Key>, clock: int64,
                           expiry: int64) {
    && now == Without(DropAll(before, order), gone)
    && (forall h | h in todo :: h in before.swarms && h in now.swarms && now.swarms[h] == before.swarms[h])
    && gone == (set h | h in EmptySwarms(DropAll(before, order)) && h !in todo)
    && Enumerates(order, ExpiredOutside(before, todo, clock, expiry))
  }

  lemma TrimStart(db: Db, clock: int64, expiry: int64)
    ensures Trimming(db, db, db.swarms.Keys, {}, [], clock, expiry)
  {
    assert db.swarms - {} == db.swarms;
    assert forall k | k in Flat(db) :: Has(db, k.0, k.1);
  }

  lemma TrimEnd(before: Db, now: Db, gone: set<Hash>, order: seq<Key>, clock: int64, expiry: int64)
    requires Trimming(before, now, {}, gone, order, clock, expiry)
    ensures Legal(before, Trim(clock, expiry, order)) && now == ApplyTrim(before, order)
    ensures |order| == |ExpiredKeys(before, clock, expiry)|
    ensures |gone| == |before.swarms| - |now.swarms|
  {
    assert gone == EmptySwarms(DropAll(before, order));
    assert ExpiredOutside(before, {}, clock, expiry) == ExpiredKeys(before, clock, expiry);
    EnumerationLength(order, ExpiredKeys(before, clock, expiry));
    FlatOfDropAll(before, order);
    assert now.swarms.Keys == before.swarms.Keys - gone;
    assert |now.swarms| == |now.swarms.Keys| && |before.swarms| == |before.swarms.Keys|;
  }

  lemma {:induction false} EnumerationLength<T(!new)>(order: seq<T>, keys: set<T>)
    requires Enumerates(order, keys)
    ensures |order| == |keys|
  {
    if order == [] {
      assert keys == {};
    } else {
      var n := |order| - 1;
      var rest := keys - {order[n]};
      assert order[n] in keys;
      forall k ensures k in order[..n] <==> k in rest {
        assert k in order <==> k in order[..n] || k == order[n] by {
          assert order == order[..n] + [order[n]];
        }
      }
      EnumerationLength(order[..n], rest);
    }
  }

  lemma TrimStep(before: Db, now: Db, after: Db, todo: set<Hash>, gone: set<Hash>, order: seq<Key>,
                 hash: Hash, swept: seq<Key>, clock: int64, expiry: int64)
    requires Trimming(before, now, todo, gone, order, clock, expiry)
    requires hash in todo && hash in now.swarms && hash in after.swarms
    requires Swept(now, after, hash, {}, swept, clock, expiry)
    ensures if after.swarms[hash].peers == map[] then
              Trimming(before, Without(after, {hash}), todo - {hash}, gone + {hash}, order + swept, clock, expiry)
            else
              Trimming(before, after, todo - {hash}, gone, order + swept, clock, expiry)
  {
    var dropped := DropAll(before, order);
    var further := DropAll(before, order + swept);
    TrimStepState(before, after, gone, order, hash, swept);
    SweptOutside(before, now, todo, order, hash, swept, clock, expiry);
    EmptiesAfter(dropped, further, todo, gone, hash);
    assert after.swarms[hash] == further.swarms[hash];
    assert Without(Without(further, gone), {hash}) == Without(further, gone + {hash}) by {
      assert further.swarms - gone - {hash} == further.swarms - (gone + {hash});
    }
  }

  lemma TrimStepState(before: Db, after: Db, gone: set<Hash>, order: seq<Key>, hash: Hash, swept: seq<Key>)
    requires hash in before.swarms && hash !in gone && forall k | k in swept :: k.0 == hash
    requires after == DropAll(Without(DropAll(before, order), gone), swept)
    ensures var dropped, further := DropAll(before, order), DropAll(before, order + swept);
            && after == Without(further, gone)
            && dropped.swarms.Keys == before.swarms.Keys && further.swarms.Keys == before.swarms.Keys
            && forall h | h in before.swarms && h != hash :: further.swarms[h] == dropped.swarms[h]
  {
    DropAllAppend(before, order, swept);
    DropAllWithout(DropAll(before, order), gone, swept);
    FlatOfDropAll(before, order);
    FlatOfDropAll(before, order + swept);
    forall h | h in before.swarms && h != hash
      ensures DropAll(before, order + swept).swarms[h] == DropAll(before, order).swarms[h]
    {
      DropAllElsewhere(DropAll(before, order), swept, h);
    }
  }

  lemma EmptiesAfter(dropped: Db, further: Db, todo: set<Hash>, gone: set<Hash>, hash: Hash)
    requires hash in dropped.swarms && further.swarms.Keys == dropped.swarms.Keys
    requires forall h | h in dropped.swarms && h != hash :: further.swarms[h] == dropped.swarms[h]
    requires gone == (set h | h in EmptySwarms(dropped) && h !in todo) && hash in todo
    ensures (if further.swarms[hash].peers == map[] then gone + {hash} else gone)
         == (set h | h in EmptySwarms(further) && h !in todo - {hash})
  {
  }

  lemma SweptOutside(before: Db, now: Db, todo: set<Hash>, order: seq<Key>, hash: Hash, swept: seq<Key>,
                     clock: int64, expiry: int64)
    requires hash in todo && hash in before.swarms && hash in now.swarms && now.swarms[hash] == before.swarms[hash]
    requires Enumerates(order, ExpiredOutside(before, todo, clock, expiry))
    requires Enumerates(swept, set i | i in now.swarms[hash].peers && i !in {} &&
        Expired(now.swarms[hash].peers[i], clock, expiry) :: (hash, i))
    ensures Enumerates(order + swept, ExpiredOutside(before, todo - {hash}, clock, expiry))
  {
    var here := set i | i in now.swarms[hash].peers && i !in {} &&
        Expired(now.swarms[hash].peers[i], clock, expiry) :: (hash, i);
    var outside := ExpiredOutside(before, todo, clock, expiry);
    assert ExpiredOutside(before, todo - {hash}, clock, expiry) == outside + here by {
      forall k: Key ensures k in ExpiredOutside(before, todo - {hash}, clock, expiry) <==> k in outside + here {
        FlatAt(before, k.0, k.1);
      }
    }
    assert forall k | k in order :: k in outside && k.0 != hash;
    assert forall k | k in swept :: k in here && k.0 == hash;
  }
}
