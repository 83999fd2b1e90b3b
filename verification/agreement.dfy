/** Why the redundant counts always agree with the flat map of peers: counters per
    swarm, global totals and reference counts per IP, over every run. */
module Agreement {
  import opened Bytes
  import opened Storage
  import opened PeerDb
  import opened FlatMap

  // ---------- Counting ----------

  datatype Property = Complete | Incomplete | At(ip: Addr)

  predicate Fits(e: Entry, p: Property) {
    match p
    case Complete => e.complete
    case Incomplete => !e.complete
    case At(ip) => e.ip == ip
  }

  function Which<K(!new)>(f: map<K, Entry>, p: Property): set<K> {
    set k | k in f && Fits(f[k], p)
  }

  function Count<K(!new)>(f: map<K, Entry>, p: Property): nat {
    |Which(f, p)|
  }

  lemma CountRemove<K(!new)>(f: map<K, Entry>, k: K, p: Property)
    requires k in f
    ensures Count(f - {k}, p) == Count(f, p) - One(Fits(f[k], p))
  {
    assert Which(f - {k}, p) == Which(f, p) - {k};
  }

  lemma CountAdd<K(!new)>(f: map<K, Entry>, k: K, e: Entry, p: Property)
    requires k !in f
    ensures Count(f[k := e], p) == Count(f, p) + One(Fits(e, p))
  {
    if Fits(e, p) {
      assert Which(f[k := e], p) == Which(f, p) + {k};
    } else {
      assert Which(f[k := e], p) == Which(f, p);
    }
  }

  lemma CountPut<K(!new)>(f: map<K, Entry>, k: K, e: Entry, p: Property)
    ensures Count(f[k := e], p) == Count(f, p) - One(k in f && Fits(f[k], p)) + One(Fits(e, p))
  {
    CountAdd(f - {k}, k, e, p);
    assert (f - {k})[k := e] == f[k := e];
    if k in f {
      CountRemove(f, k, p);
    } else {
      assert f - {k} == f;
    }
  }

  lemma CountZero<K(!new)>(f: map<K, Entry>, p: Property)
    ensures Count(f, p) > 0 <==> exists k :: k in f && Fits(f[k], p)
  {
    if Count(f, p) > 0 {
      var k :| k in Which(f, p);
    } else {
      assert forall k :: k in f && Fits(f[k], p) ==> k in Which(f, p);
    }
  }

  // ---------- What the redundant counts mean ----------

  ghost predicate SwarmAgrees(sw: Swarm) {
    sw.complete == U16(Count(sw.peers, Complete)) && sw.incomplete == U16(Count(sw.peers, Incomplete))
  }

  /** Stored counts are the true counts, wrapped; an address without peers has no
      entry. */
  ghost predicate IpsAgree(ips: map<Addr, int16>, f: map<Key, Entry>) {
    && (forall ip :: IpCount(ips, ip) == I16(Count(f, At(ip))))
    && (forall ip | ip in ips :: Count(f, At(ip)) > 0)
  }

  ghost predicate TotalsAgree(db: Db, f: map<Key, Entry>) {
    && db.seeds == I64(Count(f, Complete))
    && db.leeches == I64(Count(f, Incomplete))
    && IpsAgree(db.ips, f)
  }

  ghost predicate Agrees(db: Db) {
    && (forall h | h in db.swarms :: SwarmAgrees(db.swarms[h]))
    && TotalsAgree(db, Flat(db))
  }

  lemma SwarmSaveAgrees(sw: Swarm, id: PeerID, e: Entry)
    requires SwarmAgrees(sw)
    ensures SwarmAgrees(SwarmSave(sw, id, e))
  {
    CountPut(sw.peers, id, e, Complete);
    CountPut(sw.peers, id, e, Incomplete);
    var prev := Slot(sw, id);
    U16Step(Count(sw.peers, Complete), One(e.complete) - One(Was(prev, true)));
    U16Step(Count(sw.peers, Incomplete), One(!e.complete) - One(Was(prev, false)));
  }

  lemma SwarmDropAgrees(sw: Swarm, id: PeerID)
    requires SwarmAgrees(sw) && id in sw.peers
    ensures SwarmAgrees(SwarmDrop(sw, id))
  {
    CountRemove(sw.peers, id, Complete);
    CountRemove(sw.peers, id, Incomplete);
  }

  lemma RemoveAgrees(ips: map<Addr, int16>, f: map<Key, Entry>, k: Key)
    requires IpsAgree(ips, f) && k in f
    ensures IpsAgree(Remove(ips, f[k].ip), f - {k})
  {
    var after := Remove(ips, f[k].ip);
    forall ip: Addr
      ensures IpCount(after, ip) == I16(Count(f - {k}, At(ip)))
      ensures ip in after ==> Count(f - {k}, At(ip)) > 0
    {
      CountRemove(f, k, At(ip));
      assert IpCount(ips, ip) == I16(Count(f, At(ip)));
      I16Step(Count(f, At(ip)), -1);
    }
  }

  lemma IncAgrees(ips: map<Addr, int16>, f: map<Key, Entry>, k: Key, e: Entry)
    requires IpsAgree(ips, f) && k !in f
    ensures IpsAgree(Inc(ips, e.ip), f[k := e])
  {
    var after := Inc(ips, e.ip);
    forall ip: Addr
      ensures IpCount(after, ip) == I16(Count(f[k := e], At(ip)))
      ensures ip in after ==> Count(f[k := e], At(ip)) > 0
    {
      CountPut(f, k, e, At(ip));
      assert IpCount(ips, ip) == I16(Count(f, At(ip)));
      I16Step(Count(f, At(ip)), 1);
    }
  }

  lemma RenewAgrees(ips: map<Addr, int16>, f: map<Key, Entry>, k: Key, e: Entry)
    requires IpsAgree(ips, f) && k in f && f[k].ip == e.ip
    ensures IpsAgree(ips, f[k := e])
  {
    forall ip: Addr ensures Count(f[k := e], At(ip)) == Count(f, At(ip)) {
      CountPut(f, k, e, At(ip));
    }
  }

  lemma MoveAgrees(ips: map<Addr, int16>, f: map<Key, Entry>, k: Key, e: Entry)
    requires IpsAgree(ips, f) && k in f
    ensures IpsAgree(Inc(Remove(ips, f[k].ip), e.ip), f[k := e])
  {
    RemoveAgrees(ips, f, k);
    IncAgrees(Remove(ips, f[k].ip), f - {k}, k, e);
    assert (f - {k})[k := e] == f[k := e];
  }

  lemma SaveTotal(total: int64, f: map<Key, Entry>, k: Key, e: Entry, p: Property)
    requires total == I64(Count(f, p))
    ensures I64(Count(f[k := e], p)) == I64(total + One(Fits(e, p)) - One(k in f && Fits(f[k], p)))
  {
    CountPut(f, k, e, p);
    I64Step(Count(f, p), One(Fits(e, p)) - One(k in f && Fits(f[k], p)));
  }

  lemma SaveIpsAgree(db: Db, f: map<Key, Entry>, hash: Hash, id: PeerID, e: Entry)
    requires IpsAgree(db.ips, f)
    requires (hash, id) in f <==> id in SwarmOf(db, hash).peers
    requires id in SwarmOf(db, hash).peers ==> f[(hash, id)] == SwarmOf(db, hash).peers[id]
    ensures IpsAgree(ApplySave(db, hash, id, e).ips, f[(hash, id) := e])
  {
    var k := (hash, id);
    if k !in f {
      IncAgrees(db.ips, f, k, e);
    } else if f[k].ip == e.ip {
      RenewAgrees(db.ips, f, k, e);
    } else {
      MoveAgrees(db.ips, f, k, e);
    }
  }

  lemma SaveSeedsAgree(db: Db, f: map<Key, Entry>, hash: Hash, id: PeerID, e: Entry)
    requires db.seeds == I64(Count(f, Complete))
    requires (hash, id) in f <==> id in SwarmOf(db, hash).peers
    requires id in SwarmOf(db, hash).peers ==> f[(hash, id)] == SwarmOf(db, hash).peers[id]
    ensures ApplySave(db, hash, id, e).seeds == I64(Count(f[(hash, id) := e], Complete))
  {
    SaveTotal(db.seeds, f, (hash, id), e, Complete);
  }

  lemma SaveLeechesAgree(db: Db, f: map<Key, Entry>, hash: Hash, id: PeerID, e: Entry)
    requires db.leeches == I64(Count(f, Incomplete))
    requires (hash, id) in f <==> id in SwarmOf(db, hash).peers
    requires id in SwarmOf(db, hash).peers ==> f[(hash, id)] == SwarmOf(db, hash).peers[id]
    ensures ApplySave(db, hash, id, e).leeches == I64(Count(f[(hash, id) := e], Incomplete))
  {
    SaveTotal(db.leeches, f, (hash, id), e, Incomplete);
  }

  lemma SaveAgrees(db: Db, hash: Hash, id: PeerID, e: Entry)
    requires Agrees(db)
    ensures Agrees(ApplySave(db, hash, id, e))
  {
    SaveSwarmsAgree(db, hash, id, e);
    SaveTotalsAgree(db, hash, id, e);
  }

  lemma SaveSwarmsAgree(db: Db, hash: Hash, id: PeerID, e: Entry)
    requires Agrees(db)
    ensures forall h | h in ApplySave(db, hash, id, e).swarms :: SwarmAgrees(ApplySave(db, hash, id, e).swarms[h])
  {
    if hash !in db.swarms {
      CountNone(Complete);
      CountNone(Incomplete);
    }
    SwarmSaveAgrees(SwarmOf(db, hash), id, e);
  }

  lemma SaveTotalsAgree(db: Db, hash: Hash, id: PeerID, e: Entry)
    requires Agrees(db)
    ensures TotalsAgree(ApplySave(db, hash, id, e), Flat(ApplySave(db, hash, id, e)))
  {
    FlatOfSave(db, hash, id, e);
    FlatAt(db, hash, id);
    SaveSeedsAgree(db, Flat(db), hash, id, e);
    SaveLeechesAgree(db, Flat(db), hash, id, e);
    SaveIpsAgree(db, Flat(db), hash, id, e);
  }

  lemma DropAgrees(db: Db, hash: Hash, id: PeerID)
    requires Agrees(db)
    ensures Agrees(ApplyDrop(db, hash, id))
  {
    if Has(db, hash, id) {
      FlatOfDrop(db, hash, id);
      FlatAt(db, hash, id);
      SwarmDropAgrees(db.swarms[hash], id);
      DropMetricsAgree(db, Flat(db), hash, id);
    }
  }

  lemma DropTotal(total: int64, f: map<Key, Entry>, k: Key, p: Property)
    requires k in f && total == I64(Count(f, p))
    ensures I64(Count(f - {k}, p)) == if Fits(f[k], p) then I64(total - 1) else total
  {
    CountRemove(f, k, p);
    I64Step(Count(f, p), -1);
  }

  lemma DropMetricsAgree(db: Db, f: map<Key, Entry>, hash: Hash, id: PeerID)
    requires TotalsAgree(db, f) && Has(db, hash, id)
    requires (hash, id) in f && f[(hash, id)] == db.swarms[hash].peers[id]
    ensures TotalsAgree(ApplyDrop(db, hash, id), f - {(hash, id)})
  {
    DropTotal(db.seeds, f, (hash, id), Complete);
    DropTotal(db.leeches, f, (hash, id), Incomplete);
    RemoveAgrees(db.ips, f, (hash, id));
  }

  lemma {:induction false} DropAllAgrees(db: Db, order: seq<Key>)
    requires Agrees(db)
    ensures Agrees(DropAll(db, order))
  {
    if order != [] {
      var n := |order| - 1;
      DropAllAgrees(db, order[..n]);
      DropAgrees(DropAll(db, order[..n]), order[n].0, order[n].1);
    }
  }

  lemma TrimAgrees(db: Db, order: seq<Key>)
    requires Agrees(db)
    ensures Agrees(ApplyTrim(db, order))
  {
    var swept := DropAll(db, order);
    DropAllAgrees(db, order);
    FlatOfWithout(swept, EmptySwarms(swept));
  }

  lemma SweepAgrees(db: Db, hash: Hash, order: seq<Key>)
    requires Agrees(db)
    ensures Agrees(ApplySweep(db, hash, order))
  {
    var swept := DropAll(db, order);
    DropAllAgrees(db, order);
    if hash in EmptySwarms(swept) {
      FlatOfWithout(swept, {hash});
    }
  }

  lemma ApplyAgrees(db: Db, op: Op)
    requires Agrees(db)
    ensures Agrees(Apply(db, op))
  {
    match op
    case Save(ip, port, complete, hash, id, now) => SaveAgrees(db, hash, id, Entry(complete, ip, port, now));
    case Drop(hash, id) => DropAgrees(db, hash, id);
    case Trim(_, _, order) => TrimAgrees(db, order);
    case Sweep(hash, _, _, order) => SweepAgrees(db, hash, order);
  }

  // ---------- Whole runs ----------

  function Run(db: Db, ops: seq<Op>): Db {
    if ops == [] then db else Apply(Run(db, ops[..|ops| - 1]), ops[|ops| - 1])
  }

  ghost predicate LegalRun(db: Db, ops: seq<Op>) {
    ops == [] ||
    (LegalRun(db, ops[..|ops| - 1]) && Legal(Run(db, ops[..|ops| - 1]), ops[|ops| - 1]))
  }

  lemma RunSnoc(db: Db, ops: seq<Op>, op: Op)
    requires LegalRun(db, ops) && Legal(Run(db, ops), op)
    ensures LegalRun(db, ops + [op]) && Run(db, ops + [op]) == Apply(Run(db, ops), op)
  {
    assert (ops + [op])[..|ops|] == ops;
  }

  function SimpleRun(s: Simple, ops: seq<Op>): Simple {
    if ops == [] then s else SimpleApply(SimpleRun(s, ops[..|ops| - 1]), ops[|ops| - 1])
  }

  lemma SimpleRunSnoc(s: Simple, ops: seq<Op>, op: Op)
    ensures SimpleRun(s, ops + [op]) == SimpleApply(SimpleRun(s, ops), op)
  {
    assert (ops + [op])[..|ops|] == ops;
  }

  /** Every run refines the flat map, and the redundant counts agree with it at its
      end. */
  lemma {:induction false} RunRefines(db: Db, ops: seq<Op>)
    requires Agrees(db) && LegalRun(db, ops)
    ensures Abs(Run(db, ops)) == SimpleRun(Abs(db), ops)
    ensures Agrees(Run(db, ops))
  {
    if ops != [] {
      var n := |ops| - 1;
      RunRefines(db, ops[..n]);
      ApplyRefines(Run(db, ops[..n]), ops[n]);
      ApplyAgrees(Run(db, ops[..n]), ops[n]);
    }
  }

  /** The peers of one hash in the flat map. */
  function PeersOf(f: map<Key, Entry>, hash: Hash): map<PeerID, Entry> {
    map k | k in f && k.0 == hash :: k.1 := f[k]
  }

  /** In every reachable state HashStats returns the true counts of the flat map,
      wrapped to 16 bits, for present and absent hashes alike. */
  lemma HashStatsExact(db: Db, ops: seq<Op>, hash: Hash)
    requires Agrees(db) && LegalRun(db, ops)
    ensures var peers := PeersOf(SimpleRun(Abs(db), ops).peers, hash);
            HashStats(Run(db, ops), hash) == (U16(Count(peers, Complete)), U16(Count(peers, Incomplete)))
  {
    RunRefines(db, ops);
    StatsOfFlat(Run(db, ops), hash);
    assert Abs(Run(db, ops)).peers == Flat(Run(db, ops));
  }

  lemma StatsOfFlat(db: Db, hash: Hash)
    requires Agrees(db)
    ensures var peers := PeersOf(Flat(db), hash);
            HashStats(db, hash) == (U16(Count(peers, Complete)), U16(Count(peers, Incomplete)))
  {
    PeersOfFlat(db, hash);
    if hash !in db.swarms {
      CountNone(Complete);
      CountNone(Incomplete);
    }
  }

  lemma CountNone(p: Property)
    ensures Count<PeerID>(map[], p) == 0
  {
    assert Which<PeerID>(map[], p) == {};
  }

  lemma PeersOfFlat(db: Db, hash: Hash)
    ensures PeersOf(Flat(db), hash) == SwarmOf(db, hash).peers
  {
    forall i
      ensures i in PeersOf(Flat(db), hash) <==> i in SwarmOf(db, hash).peers
      ensures i in PeersOf(Flat(db), hash) ==> PeersOf(Flat(db), hash)[i] == SwarmOf(db, hash).peers[i]
    {
      FlatAt(db, hash, i);
    }
  }

  lemma NothingExpiredAfterTrim(db: Db, clock: int64, expiry: int64, order: seq<Key>)
    requires Legal(db, Trim(clock, expiry, order))
    ensures ExpiredKeys(ApplyTrim(db, order), clock, expiry) == {}
  {
    KnownAfterTrim(db, order);
    assert Elems(order) == ExpiredKeys(db, clock, expiry);
  }

  lemma NoEmptySwarmAfterTrim(db: Db, order: seq<Key>)
    ensures EmptySwarms(ApplyTrim(db, order)) == {}
  {
  }

  /** A second trim at the same clock finds nothing to remove. */
  lemma TrimIdempotent(db: Db, clock: int64, expiry: int64, order: seq<Key>, again: seq<Key>)
    requires Legal(db, Trim(clock, expiry, order))
    requires Legal(ApplyTrim(db, order), Trim(clock, expiry, again))
    ensures again == [] && ApplyTrim(ApplyTrim(db, order), again) == ApplyTrim(db, order)
  {
    assert again == [] || again[0] in again;
    NothingExpiredAfterTrim(db, clock, expiry, order);
    NoEmptySwarmAfterTrim(db, order);
    assert Without(ApplyTrim(db, order), {}) == ApplyTrim(db, order);
  }
}
