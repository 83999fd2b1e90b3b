/** A restart: the tracker loads a snapshot of the database, synchronises the metrics,
    and goes on. What comes back, and in which later states one can tell. */
module Restart {
  import opened Bytes
  import opened Storage
  import opened PeerDb
  import opened FlatMap
  import opened Agreement
  import opened Recount
  import opened Snapshot
  import EncodeBinary

  /** `loaded` is what a restart makes of a snapshot of `db` taken in some order. */
  ghost predicate Restarted(db: Db, blocks: seq<Block>, loaded: Db) {
    && Lists(blocks, db.swarms)
    && loaded.swarms == Decode(Encode(blocks)).swarms
    && Tallied(map[], loaded.ips, loaded.seeds, loaded.leeches, Flat(loaded))
  }

  /** The format counts the peers of a hash in 32 bits. */
  ghost predicate CountsFit(db: Db) {
    forall h | h in db.swarms :: |db.swarms[h].peers| < 0x1_0000_0000
  }

  // ---------- Right after the restart ----------

  /** A restart restores the swarms with their counters, both totals and every count per
      address, and repairs Total(): it changes nothing at all if and only if Total() was
      right. */
  lemma RestartRepairs(db: Db, blocks: seq<Block>, loaded: Db)
    requires Agrees(db) && CountsFit(db) && Restarted(db, blocks, loaded)
    ensures SameButIps(db, loaded) && Agrees(loaded) && TotalIsRight(loaded)
    ensures forall ip :: IpCount(loaded.ips, ip) == IpCount(db.ips, ip)
    ensures loaded == db <==> TotalIsRight(db)
  {
    SnapshotRoundTrip(blocks, db);
    RecountRepairs(db, loaded);
  }

  lemma RecountRepairs(db: Db, loaded: Db)
    requires Agrees(db) && loaded.swarms == db.swarms
    requires Tallied(map[], loaded.ips, loaded.seeds, loaded.leeches, Flat(loaded))
    ensures SameButIps(db, loaded) && Agrees(loaded) && TotalIsRight(loaded)
    ensures forall ip :: IpCount(loaded.ips, ip) == IpCount(db.ips, ip)
    ensures loaded == db <==> TotalIsRight(db)
  {
    SameSwarmsSameFlat(db, loaded);
    SyncEstablishes(loaded);
    SameCounts(db, loaded);
    NoneMissed(db);
    NoneMissed(loaded);
    TotalExact(loaded.ips, Flat(loaded));
    assert LostIps(loaded.ips, Flat(loaded)) == {};
  }

  lemma {:induction false} PeersCanBeListed(peers: map<PeerID, Entry>, todo: set<PeerID>) returns (ps: seq<PeerRecord>)
    requires todo <= peers.Keys
    ensures ListsPeers(ps, peers - (peers.Keys - todo))
  {
    if todo == {} {
      ps := [];
      assert peers - (peers.Keys - todo) == map[];
    } else {
      var id :| id in todo;
      ps := PeersCanBeListed(peers, todo - {id});
      EncodeBinary.ListsPeersStep(ps, peers, peers.Keys - (todo - {id}), id);
      assert peers.Keys - (todo - {id}) - {id} == peers.Keys - todo;
      ps := ps + [(id, peers[id])];
    }
  }

  lemma {:induction false} SwarmsCanBeListed(swarms: map<Hash, Swarm>, todo: set<Hash>) returns (blocks: seq<Block>)
    requires todo <= swarms.Keys
    ensures Lists(blocks, swarms - (swarms.Keys - todo))
  {
    if todo == {} {
      blocks := [];
      assert swarms - (swarms.Keys - todo) == map[] && Hashes(blocks) == {};
    } else {
      var h :| h in todo;
      blocks := SwarmsCanBeListed(swarms, todo - {h});
      var b := SwarmCanBeListed(h, swarms[h].peers);
      EncodeBinary.ListsStep(blocks, swarms, swarms.Keys - (todo - {h}), b);
      assert swarms.Keys - (todo - {h}) - {h} == swarms.Keys - todo;
      blocks := blocks + [b];
    }
  }

  lemma SwarmCanBeListed(h: Hash, peers: map<PeerID, Entry>) returns (b: Block)
    ensures b.hash == h && ListsPeers(b.peers, peers)
  {
    var ps := PeersCanBeListed(peers, peers.Keys);
    b := Block(h, ps);
    assert peers - (peers.Keys - peers.Keys) == peers;
  }

  lemma AllCanBeListed(swarms: map<Hash, Swarm>) returns (blocks: seq<Block>)
    ensures Lists(blocks, swarms)
  {
    blocks := SwarmsCanBeListed(swarms, swarms.Keys);
    assert swarms - (swarms.Keys - swarms.Keys) == swarms;
  }

  /** Every database can be restarted. */
  lemma RestartHappens(db: Db) returns (blocks: seq<Block>, loaded: Db)
    requires Agrees(db) && CountsFit(db)
    ensures Restarted(db, blocks, loaded)
  {
    blocks := AllCanBeListed(db.swarms);
    SnapshotRoundTrip(blocks, db);
    loaded := Reload(db, blocks);
  }

  lemma Reload(db: Db, blocks: seq<Block>) returns (loaded: Db)
    requires Lists(blocks, db.swarms) && db.swarms == Decode(Encode(blocks)).swarms && TotalsAgree(db, Flat(db))
    ensures Restarted(db, blocks, loaded)
  {
    var ips := map ip | ip in LiveIps(Flat(db)) :: IpCount(db.ips, ip);
    loaded := db.(ips := ips);
    LoadedIsTallied(db, blocks, loaded);
  }

  lemma LoadedIsTallied(db: Db, blocks: seq<Block>, loaded: Db)
    requires Lists(blocks, db.swarms) && db.swarms == Decode(Encode(blocks)).swarms
    requires TotalsAgree(db, Flat(db)) && SameButIps(db, loaded) && loaded.ips.Keys == LiveIps(Flat(db))
    requires forall ip | ip in loaded.ips :: loaded.ips[ip] == IpCount(db.ips, ip)
    ensures Restarted(db, blocks, loaded)
  {
    SameSwarmsSameFlat(db, loaded);
    LiveIsTallied(db.ips, loaded.ips, db.seeds, db.leeches, Flat(db));
  }

  lemma LiveIsTallied(ips: map<Addr, int16>, live: map<Addr, int16>, seeds: int64, leeches: int64, f: map<Key, Entry>)
    requires IpsAgree(ips, f) && live.Keys == LiveIps(f)
    requires seeds == I64(Count(f, Complete)) && leeches == I64(Count(f, Incomplete))
    requires forall ip | ip in live :: live[ip] == IpCount(ips, ip)
    ensures Tallied(map[], live, seeds, leeches, f)
  {
    var none: map<Addr, int16> := map[];
    assert none.Keys + LiveIps(f) == LiveIps(f);
    forall ip ensures IpCount(live, ip) == I16(IpCount(none, ip) + Count(f, At(ip))) {
      CountZero(f, At(ip));
      assert IpCount(ips, ip) == I16(Count(f, At(ip)));
    }
  }

  // ---------- Two runs that differ in their address tables ----------

  predicate SameButIps(a: Db, b: Db) {
    a.swarms == b.swarms && a.seeds == b.seeds && a.leeches == b.leeches
  }

  lemma {:induction false} SameDropAll(a: Db, b: Db, order: seq<Key>)
    requires SameButIps(a, b)
    ensures SameButIps(DropAll(a, order), DropAll(b, order))
  {
    if order != [] {
      SameDropAll(a, b, order[..|order| - 1]);
    }
  }

  lemma SameApply(a: Db, b: Db, op: Op)
    requires SameButIps(a, b)
    ensures SameButIps(Apply(a, op), Apply(b, op))
  {
    match op
    case Save(_, _, _, _, _, _) =>
    case Drop(_, _) =>
    case Trim(_, _, order) => SameDropAll(a, b, order);
    case Sweep(_, _, _, order) => SameDropAll(a, b, order);
  }

  lemma SameLegal(a: Db, b: Db, op: Op)
    requires SameButIps(a, b)
    ensures Legal(a, op) <==> Legal(b, op)
  {
    SameSwarmsSameFlat(a, b);
  }

  lemma {:induction false} SameRun(a: Db, b: Db, ops: seq<Op>)
    requires SameButIps(a, b)
    ensures LegalRun(a, ops) <==> LegalRun(b, ops)
    ensures SameButIps(Run(a, ops), Run(b, ops))
  {
    if ops != [] {
      var n := |ops| - 1;
      SameRun(a, b, ops[..n]);
      SameLegal(Run(a, ops[..n]), Run(b, ops[..n]), ops[n]);
      SameApply(Run(a, ops[..n]), Run(b, ops[..n]), ops[n]);
    }
  }

  ghost predicate MissTheSame(a: Db, b: Db) {
    forall ip :: Missed(a, ip) <==> Missed(b, ip)
  }

  lemma SameCounts(a: Db, b: Db)
    requires SameButIps(a, b) && Agrees(a) && Agrees(b)
    ensures forall ip :: IpCount(a.ips, ip) == IpCount(b.ips, ip)
    ensures a == b <==> MissTheSame(a, b)
  {
    SameSwarmsSameFlat(a, b);
    forall ip ensures IpCount(a.ips, ip) == IpCount(b.ips, ip) {
      assert IpCount(a.ips, ip) == I16(Count(Flat(a), At(ip)));
    }
    if MissTheSame(a, b) {
      forall ip ensures ip in a.ips <==> ip in b.ips {
        assert Missed(a, ip) <==> Missed(b, ip);
        CountZero(Flat(a), At(ip));
      }
      assert a.ips == b.ips by {
        forall ip | ip in a.ips ensures a.ips[ip] == b.ips[ip] {
          assert IpCount(a.ips, ip) == IpCount(b.ips, ip);
        }
      }
    }
  }

  /** The number of peers at the address stays what it is throughout the run. */
  ghost predicate CountStays(s: Simple, ops: seq<Op>, ip: Addr) {
    forall j | 0 <= j <= |ops| :: CountAt(s, ops, j, ip) == CountIn(s, ip)
  }

  lemma CountStaysNext(s: Simple, ops: seq<Op>, ip: Addr)
    requires ops != []
    ensures var n := |ops| - 1;
            CountStays(s, ops, ip) <==> CountStays(s, ops[..n], ip) && CountAt(s, ops, n + 1, ip) == CountIn(s, ip)
    ensures CountStays(s, ops, ip) ==> CountAt(s, ops, |ops| - 1, ip) == CountIn(s, ip)
    ensures CountStays(s, ops[..|ops| - 1], ip) ==> CountAt(s, ops, |ops| - 1, ip) == CountIn(s, ip)
  {
    var n, rest := |ops| - 1, ops[..|ops| - 1];
    forall j | 0 <= j <= n ensures CountAt(s, rest, j, ip) == CountAt(s, ops, j, ip) {
      assert rest[..j] == ops[..j];
    }
  }

  /** A run from `a` misses at its end what the same run from `b`, which misses no more,
      misses there, and besides exactly the addresses that `a` misses and whose number
      of peers never changes. */
  lemma {:induction false} MissedInBoth(a: Db, b: Db, ops: seq<Op>, ip: Addr)
    requires SameButIps(a, b) && Agrees(a) && Agrees(b) && LegalRun(a, ops) && !Missed(b, ip)
    ensures Missed(Run(a, ops), ip) <==>
            Missed(Run(b, ops), ip) || (Missed(a, ip) && CountStays(Abs(a), ops, ip))
    ensures CountStays(Abs(a), ops, ip) ==> !Missed(Run(b, ops), ip)
  {
    SameSwarmsSameFlat(a, b);
    SameRun(a, b, ops);
    if ops == [] {
      assert CountAt(Abs(a), ops, 0, ip) == CountIn(Abs(a), ip);
    } else {
      var n := |ops| - 1;
      MissedInBoth(a, b, ops[..n], ip);
      MissedNext(a, ops, ip);
      MissedNext(b, ops, ip);
      CountStaysNext(Abs(a), ops, ip);
    }
  }

  lemma MissedNext(db: Db, ops: seq<Op>, ip: Addr)
    requires Agrees(db) && LegalRun(db, ops) && ops != []
    ensures var n := |ops| - 1;
            Missed(Run(db, ops), ip) <==>
            MissedAfter(CountAt(Abs(db), ops, n, ip), CountAt(Abs(db), ops, n + 1, ip), Missed(Run(db, ops[..n]), ip))
  {
    var n := |ops| - 1;
    RunRefines(db, ops[..n]);
    OpMisses(Run(db, ops[..n]), ops[n], ip);
    assert ops[..n + 1] == ops;
  }

  /** The same operations are possible after a restart as without it, and they lead to
      the same swarms, counters, totals and counts per address. The address table, and
      with it Total(), is that of the run without a restart as soon as each address that
      was missed before has changed its number of peers, and not before. */
  lemma RunsAfterRestart(db: Db, blocks: seq<Block>, loaded: Db, ops: seq<Op>)
    requires Agrees(db) && CountsFit(db) && Restarted(db, blocks, loaded) && LegalRun(db, ops)
    ensures LegalRun(loaded, ops) && SameButIps(Run(db, ops), Run(loaded, ops)) && Agrees(Run(loaded, ops))
    ensures forall ip :: IpCount(Run(db, ops).ips, ip) == IpCount(Run(loaded, ops).ips, ip)
    ensures Run(db, ops) == Run(loaded, ops) <==> forall ip | Missed(db, ip) :: !CountStays(Abs(db), ops, ip)
  {
    RestartRepairs(db, blocks, loaded);
    NoneMissed(loaded);
    RunsOfBoth(db, loaded, ops);
  }

  lemma RunsOfBoth(a: Db, b: Db, ops: seq<Op>)
    requires SameButIps(a, b) && Agrees(a) && Agrees(b) && LegalRun(a, ops)
    requires forall ip :: !Missed(b, ip)
    ensures LegalRun(b, ops) && SameButIps(Run(a, ops), Run(b, ops)) && Agrees(Run(b, ops))
    ensures forall ip :: IpCount(Run(a, ops).ips, ip) == IpCount(Run(b, ops).ips, ip)
    ensures Run(a, ops) == Run(b, ops) <==> forall ip | Missed(a, ip) :: !CountStays(Abs(a), ops, ip)
  {
    SameRun(a, b, ops);
    RunRefines(a, ops);
    RunRefines(b, ops);
    SameCounts(Run(a, ops), Run(b, ops));
    WhereTheyDiffer(a, b, ops);
  }

  lemma WhereTheyDiffer(a: Db, b: Db, ops: seq<Op>)
    requires SameButIps(a, b) && Agrees(a) && Agrees(b) && LegalRun(a, ops)
    requires forall ip :: !Missed(b, ip)
    ensures MissTheSame(Run(a, ops), Run(b, ops)) <==> forall ip | Missed(a, ip) :: !CountStays(Abs(a), ops, ip)
  {
    forall ip
      ensures (Missed(Run(a, ops), ip) <==> Missed(Run(b, ops), ip)) <==>
              !(Missed(a, ip) && CountStays(Abs(a), ops, ip))
    {
      MissedInBoth(a, b, ops, ip);
    }
  }

  // ---------- A restart that shows ----------

  lemma {:induction false} CrowdSize(n: nat)
    ensures |CrowdMap(n)| <= n
  {
    if n > 0 {
      CrowdSize(n - 1);
      PutSize(CrowdMap(n - 1), (SOME_HASH, IdOf(n - 1)), ONE_OF_MANY);
    }
  }

  lemma {:induction false} CrowdAddress(n: nat, k: Key)
    requires k in CrowdMap(n)
    ensures CrowdMap(n)[k].ip == CROWDED
  {
    if k != (SOME_HASH, IdOf(n - 1)) {
      CrowdAddress(n - 1, k);
    }
  }

  lemma ThinnedMap(n: nat)
    ensures var after := Run(EMPTY_DB, Thinned(n));
            Agrees(after) && Flat(after) == CrowdMap(n) - {(SOME_HASH, IdOf(0))}
  {
    var crowd := Crowd(n);
    CrowdRuns(n);
    ThinnedRuns(EMPTY_DB, n);
    EmptyAgrees();
    RunRefines(EMPTY_DB, crowd);
    RunRefines(EMPTY_DB, Thinned(n));
    FlatOfDrop(Run(EMPTY_DB, crowd), SOME_HASH, IdOf(0));
    assert Abs(Run(EMPTY_DB, crowd)).peers == CrowdMap(n);
  }

  lemma SwarmsWithin(db: Db, n: nat)
    requires |Flat(db)| <= n < 0x1_0000_0000
    ensures CountsFit(db)
  {
    forall h | h in db.swarms ensures |db.swarms[h].peers| < 0x1_0000_0000 {
      FlatWithout(db, h);
    }
  }

  lemma SizeWithout(f: map<Key, Entry>, k: Key)
    ensures |f - {k}| <= |f|
  {
    assert (f - {k}).Keys <= f.Keys;
    SubsetSize((f - {k}).Keys, f.Keys);
    assert |f| == |f.Keys| && |f - {k}| == |(f - {k}).Keys|;
  }

  lemma SubsetSize<T>(a: set<T>, b: set<T>)
    requires a <= b
    ensures |a| <= |b|
  {
    assert b == a + (b - a);
  }

  lemma ThinnedState()
    ensures var db := Run(EMPTY_DB, Thinned(0x1_0001));
            && LegalRun(EMPTY_DB, Thinned(0x1_0001)) && Agrees(db) && CountsFit(db)
            && |db.ips| == 0 && |LiveIps(Flat(db))| == 1
  {
    var n := 0x1_0001;
    var db := Run(EMPTY_DB, Thinned(n));
    TotalCanFallShort();
    ThinnedMap(n);
    CrowdSize(n);
    SizeWithout(CrowdMap(n), (SOME_HASH, IdOf(0)));
    SwarmsWithin(db, n);
    forall k | k in Flat(db) ensures Flat(db)[k].ip == CROWDED {
      CrowdAddress(n, k);
    }
    OnlyOneLost(db, CROWDED);
  }

  /** After 65537 saves from one address and one drop, Total() is 0 without a restart and
      1 with one. */
  lemma RestartShows(blocks: seq<Block>, loaded: Db)
    requires Restarted(Run(EMPTY_DB, Thinned(0x1_0001)), blocks, loaded)
    ensures var db := Run(EMPTY_DB, Thinned(0x1_0001));
            LegalRun(EMPTY_DB, Thinned(0x1_0001)) && |db.ips| == 0 && |loaded.ips| == 1
  {
    var db := Run(EMPTY_DB, Thinned(0x1_0001));
    ThinnedState();
    RestartRepairs(db, blocks, loaded);
    SameSwarmsSameFlat(db, loaded);
  }

  lemma RestartCanShow() returns (blocks: seq<Block>, loaded: Db)
    ensures Restarted(Run(EMPTY_DB, Thinned(0x1_0001)), blocks, loaded) && |loaded.ips| == 1
  {
    ThinnedState();
    blocks, loaded := RestartHappens(Run(EMPTY_DB, Thinned(0x1_0001)));
    RestartShows(blocks, loaded);
  }

  lemma OnlyOneLost(db: Db, ip: Addr)
    requires Agrees(db) && Count(Flat(db), At(ip)) > 0 && ip !in db.ips
    requires forall k | k in Flat(db) :: Flat(db)[k].ip == ip
    ensures |db.ips| == 0 && |LiveIps(Flat(db))| == 1
  {
    CountZero(Flat(db), At(ip));
    assert LiveIps(Flat(db)) == {ip};
    TotalExact(db.ips, Flat(db));
    assert LostIps(db.ips, Flat(db)) == {ip};
  }
}
