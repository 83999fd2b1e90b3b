/** The number of distinct IPs, and the metrics computed from scratch. */
module Recount {
  import opened Bytes
  import opened Storage
  import opened PeerDb
  import opened FlatMap
  import opened Agreement

  // ---------- Total() and the recomputed metrics ----------

  function LiveIps(f: map<Key, Entry>): set<Addr> {
    set k | k in f :: f[k].ip
  }

  /** Addresses whose entry the counter has lost. */
  function LostIps(ips: map<Addr, int16>, f: map<Key, Entry>): set<Addr> {
    LiveIps(f) - ips.Keys
  }

  /** Total() falls short by the lost addresses, and an address can only be lost while
      its number of peers is a multiple of 65536. */
  lemma TotalExact(ips: map<Addr, int16>, f: map<Key, Entry>)
    requires IpsAgree(ips, f)
    ensures |ips| == |LiveIps(f)| - |LostIps(ips, f)|
    ensures forall ip | ip in LostIps(ips, f) :: Count(f, At(ip)) >= 0x1_0000 && Count(f, At(ip)) % 0x1_0000 == 0
  {
    forall ip | ip in ips ensures ip in LiveIps(f) {
      CountZero(f, At(ip));
    }
    assert LiveIps(f) == LostIps(ips, f) + ips.Keys;
    assert |ips| == |ips.Keys|;
    forall ip | ip in LostIps(ips, f)
      ensures Count(f, At(ip)) >= 0x1_0000 && Count(f, At(ip)) % 0x1_0000 == 0
    {
      LostIsMultiple(ips, f, ip);
    }
  }

  lemma LostIsMultiple(ips: map<Addr, int16>, f: map<Key, Entry>, ip: Addr)
    requires IpsAgree(ips, f) && ip in LostIps(ips, f)
    ensures Count(f, At(ip)) >= 0x1_0000 && Count(f, At(ip)) % 0x1_0000 == 0
  {
    CountZero(f, At(ip));
    assert IpCount(ips, ip) == 0;
  }

  /** Total() counts the distinct live addresses in every reachable state in which no
      address has 65536 peers or more. */
  lemma TotalOverRuns(db: Db, ops: seq<Op>)
    requires Agrees(db) && LegalRun(db, ops)
    requires forall ip :: Count(SimpleRun(Abs(db), ops).peers, At(ip)) <= 0xffff
    ensures |Run(db, ops).ips| == |LiveIps(SimpleRun(Abs(db), ops).peers)|
  {
    RunRefines(db, ops);
    TotalExact(Run(db, ops).ips, Flat(Run(db, ops)));
    assert LostIps(Run(db, ops).ips, Flat(Run(db, ops))) == {};
  }

  /** Removing a peer loses its address exactly when a positive multiple of 65536
      peers stays behind. */
  lemma DropLosesIp(db: Db, hash: Hash, id: PeerID)
    requires Agrees(db) && Has(db, hash, id)
    ensures var ip := Flat(db)[(hash, id)].ip;
            var left := Count(Flat(db), At(ip)) - 1;
            left > 0 && left % 0x1_0000 == 0 <==>
            ip in LostIps(ApplyDrop(db, hash, id).ips, Flat(ApplyDrop(db, hash, id)))
  {
    FlatAt(db, hash, id);
    FlatOfDrop(db, hash, id);
    RemoveLosesIp(db.ips, Flat(db), (hash, id));
  }

  lemma RemoveLosesIp(ips: map<Addr, int16>, f: map<Key, Entry>, k: Key)
    requires IpsAgree(ips, f) && k in f
    ensures var left := Count(f, At(f[k].ip)) - 1;
            left > 0 && left % 0x1_0000 == 0 <==> f[k].ip in LostIps(Remove(ips, f[k].ip), f - {k})
  {
    var ip := f[k].ip;
    CountRemove(f, k, At(ip));
    CountZero(f - {k}, At(ip));
    assert IpCount(ips, ip) == I16(Count(f, At(ip)));
    assert ip in LiveIps(f - {k}) <==> Count(f - {k}, At(ip)) > 0;
  }

  // ---------- Exactly when Total() misses an address ----------

  /** Total() misses a live address. */
  ghost predicate Missed(db: Db, ip: Addr) {
    ip in LostIps(db.ips, Flat(db))
  }

  /** Total() is the number of distinct live addresses. */
  ghost predicate TotalIsRight(db: Db) {
    |db.ips| == |LiveIps(Flat(db))|
  }

  function CountIn(s: Simple, ip: Addr): nat {
    Count(s.peers, At(ip))
  }

  /** A count falls to a positive multiple of 65536. */
  predicate Lands(n: nat, m: nat) {
    m < n && m > 0 && m % 0x1_0000 == 0
  }

  lemma NoneMissed(db: Db)
    requires Agrees(db)
    ensures TotalIsRight(db) <==> forall ip :: !Missed(db, ip)
  {
    TotalExact(db.ips, Flat(db));
    if TotalIsRight(db) {
      assert LostIps(db.ips, Flat(db)) == {};
      assert forall ip :: Missed(db, ip) ==> ip in LostIps(db.ips, Flat(db));
    } else {
      var ip :| ip in LostIps(db.ips, Flat(db));
      assert Missed(db, ip);
    }
  }

  lemma IncFinds(ips: map<Addr, int16>, f: map<Key, Entry>, k: Key, e: Entry, ip: Addr)
    requires IpsAgree(ips, f) && k !in f
    ensures ip in LostIps(Inc(ips, e.ip), f[k := e]) <==> ip != e.ip && ip in LostIps(ips, f)
  {
    LiveIpsOfAdd(f, k, e);
  }

  lemma RemoveElsewhere(ips: map<Addr, int16>, f: map<Key, Entry>, k: Key, ip: Addr)
    requires IpsAgree(ips, f) && k in f && f[k].ip != ip
    ensures ip in LostIps(Remove(ips, f[k].ip), f - {k}) <==> ip in LostIps(ips, f)
  {
    var rest := f - {k};
    assert rest[k := f[k]] == f;
    LiveIpsOfAdd(rest, k, f[k]);
  }

  lemma RemoveMisses(ips: map<Addr, int16>, f: map<Key, Entry>, k: Key, ip: Addr)
    requires IpsAgree(ips, f) && k in f
    ensures ip in LostIps(Remove(ips, f[k].ip), f - {k}) <==>
            MissedAfter(Count(f, At(ip)), Count(f - {k}, At(ip)), ip in LostIps(ips, f))
  {
    CountRemove(f, k, At(ip));
    if f[k].ip == ip {
      RemoveLosesIp(ips, f, k);
    } else {
      RemoveElsewhere(ips, f, k, ip);
    }
  }

  /** Missing after a change of the count from `n` to `m`. */
  predicate MissedAfter(n: nat, m: nat, before: bool) {
    Lands(n, m) || (m == n && before)
  }

  lemma DropMisses(db: Db, hash: Hash, id: PeerID, ip: Addr)
    requires Agrees(db)
    ensures var after := ApplyDrop(db, hash, id);
            var n, m := Count(Flat(db), At(ip)), Count(Flat(after), At(ip));
            m <= n && (Missed(after, ip) <==> MissedAfter(n, m, Missed(db, ip)))
  {
    if Has(db, hash, id) {
      FlatAt(db, hash, id);
      FlatOfDrop(db, hash, id);
      CountRemove(Flat(db), (hash, id), At(ip));
      RemoveMisses(db.ips, Flat(db), (hash, id), ip);
    }
  }

  lemma {:induction false} DropAllMisses(db: Db, order: seq<Key>, ip: Addr)
    requires Agrees(db)
    ensures var after := DropAll(db, order);
            var n, m := Count(Flat(db), At(ip)), Count(Flat(after), At(ip));
            m <= n && (Missed(after, ip) <==> MissedAfter(n, m, Missed(db, ip)))
  {
    if order != [] {
      var last := |order| - 1;
      DropAllMisses(db, order[..last], ip);
      DropAllAgrees(db, order[..last]);
      DropMisses(DropAll(db, order[..last]), order[last].0, order[last].1, ip);
    }
  }

  lemma MoveMisses(ips: map<Addr, int16>, f: map<Key, Entry>, k: Key, e: Entry, ip: Addr)
    requires IpsAgree(ips, f) && k in f && f[k].ip != e.ip
    ensures ip in LostIps(Inc(Remove(ips, f[k].ip), e.ip), f[k := e]) <==>
            MissedAfter(Count(f, At(ip)), Count(f[k := e], At(ip)), ip in LostIps(ips, f))
  {
    var rest := f - {k};
    assert rest[k := e] == f[k := e];
    RemoveAgrees(ips, f, k);
    IncFinds(Remove(ips, f[k].ip), rest, k, e, ip);
    CountPut(f, k, e, At(ip));
    if f[k].ip == ip {
      RemoveLosesIp(ips, f, k);
    } else {
      RemoveElsewhere(ips, f, k, ip);
    }
  }

  lemma SameIpMisses(f: map<Key, Entry>, k: Key, e: Entry, ip: Addr)
    requires k in f && f[k].ip == e.ip
    ensures LiveIps(f[k := e]) == LiveIps(f) && Count(f[k := e], At(ip)) == Count(f, At(ip))
  {
    var rest := f - {k};
    assert rest[k := e] == f[k := e] && rest[k := f[k]] == f;
    LiveIpsOfAdd(rest, k, e);
    LiveIpsOfAdd(rest, k, f[k]);
    CountPut(f, k, e, At(ip));
  }

  lemma SaveMisses(db: Db, hash: Hash, id: PeerID, e: Entry, ip: Addr)
    requires Agrees(db)
    ensures var after := ApplySave(db, hash, id, e);
            Missed(after, ip) <==>
            MissedAfter(Count(Flat(db), At(ip)), Count(Flat(after), At(ip)), Missed(db, ip))
  {
    var f, k := Flat(db), (hash, id);
    FlatAt(db, hash, id);
    FlatOfSave(db, hash, id, e);
    if k !in f {
      CountPut(f, k, e, At(ip));
      IncFinds(db.ips, f, k, e, ip);
    } else if f[k].ip == e.ip {
      SameIpMisses(f, k, e, ip);
    } else {
      MoveMisses(db.ips, f, k, e, ip);
    }
  }

  lemma WithoutMisses(db: Db, gone: set<Hash>, ip: Addr)
    requires gone <= EmptySwarms(db)
    ensures Flat(Without(db, gone)) == Flat(db) && (Missed(Without(db, gone), ip) <==> Missed(db, ip))
  {
    FlatOfWithout(db, gone);
  }

  /** After any operation, Total() misses an address if and only if the number of its
      peers has fallen to a positive multiple of 65536, or is unchanged and the address
      was missed before. The counts are those of the flat map. */
  lemma OpMisses(db: Db, op: Op, ip: Addr)
    requires Agrees(db) && Legal(db, op)
    ensures Missed(Apply(db, op), ip) <==>
            MissedAfter(CountIn(Abs(db), ip), CountIn(SimpleApply(Abs(db), op), ip), Missed(db, ip))
  {
    ApplyRefines(db, op);
    assert Abs(Apply(db, op)).peers == Flat(Apply(db, op));
    match op
    case Save(a, port, complete, hash, id, now) => SaveMisses(db, hash, id, Entry(complete, a, port, now), ip);
    case Drop(hash, id) => DropMisses(db, hash, id, ip);
    case Trim(_, _, order) =>
      DropAllMisses(db, order, ip);
      WithoutMisses(DropAll(db, order), EmptySwarms(DropAll(db, order)), ip);
    case Sweep(hash, _, _, order) =>
      DropAllMisses(db, order, ip);
      WithoutMisses(DropAll(db, order), {hash} * EmptySwarms(DropAll(db, order)), ip);
      assert hash in EmptySwarms(DropAll(db, order)) ==> {hash} * EmptySwarms(DropAll(db, order)) == {hash};
  }

  /** While Total() is right, an operation keeps it right if and only if it lets no
      address fall to a positive multiple of 65536 peers. */
  lemma TotalStaysRight(db: Db, op: Op)
    requires Agrees(db) && Legal(db, op) && TotalIsRight(db)
    ensures TotalIsRight(Apply(db, op)) <==>
            forall ip :: !Lands(CountIn(Abs(db), ip), CountIn(SimpleApply(Abs(db), op), ip))
  {
    ApplyAgrees(db, op);
    NoneMissed(db);
    NoneMissed(Apply(db, op));
    forall ip
      ensures Missed(Apply(db, op), ip) <==> Lands(CountIn(Abs(db), ip), CountIn(SimpleApply(Abs(db), op), ip))
    {
      OpMisses(db, op, ip);
    }
  }

  /** The number of peers at an address after the first `i` operations of a run. */
  function CountAt(s: Simple, ops: seq<Op>, i: nat, ip: Addr): nat
    requires i <= |ops|
  {
    CountIn(SimpleRun(s, ops[..i]), ip)
  }

  /** The i-th operation lets the address fall to a positive multiple of 65536 peers, and
      no later one changes that number. */
  ghost predicate FallsAndStays(s: Simple, ops: seq<Op>, i: nat, ip: Addr) {
    && i < |ops| && Lands(CountAt(s, ops, i, ip), CountAt(s, ops, i + 1, ip))
    && forall j | i < j <= |ops| :: CountAt(s, ops, j, ip) == CountAt(s, ops, i + 1, ip)
  }

  /** The last change of the number of peers at the address was such a fall. */
  ghost predicate LastFell(s: Simple, ops: seq<Op>, ip: Addr) {
    exists i :: FallsAndStays(s, ops, i, ip)
  }

  lemma FallsBefore(s: Simple, ops: seq<Op>, i: nat, ip: Addr)
    requires ops != [] && i < |ops| - 1
    ensures var n := |ops| - 1;
            FallsAndStays(s, ops, i, ip) <==>
            FallsAndStays(s, ops[..n], i, ip) && CountAt(s, ops, n, ip) == CountAt(s, ops, n + 1, ip)
  {
    var n, rest := |ops| - 1, ops[..|ops| - 1];
    forall j | 0 <= j <= n ensures CountAt(s, rest, j, ip) == CountAt(s, ops, j, ip) {
      assert rest[..j] == ops[..j];
    }
  }

  lemma FallsNext(s: Simple, ops: seq<Op>, ip: Addr)
    requires ops != []
    ensures var n := |ops| - 1;
            LastFell(s, ops, ip) <==>
            MissedAfter(CountAt(s, ops, n, ip), CountAt(s, ops, n + 1, ip), LastFell(s, ops[..n], ip))
  {
    var n := |ops| - 1;
    if Lands(CountAt(s, ops, n, ip), CountAt(s, ops, n + 1, ip)) {
      assert FallsAndStays(s, ops, n, ip);
    }
    forall i: nat | i < n
      ensures FallsAndStays(s, ops, i, ip) <==>
              FallsAndStays(s, ops[..n], i, ip) && CountAt(s, ops, n, ip) == CountAt(s, ops, n + 1, ip)
    {
      FallsBefore(s, ops, i, ip);
    }
  }

  /** After any run from a state in which Total() is right, it misses exactly the
      addresses whose number of peers last changed by falling to a positive multiple
      of 65536. */
  lemma {:induction false} RunMisses(db: Db, ops: seq<Op>, ip: Addr)
    requires Agrees(db) && LegalRun(db, ops) && TotalIsRight(db)
    ensures Missed(Run(db, ops), ip) <==> LastFell(Abs(db), ops, ip)
  {
    if ops == [] {
      NoneMissed(db);
    } else {
      var n := |ops| - 1;
      RunMisses(db, ops[..n], ip);
      RunRefines(db, ops[..n]);
      OpMisses(Run(db, ops[..n]), ops[n], ip);
      FallsNext(Abs(db), ops, ip);
      assert ops[..n + 1] == ops;
    }
  }

  /** So Total() is right at the end of a run if and only if there is no such address. */
  lemma TotalAfterRun(db: Db, ops: seq<Op>)
    requires Agrees(db) && LegalRun(db, ops) && TotalIsRight(db)
    ensures TotalIsRight(Run(db, ops)) <==> forall ip :: !LastFell(Abs(db), ops, ip)
  {
    RunRefines(db, ops);
    NoneMissed(Run(db, ops));
    forall ip ensures Missed(Run(db, ops), ip) <==> LastFell(Abs(db), ops, ip) {
      RunMisses(db, ops, ip);
    }
  }

  // A crowd of 65537 peers behind one address shows that this does happen.

  const CROWDED := V4([10, 0, 0, 1])
  const SOME_HASH := Hash(BigEndian(0, 20))
  const EMPTY_DB := Db(map[], 0, 0, map[])

  function IdOf(n: nat): PeerID {
    PeerID(BigEndian(n, 20))
  }

  function Crowd(n: nat): seq<Op> {
    if n == 0 then [] else Crowd(n - 1) + [Op.Save(CROWDED, 6881, false, SOME_HASH, IdOf(n - 1), 0)]
  }

  lemma {:induction false} Pow256Grows(w: nat)
    requires w >= 4
    ensures Pow256(w) >= 0x1_0000_0000
  {
    if w == 4 {
      Widths();
    } else {
      Pow256Grows(w - 1);
    }
  }

  lemma IdsDiffer(m: nat, n: nat)
    requires m < n < 0x1_0000_0000
    ensures IdOf(m) != IdOf(n)
  {
    Pow256Grows(20);
    BigEndianRoundTrip(m, 20);
    BigEndianRoundTrip(n, 20);
  }

  const ONE_OF_MANY := Entry(false, CROWDED, 6881, 0)

  function CrowdMap(n: nat): map<Key, Entry> {
    if n == 0 then map[] else CrowdMap(n - 1)[(SOME_HASH, IdOf(n - 1)) := ONE_OF_MANY]
  }

  lemma {:induction false} CrowdKeys(n: nat, m: nat)
    requires n <= m < 0x1_0000_0000
    ensures (SOME_HASH, IdOf(m)) !in CrowdMap(n)
  {
    if n > 0 {
      CrowdKeys(n - 1, m);
      IdsDiffer(n - 1, m);
    }
  }

  lemma {:induction false} CrowdCounts(n: nat)
    requires n <= 0x1_0001
    ensures Count(CrowdMap(n), At(CROWDED)) == n
    ensures n > 0 ==> (SOME_HASH, IdOf(0)) in CrowdMap(n) && CrowdMap(n)[(SOME_HASH, IdOf(0))] == ONE_OF_MANY
  {
    if n == 0 {
      assert Which(CrowdMap(0), At(CROWDED)) == {};
    } else {
      CrowdCounts(n - 1);
      CrowdKeys(n - 1, n - 1);
      CountAdd(CrowdMap(n - 1), (SOME_HASH, IdOf(n - 1)), ONE_OF_MANY, At(CROWDED));
    }
  }

  lemma {:induction false} CrowdRuns(n: nat)
    ensures LegalRun(EMPTY_DB, Crowd(n)) && SimpleRun(Simple({}, map[]), Crowd(n)).peers == CrowdMap(n)
  {
    if n > 0 {
      var op := Op.Save(CROWDED, 6881, false, SOME_HASH, IdOf(n - 1), 0);
      CrowdRuns(n - 1);
      RunSnoc(EMPTY_DB, Crowd(n - 1), op);
      SimpleRunSnoc(Simple({}, map[]), Crowd(n - 1), op);
    }
  }

  /** A crowd of which one peer leaves. */
  function Thinned(n: nat): seq<Op> {
    Crowd(n) + [Op.Drop(SOME_HASH, IdOf(0))]
  }

  lemma CrowdState(n: nat)
    requires 0 < n <= 0x1_0001
    ensures var db := Run(EMPTY_DB, Crowd(n));
            && LegalRun(EMPTY_DB, Crowd(n)) && Agrees(db) && Has(db, SOME_HASH, IdOf(0))
            && Count(Flat(db), At(CROWDED)) == n && Flat(db)[(SOME_HASH, IdOf(0))].ip == CROWDED
  {
    CrowdCounts(n);
    CrowdRuns(n);
    EmptyAgrees();
    RunRefines(EMPTY_DB, Crowd(n));
    FlatAt(Run(EMPTY_DB, Crowd(n)), SOME_HASH, IdOf(0));
  }

  lemma OneLeaves(db: Db, hash: Hash, id: PeerID, ip: Addr)
    requires Agrees(db) && Has(db, hash, id) && Flat(db)[(hash, id)].ip == ip
    ensures var after, n := ApplyDrop(db, hash, id), Count(Flat(db), At(ip));
            && Count(Flat(after), At(ip)) == n - 1
            && (n - 1 > 0 && (n - 1) % 0x1_0000 == 0 ==> Missed(after, ip))
  {
    DropLosesIp(db, hash, id);
    FlatOfDrop(db, hash, id);
    CountRemove(Flat(db), (hash, id), At(ip));
  }

  lemma ThinnedRuns(db: Db, n: nat)
    requires LegalRun(db, Crowd(n))
    ensures LegalRun(db, Thinned(n)) && Run(db, Thinned(n)) == ApplyDrop(Run(db, Crowd(n)), SOME_HASH, IdOf(0))
  {
    RunSnoc(db, Crowd(n), Op.Drop(SOME_HASH, IdOf(0)));
  }

  lemma ThinnedCrowd(n: nat)
    requires 0 < n <= 0x1_0001
    ensures var after := Run(EMPTY_DB, Thinned(n));
            && LegalRun(EMPTY_DB, Thinned(n)) && Count(Flat(after), At(CROWDED)) == n - 1
            && (n - 1 > 0 && (n - 1) % 0x1_0000 == 0 ==> Missed(after, CROWDED))
  {
    var db := Run(EMPTY_DB, Crowd(n));
    CrowdState(n);
    OneLeaves(db, SOME_HASH, IdOf(0), CROWDED);
    ThinnedRuns(EMPTY_DB, n);
  }

  /** A run from the empty database after which Total() misses an address that still has
      65536 peers. */
  lemma TotalCanFallShort()
    ensures var after := Run(EMPTY_DB, Thinned(0x1_0001));
            && LegalRun(EMPTY_DB, Thinned(0x1_0001))
            && Count(Flat(after), At(CROWDED)) == 0x1_0000 && CROWDED !in after.ips
  {
    ThinnedCrowd(0x1_0001);
  }

  lemma EmptyAgrees()
    ensures Agrees(EMPTY_DB) && Abs(EMPTY_DB) == Simple({}, map[])
  {
    var none: map<Key, Entry> := map[];
    assert Flat(EMPTY_DB) == none;
    assert forall p :: Which(none, p) == {};
  }

  /** What a count of the peers `f` from scratch gives on top of the table `ips0`. */
  ghost predicate Tallied(ips0: map<Addr, int16>, ips: map<Addr, int16>, seeds: int64, leeches: int64,
                          f: map<Key, Entry>) {
    && seeds == I64(Count(f, Complete))
    && leeches == I64(Count(f, Incomplete))
    && (forall ip :: IpCount(ips, ip) == I16(IpCount(ips0, ip) + Count(f, At(ip))))
    && ips.Keys == ips0.Keys + LiveIps(f)
  }

  lemma TallyNone(ips0: map<Addr, int16>)
    ensures Tallied(ips0, ips0, 0, 0, map[])
  {
    var f: map<Key, Entry> := map[];
    assert Which(f, Complete) == {} && Which(f, Incomplete) == {};
    forall ip: Addr ensures IpCount(ips0, ip) == I16(IpCount(ips0, ip) + Count(f, At(ip))) {
      assert Which(f, At(ip)) == {};
    }
  }

  lemma TallyOne(ips0: map<Addr, int16>, ips: map<Addr, int16>, seeds: int64, leeches: int64, f: map<Key, Entry>,
                 k: Key, e: Entry)
    requires Tallied(ips0, ips, seeds, leeches, f) && k !in f
    ensures Tallied(ips0, Inc(ips, e.ip), I64(seeds + One(e.complete)), I64(leeches + One(!e.complete)), f[k := e])
  {
    TallyTotal(seeds, f, k, e, Complete);
    TallyTotal(leeches, f, k, e, Incomplete);
    TallyIp(ips0, ips, f, k, e);
    LiveIpsOfAdd(f, k, e);
  }

  lemma TallyTotal(total: int64, f: map<Key, Entry>, k: Key, e: Entry, p: Property)
    requires k !in f && total == I64(Count(f, p))
    ensures I64(total + One(Fits(e, p))) == I64(Count(f[k := e], p))
  {
    CountAdd(f, k, e, p);
    I64Step(Count(f, p), One(Fits(e, p)));
  }

  lemma TallyIp(ips0: map<Addr, int16>, ips: map<Addr, int16>, f: map<Key, Entry>, k: Key, e: Entry)
    requires k !in f
    requires forall ip :: IpCount(ips, ip) == I16(IpCount(ips0, ip) + Count(f, At(ip)))
    ensures forall ip :: IpCount(Inc(ips, e.ip), ip) == I16(IpCount(ips0, ip) + Count(f[k := e], At(ip)))
  {
    forall ip: Addr
      ensures IpCount(Inc(ips, e.ip), ip) == I16(IpCount(ips0, ip) + Count(f[k := e], At(ip)))
    {
      CountAdd(f, k, e, At(ip));
      var n := IpCount(ips0, ip) + Count(f, At(ip));
      assert IpCount(ips, ip) == I16(n);
      I16Step(n, 1);
      assert IpCount(Inc(ips, e.ip), ip) == if ip == e.ip then I16(I16(n) + 1) else I16(n);
    }
  }

  lemma LiveIpsOfAdd(f: map<Key, Entry>, k: Key, e: Entry)
    requires k !in f
    ensures LiveIps(f[k := e]) == LiveIps(f) + {e.ip}
  {
    assert f[k := e][k].ip == e.ip;
    forall j | j in f ensures f[j].ip in LiveIps(f[k := e]) {
      assert f[k := e][j] == f[j];
    }
  }

  // The peers that a count has met so far.

  function FlatOutside(db: Db, todo: set<Hash>): map<Key, Entry> {
    map k | k in Flat(db) && k.0 !in todo :: Flat(db)[k]
  }

  lemma FlatOutsideAll(db: Db)
    ensures FlatOutside(db, db.swarms.Keys) == map[]
  {
    assert forall k | k in Flat(db) :: Has(db, k.0, k.1);
  }

  lemma SameSwarmsSameFlat(db: Db, other: Db)
    requires other.swarms == db.swarms
    ensures Flat(other) == Flat(db)
  {
    assert Keys(other) == Keys(db);
  }

  ghost predicate FlatPart(db: Db, rest: set<Hash>, hash: Hash, todo: set<PeerID>, f: map<Key, Entry>) {
    && (forall k | k in f :: k in Flat(db) && f[k] == Flat(db)[k])
    && (forall k | k in Flat(db) :: k in f <==> k.0 !in rest || (k.0 == hash && k.1 !in todo))
  }

  lemma FlatPartStep(db: Db, rest: set<Hash>, hash: Hash, todo: set<PeerID>, f: map<Key, Entry>, id: PeerID)
    requires FlatPart(db, rest, hash, todo, f) && id in todo && hash in rest && Has(db, hash, id)
    ensures (hash, id) !in f
    ensures FlatPart(db, rest, hash, todo - {id}, f[(hash, id) := db.swarms[hash].peers[id]])
  {
    FlatAt(db, hash, id);
  }

  lemma FlatPartEnd(db: Db, rest: set<Hash>, hash: Hash, f: map<Key, Entry>)
    requires FlatPart(db, rest, hash, {}, f)
    ensures f == FlatOutside(db, rest - {hash})
  {
  }

  /** Counting into an empty table makes the metrics agree with the peers. */
  lemma SyncEstablishes(db: Db)
    requires forall h | h in db.swarms :: SwarmAgrees(db.swarms[h])
    requires Tallied(map[], db.ips, db.seeds, db.leeches, Flat(db))
    ensures Agrees(db)
  {
    forall ip ensures IpCount(db.ips, ip) == I16(Count(Flat(db), At(ip))) {
      assert IpCount(map[], ip) == 0;
    }
    forall ip | ip in db.ips ensures Count(Flat(db), At(ip)) > 0 {
      CountZero(Flat(db), At(ip));
    }
  }

  /** After any run the incremental metrics are those that a recount of the final map
      gives; the address tables are the same unless an address has a positive
      multiple of 65536 peers. */
  lemma IncrementalEqualsRecount(db: Db, ops: seq<Op>, recount: Db)
    requires Agrees(db) && LegalRun(db, ops)
    requires Tallied(map[], recount.ips, recount.seeds, recount.leeches, Flat(Run(db, ops)))
    ensures Run(db, ops).seeds == recount.seeds && Run(db, ops).leeches == recount.leeches
    ensures SameTables(Run(db, ops).ips, recount.ips, Flat(Run(db, ops)))
  {
    RunRefines(db, ops);
    forall ip ensures IpCount(recount.ips, ip) == I16(Count(Flat(Run(db, ops)), At(ip))) {
      assert IpCount(map[], ip) == 0;
    }
    TablesOfRecount(Run(db, ops).ips, recount.ips, Flat(Run(db, ops)));
  }

  ghost predicate SameTables(ips: map<Addr, int16>, recount: map<Addr, int16>, f: map<Key, Entry>) {
    && (forall ip :: IpCount(ips, ip) == IpCount(recount, ip))
    && (ips == recount <==> LostIps(ips, f) == {})
    && ((forall ip :: Count(f, At(ip)) <= 0xffff) ==> ips == recount)
  }

  lemma TablesOfRecount(ips: map<Addr, int16>, recount: map<Addr, int16>, f: map<Key, Entry>)
    requires IpsAgree(ips, f)
    requires forall ip :: IpCount(recount, ip) == I16(Count(f, At(ip)))
    requires recount.Keys == LiveIps(f)
    ensures SameTables(ips, recount, f)
  {
    TotalExact(ips, f);
    forall ip ensures IpCount(ips, ip) == IpCount(recount, ip) {
      assert IpCount(ips, ip) == I16(Count(f, At(ip)));
    }
    if LostIps(ips, f) == {} {
      forall ip | ip in ips ensures ip in recount {
        CountZero(f, At(ip));
      }
      forall ip | ip in recount ensures ip in ips && ips[ip] == recount[ip] {
        assert ip !in LostIps(ips, f);
        assert IpCount(ips, ip) == IpCount(recount, ip);
      }
      assert ips == recount;
    }
  }
}
