/** Whole runs of interleaved operations end as the operations one after another. */
module Serializability {
  import opened Bytes
  import opened Storage
  import opened PeerDb
  import opened FlatMap
  import opened TrimLoop
  import opened Agreement
  import opened Recount
  import opened Interleaving
  import opened StepInvariant

  // ---------- Whole runs ----------

  /** The state after the events, if each was enabled in its turn. */
  function Exec(m: Machine, events: seq<Event>): Option<Machine> {
    if events == [] then Some(m)
    else
      var r := Exec(m, events[..|events| - 1]);
      if r.Some? && Enabled(r.value, events[|events| - 1]) then Some(Next(r.value, events[|events| - 1])) else None
  }

  function ByValue(s: Store, refs: map<PeerID, Ref>): map<PeerID, Entry> {
    map i | i in refs :: Deref(s, refs[i])
  }

  /** The database that the shared memory holds. */
  function DbOf(m: Machine): Db {
    Db(map h | h in m.store.hashmap :: SwarmIn(m.store, m.store.hashmap[h]),
       m.meters.seeds, m.meters.leeches, m.meters.ips)
  }

  function SwarmIn(s: Store, sw: SwarmRefs): Swarm {
    Swarm(sw.complete, sw.incomplete, ByValue(s, sw.peers))
  }

  /** Nothing is in progress, and the shared memory holds `db`. */
  ghost predicate Initial(m: Machine, db: Db) {
    && m.flights == map[] && m.linear == [] && Owned(m.store) && DbOf(m) == db
    && (forall h | h in m.store.hashmap :: m.store.hashmap[h].listed == ByValue(m.store, m.store.hashmap[h].peers))
    && m.meters.counted == Flat(db)
  }

  lemma InitialSlot(m: Machine, db: Db, k: Key)
    requires Initial(m, db)
    ensures Quiet(m.store, m.meters, k, PeerAt(db, k))
  {
    FlatAt(db, k.0, k.1);
    assert k.0 in db.swarms <==> k.0 in m.store.hashmap;
    if k.0 in db.swarms {
      assert db.swarms[k.0] == SwarmIn(m.store, m.store.hashmap[k.0]);
    }
  }

  lemma InitialInv(m: Machine, db: Db)
    requires Initial(m, db) && Agrees(db)
    ensures Inv(m, db)
  {
    InitialCounters(m, db);
    InitialInStep(m, db);
  }

  lemma InitialInStep(m: Machine, db: Db)
    requires Initial(m, db)
    ensures InStep(m, db)
  {
    forall k ensures LocalOk(m, db, k) {
      InitialSlot(m, db, k);
    }
    assert forall h :: h in db.swarms <==> h in m.store.hashmap;
  }

  lemma InitialCounters(m: Machine, db: Db)
    requires Initial(m, db) && Agrees(db)
    ensures CountersOk(m.store)
  {
    forall h | h in m.store.hashmap ensures CountersAgree(m.store.hashmap[h]) {
      assert SwarmAgrees(db.swarms[h]);
    }
  }

  lemma {:induction false} ExecInv(m: Machine, db: Db, events: seq<Event>, n: Machine)
    requires Initial(m, db) && Agrees(db) && Exec(m, events) == Some(n)
    ensures Inv(n, db)
  {
    if events == [] {
      InitialInv(m, db);
    } else {
      var last := |events| - 1;
      var before := Exec(m, events[..last]).value;
      ExecInv(m, db, events[..last], before);
      NextKeepsInv(before, db, events[last]);
    }
  }

  lemma QuietSwarms(n: Machine, db: Db)
    requires InStep(n, db) && n.flights == map[] && CountersOk(n.store)
    requires forall h | h in db.swarms :: SwarmAgrees(db.swarms[h])
    ensures DbOf(n).swarms == db.swarms
  {
    forall h
      ensures h in n.store.hashmap <==> h in db.swarms
      ensures h in db.swarms ==> SwarmIn(n.store, n.store.hashmap[h]) == db.swarms[h]
    {
      assert forall i :: !Opens(n.flights, (h, i));
      if h in db.swarms {
        QuietSwarmIs(n, db, h);
      }
    }
  }

  lemma QuietSwarmIs(n: Machine, db: Db, h: Hash)
    requires InStep(n, db) && n.flights == map[] && CountersOk(n.store)
    requires h in n.store.hashmap && h in db.swarms && SwarmAgrees(db.swarms[h])
    ensures SwarmIn(n.store, n.store.hashmap[h]) == db.swarms[h]
  {
    var sw, peers := n.store.hashmap[h], db.swarms[h].peers;
    forall i
      ensures i in peers <==> i in sw.peers
      ensures i in peers ==> peers[i] == Deref(n.store, sw.peers[i])
      ensures i in peers <==> i in sw.listed
      ensures i in peers ==> sw.listed[i].complete == peers[i].complete
    {
      assert LocalOk(n, db, (h, i));
      assert Quiet(n.store, n.meters, (h, i), PeerAt(db, (h, i)));
    }
    assert ByValue(n.store, sw.peers) == peers;
    assert Which(sw.listed, Complete) == Which(peers, Complete);
    assert Which(sw.listed, Incomplete) == Which(peers, Incomplete);
    assert CountersAgree(sw);
  }

  lemma QuietTotals(n: Machine, db: Db)
    requires InStep(n, db) && n.flights == map[] && TotalsOk(n.meters) && Agrees(db)
    ensures n.meters.seeds == db.seeds && n.meters.leeches == db.leeches
  {
    forall k
      ensures k in n.meters.counted <==> k in Flat(db)
      ensures k in Flat(db) ==> n.meters.counted[k].complete == Flat(db)[k].complete
    {
      FlatAt(db, k.0, k.1);
      assert LocalOk(n, db, k);
      assert Quiet(n.store, n.meters, k, PeerAt(db, k));
    }
    assert Which(n.meters.counted, Complete) == Which(Flat(db), Complete);
    assert Which(n.meters.counted, Incomplete) == Which(Flat(db), Incomplete);
  }

  /** Serializability: after any interleaving of saves, drops and a trim's visits to
      single swarms, with at most one of them in progress per peer and a visit alone on
      its infohash, once all have finished, the memory holds exactly the database, the
      address table included, that the operations give one after another, in the order in
      which they came to the address table. */
  lemma Serializable(m: Machine, db: Db, events: seq<Event>, n: Machine)
    requires Initial(m, db) && Agrees(db)
    requires Exec(m, events) == Some(n) && n.flights == map[]
    ensures LegalRun(db, n.linear) && DbOf(n) == Run(db, n.linear) && Agrees(DbOf(n))
  {
    ExecInv(m, db, events, n);
    RunRefines(db, n.linear);
    QuietSwarms(n, Run(db, n.linear));
    QuietTotals(n, Run(db, n.linear));
  }

  /** In every state on the way the address table is that of the operations so far. */
  lemma AddressesOverRuns(m: Machine, db: Db, events: seq<Event>, n: Machine)
    requires Initial(m, db) && Agrees(db) && Exec(m, events) == Some(n)
    ensures LegalRun(db, n.linear) && n.meters.ips == Run(db, n.linear).ips
  {
    ExecInv(m, db, events, n);
  }

  /** There is such a beginning. */
  lemma EmptyIsInitial()
    ensures Initial(Machine(Store(map[], map[], multiset{}, map[]), Meters(0, 0, map[], map[]), map[], []), EMPTY_DB)
  {
    EmptyAgrees();
  }

  // ---------- A trim, one swarm at a time ----------

  function DropsOf(order: seq<Key>): seq<Op> {
    if order == [] then []
    else
      var n := |order| - 1;
      DropsOf(order[..n]) + [Op.Drop(order[n].0, order[n].1)]
  }

  lemma {:induction false} DropsAreDropAll(db: Db, order: seq<Key>)
    ensures LegalRun(db, DropsOf(order)) && Run(db, DropsOf(order)) == DropAll(db, order)
  {
    if order != [] {
      var n := |order| - 1;
      DropsAreDropAll(db, order[..n]);
      RunSnoc(db, DropsOf(order[..n]), Op.Drop(order[n].0, order[n].1));
    }
  }

  predicate Meets(db: Db, h: Hash, k: Key, clock: int64, expiry: int64) {
    k.0 == h && Has(db, k.0, k.1) && Expired(db.swarms[k.0].peers[k.1], clock, expiry)
  }

  /** Each peer of the order is there and expired when the loop meets it. */
  ghost predicate EachExpired(db: Db, h: Hash, order: seq<Key>, clock: int64, expiry: int64) {
    forall j | 0 <= j < |order| :: Meets(DropAll(db, order[..j]), h, order[j], clock, expiry)
  }

  lemma NotMetBefore(db: Db, h: Hash, order: seq<Key>, k: Key, clock: int64, expiry: int64)
    requires Meets(DropAll(db, order), h, k, clock, expiry)
    ensures k !in order && k in ExpiredAt(db, h, clock, expiry)
  {
    FlatOfDropAll(db, order);
    FlatAt(DropAll(db, order), k.0, k.1);
    assert k in Flat(db) - Elems(order);
  }

  lemma MetOnce(db: Db, h: Hash, order: seq<Key>, clock: int64, expiry: int64, j: nat)
    requires EachExpired(db, h, order, clock, expiry) && j < |order|
    ensures order[j] in ExpiredAt(db, h, clock, expiry)
    ensures forall i | 0 <= i < j :: order[i] != order[j]
  {
    NotMetBefore(db, h, order[..j], order[j], clock, expiry);
    forall i | 0 <= i < j ensures order[i] != order[j] {
      assert order[..j][i] == order[i];
    }
  }

  /** The single drops of a visit, each of a peer that is expired when the loop meets it,
      and its end, at which no expired peer is left, make up the visit. */
  lemma VisitIsWhole(db: Db, h: Hash, order: seq<Key>, clock: int64, expiry: int64)
    requires EachExpired(db, h, order, clock, expiry)
    requires LegalRun(db, DropsOf(order) + [Sweep(h, clock, expiry, [])])
    ensures Legal(db, Sweep(h, clock, expiry, order))
    ensures Run(db, DropsOf(order) + [Sweep(h, clock, expiry, [])]) == Apply(db, Sweep(h, clock, expiry, order))
  {
    var ops, last := DropsOf(order), Sweep(h, clock, expiry, []);
    forall j | 0 <= j < |order|
      ensures order[j] in ExpiredAt(db, h, clock, expiry)
      ensures forall i | 0 <= i < j :: order[i] != order[j]
    {
      MetOnce(db, h, order, clock, expiry, j);
    }
    DropsAreDropAll(db, order);
    FlatOfDropAll(db, order);
    assert (ops + [last])[..|ops|] == ops && (ops + [last])[|ops|] == last;
    forall k ensures k in order <==> k in ExpiredAt(db, h, clock, expiry) {
      assert k !in ExpiredAt(DropAll(db, order), h, clock, expiry) by {
        assert Enumerates([], ExpiredAt(DropAll(db, order), h, clock, expiry));
      }
      assert k in Elems(order) <==> k in order;
    }
  }

  predicate SweepsOf(ops: seq<Op>, clock: int64, expiry: int64) {
    && (forall i | 0 <= i < |ops| :: ops[i].Sweep? && ops[i].clock == clock && ops[i].expiry == expiry)
    && forall i, j | 0 <= i < j < |ops| :: ops[i].hash != ops[j].hash
  }

  function SweptHashes(ops: seq<Op>): set<Hash>
    requires forall i | 0 <= i < |ops| :: ops[i].Sweep?
  {
    set i | 0 <= i < |ops| :: ops[i].hash
  }

  /** All that the sweeps remove, in their order. */
  function SweptOrder(ops: seq<Op>): seq<Key>
    requires forall i | 0 <= i < |ops| :: ops[i].Sweep?
  {
    if ops == [] then [] else SweptOrder(ops[..|ops| - 1]) + ops[|ops| - 1].order
  }

  lemma SweepIsSwept(db: Db, hash: Hash, clock: int64, expiry: int64, order: seq<Key>)
    requires hash in db.swarms && Legal(db, Sweep(hash, clock, expiry, order))
    ensures hash in DropAll(db, order).swarms && Swept(db, DropAll(db, order), hash, {}, order, clock, expiry)
  {
    var peers := db.swarms[hash].peers;
    var met := set i | i in peers && i !in {} && Expired(peers[i], clock, expiry) :: (hash, i);
    forall k: Key ensures k in ExpiredAt(db, hash, clock, expiry) <==> k in met {
      FlatAt(db, k.0, k.1);
    }
    FlatOfDropAll(db, order);
  }

  lemma SweptHashesNext(ops: seq<Op>)
    requires ops != [] && forall i | 0 <= i < |ops| :: ops[i].Sweep?
    ensures var n := |ops| - 1;
            SweptHashes(ops) == SweptHashes(ops[..n]) + {ops[n].hash}
  {
    var n := |ops| - 1;
    forall i | 0 <= i < n ensures ops[..n][i].hash == ops[i].hash {
    }
  }

  lemma {:induction false} TrimmingBySweeps(db: Db, ops: seq<Op>, clock: int64, expiry: int64) returns (gone: set<Hash>)
    requires LegalRun(db, ops) && SweepsOf(ops, clock, expiry) && SweptHashes(ops) <= db.swarms.Keys
    ensures Trimming(db, Run(db, ops), db.swarms.Keys - SweptHashes(ops), gone, SweptOrder(ops), clock, expiry)
  {
    if ops == [] {
      gone := {};
      TrimStart(db, clock, expiry);
      assert db.swarms.Keys - SweptHashes(ops) == db.swarms.Keys;
    } else {
      var n := |ops| - 1;
      var first, hash, order := ops[..n], ops[n].hash, ops[n].order;
      assert ops[n] == Sweep(hash, clock, expiry, order) && SweepsOf(first, clock, expiry);
      SweptHashesNext(ops);
      gone := TrimmingBySweeps(db, first, clock, expiry);
      var todo := db.swarms.Keys - SweptHashes(first);
      assert todo - {hash} == db.swarms.Keys - SweptHashes(ops) && hash in todo;
      gone := NextSweep(db, Run(db, first), todo, gone, SweptOrder(first), hash, order, clock, expiry);
    }
  }

  lemma NextSweep(before: Db, now: Db, todo: set<Hash>, gone: set<Hash>, order: seq<Key>,
                  hash: Hash, swept: seq<Key>, clock: int64, expiry: int64)
    returns (more: set<Hash>)
    requires Trimming(before, now, todo, gone, order, clock, expiry) && hash in todo
    requires Legal(now, Sweep(hash, clock, expiry, swept))
    ensures Trimming(before, ApplySweep(now, hash, swept), todo - {hash}, more, order + swept, clock, expiry)
  {
    SweepIsSwept(now, hash, clock, expiry, swept);
    TrimStep(before, now, DropAll(now, swept), todo, gone, order, hash, swept, clock, expiry);
    more := if hash in EmptySwarms(DropAll(now, swept)) then gone + {hash} else gone;
  }

  /** Sweeps of all swarms, one after another in any order, make up one trim. */
  lemma SweepsMakeTrim(db: Db, ops: seq<Op>, clock: int64, expiry: int64)
    requires LegalRun(db, ops) && SweepsOf(ops, clock, expiry) && SweptHashes(ops) == db.swarms.Keys
    ensures Legal(db, Trim(clock, expiry, SweptOrder(ops)))
    ensures Run(db, ops) == Apply(db, Trim(clock, expiry, SweptOrder(ops)))
  {
    var gone := TrimmingBySweeps(db, ops, clock, expiry);
    assert db.swarms.Keys - SweptHashes(ops) == {};
    TrimEnd(db, Run(db, ops), gone, SweptOrder(ops), clock, expiry);
  }

  // ---------- Which order, and who holds what ----------

  /** The operations asked for, a visit of a trim with its single drops. */
  function Asked(events: seq<Event>): seq<Op> {
    if events == [] then [] else Asked(events[..|events| - 1]) + AskedBy(events[|events| - 1])
  }

  function AskedBy(ev: Event): seq<Op> {
    match ev
    case Start(op) => [op]
    case Meet(hash, id) => [Op.Drop(hash, id)]
    case Advance(_, _) => []
  }

  /** The operations on one peer, or the visits to one swarm. */
  function OnJob(ops: seq<Op>, j: Job): seq<Op> {
    if ops == [] then []
    else
      var n := |ops| - 1;
      OnJob(ops[..n], j) + if !ops[n].Trim? && JobOf(ops[n]) == j then [ops[n]] else []
  }

  lemma {:induction false} OnJobAppend(ops: seq<Op>, more: seq<Op>, j: Job)
    ensures OnJob(ops + more, j) == OnJob(ops, j) + OnJob(more, j)
  {
    if more == [] {
      assert ops + more == ops;
    } else {
      var n := |more| - 1;
      OnJobAppend(ops, more[..n], j);
      assert (ops + more)[..|ops| + n] == ops + more[..n];
    }
  }

  lemma OnJobOne(op: Op, j: Job)
    ensures OnJob([op], j) == if !op.Trim? && JobOf(op) == j then [op] else []
  {
    assert [op][..0] == [];
  }

  /** The operation of a flight on slot `k`, while it has not come to the address table. */
  function PendingOn(flight: Option<Flight>, k: Key): seq<Op> {
    if flight.None? || Linearized(flight.value) then []
    else if flight.value.op.Sweep? then [Op.Drop(k.0, k.1)]
    else [flight.value.op]
  }

  function Pending(m: Machine, j: Job): seq<Op> {
    match j
    case OnSlot(k) => PendingOn(FlightAt(m.flights, k), k)
    case OnSwarm(h) => if j in m.flights then [m.flights[j].op] else []
  }

  function Done(e: Effect): seq<Op> {
    if e.op.Some? then [e.op.value] else []
  }

  /** A step brings at most the operation that is pending on its slot, or the end of the
      visit, to the address table. */
  ghost predicate KeepsPending(f: Flight, e: Effect, asked: seq<Op>) {
    && Continues(f, e)
    && (e.op.Some? ==> !e.op.value.Trim? && JobOf(e.op.value) in {OnSlot(f.Place()), JobOf(f.op)})
    && OnJob(Done(e), OnSlot(f.Place())) + PendingOn(Active(e.next), f.Place()) ==
       PendingOn(Active(Some(f)), f.Place()) + asked
    && (f.op.Sweep? ==> OnJob(Done(e), JobOf(f.op)) + (if e.next.Some? then [f.op] else []) == [f.op])
  }

  lemma DoneOnJob(e: Effect, j: Job)
    ensures OnJob(Done(e), j) ==
            if e.op.Some? && !e.op.value.Trim? && JobOf(e.op.value) == j then [e.op.value] else []
  {
    if e.op.Some? {
      OnJobOne(e.op.value, j);
    }
  }

  lemma SaveKeepsPending(s: Store, t: Meters, f: Flight, pick: Ref)
    requires Placed(s, f) && f.op.Save?
    ensures KeepsPending(f, SaveEffect(s, t, f, pick), [])
  {
    DoneOnJob(SaveEffect(s, t, f, pick), OnSlot(f.Place()));
  }

  lemma HandKeepsPending(s: Store, t: Meters, f: Flight)
    requires Placed(s, f) && !f.op.Save? && InHand(f)
    ensures KeepsPending(f, HandEffect(s, t, f), [])
  {
    DoneOnJob(HandEffect(s, t, f), OnSlot(f.Place()));
    DoneOnJob(HandEffect(s, t, f), JobOf(f.op));
  }

  lemma DropKeepsPending(s: Store, t: Meters, f: Flight)
    requires Placed(s, f) && f.op.Drop?
    ensures KeepsPending(f, DropEffect(s, t, f), [])
  {
    if InHand(f) {
      HandKeepsPending(s, t, f);
    } else {
      DoneOnJob(DropEffect(s, t, f), OnSlot(f.Place()));
    }
  }

  lemma SweepKeepsPending(s: Store, t: Meters, f: Flight)
    requires Placed(s, f) && f.op.Sweep?
    ensures KeepsPending(f, SweepEffect(s, t, f), [])
  {
    if InHand(f) {
      HandKeepsPending(s, t, f);
    } else {
      DoneOnJob(SweepEffect(s, t, f), OnSlot(f.Place()));
      DoneOnJob(SweepEffect(s, t, f), JobOf(f.op));
    }
  }

  lemma MeetKeepsPending(s: Store, t: Meters, f: Flight)
    requires f.op.Sweep? && f.pc.Scan? && f.op.hash in s.hashmap && f.id in s.hashmap[f.op.hash].peers
    ensures KeepsPending(f, TakeEffect(s, t, f), [Op.Drop(f.op.hash, f.id)])
  {
  }

  lemma PendingOnSlot(m: Machine, job: Job, f: Flight, e: Effect, asked: seq<Op>, k: Key)
    requires FlightsOk(m) && Turned(m, job, f) && KeepsPending(f, e, asked)
    requires FlightAt(m.flights, f.Place()) == Active(Some(f))
    ensures OnJob(Done(e), OnSlot(k)) + Pending(After(m, job, e), OnSlot(k)) ==
            Pending(m, OnSlot(k)) + if k == f.Place() then asked else []
  {
    FlightsAfter(m, job, f, e, k);
    DoneOnJob(e, OnSlot(k));
    assert JobOf(m.flights[job].op) == job;
  }

  lemma PendingOnSwarm(m: Machine, job: Job, f: Flight, e: Effect, asked: seq<Op>, h: Hash)
    requires FlightsOk(m) && Turned(m, job, f) && KeepsPending(f, e, asked)
    ensures OnJob(Done(e), OnSwarm(h)) + Pending(After(m, job, e), OnSwarm(h)) == Pending(m, OnSwarm(h))
  {
    DoneOnJob(e, OnSwarm(h));
    assert JobOf(m.flights[job].op) == job;
  }

  lemma AfterKeepsOrder(m: Machine, job: Job, f: Flight, e: Effect, asked: seq<Op>, j: Job)
    requires FlightsOk(m) && Turned(m, job, f) && KeepsPending(f, e, asked)
    requires FlightAt(m.flights, f.Place()) == Active(Some(f))
    ensures var n := After(m, job, e);
            OnJob(n.linear, j) + Pending(n, j) ==
            OnJob(m.linear, j) + Pending(m, j) + if j == OnSlot(f.Place()) then asked else []
  {
    var n := After(m, job, e);
    OnJobAppend(m.linear, Done(e), j);
    match j {
      case OnSlot(k) => PendingOnSlot(m, job, f, e, asked, k);
      case OnSwarm(h) => PendingOnSwarm(m, job, f, e, asked, h);
    }
    Regrouped(OnJob(m.linear, j), OnJob(Done(e), j), Pending(n, j), Pending(m, j),
              if j == OnSlot(f.Place()) then asked else []);
  }

  lemma Regrouped(a: seq<Op>, b: seq<Op>, c: seq<Op>, d: seq<Op>, x: seq<Op>)
    requires b + c == d + x
    ensures a + b + c == a + d + x
  {
    assert a + b + c == a + (b + c) && a + d + x == a + (d + x);
  }

  lemma OrderOfAdvance(m: Machine, job: Job, pick: Ref, j: Job)
    requires FlightsOk(m) && Enabled(m, Advance(job, pick))
    ensures var n := Next(m, Advance(job, pick));
            OnJob(n.linear, j) + Pending(n, j) == OnJob(m.linear, j) + Pending(m, j) + []
  {
    var f := m.flights[job];
    ActiveOf(m, job);
    assert Placed(m.store, f);
    if f.op.Save? {
      SaveKeepsPending(m.store, m.meters, f, pick);
    } else if f.op.Drop? {
      DropKeepsPending(m.store, m.meters, f);
    } else {
      SweepKeepsPending(m.store, m.meters, f);
    }
    AfterKeepsOrder(m, job, f, EffectOf(m.store, m.meters, f, pick), [], j);
  }

  lemma OrderOfMeet(m: Machine, h: Hash, id: PeerID, j: Job)
    requires FlightsOk(m) && Enabled(m, Meet(h, id))
    ensures var n := Next(m, Meet(h, id));
            OnJob(n.linear, j) + Pending(n, j) ==
            OnJob(m.linear, j) + Pending(m, j) + if j == OnSlot((h, id)) then [Op.Drop(h, id)] else []
  {
    var f := m.flights[OnSwarm(h)].(id := id);
    assert JobOf(f.op) == OnSwarm(h) && HashOf(OnSlot((h, id))) == HashOf(OnSwarm(h));
    MeetKeepsPending(m.store, m.meters, f);
    AfterKeepsOrder(m, OnSwarm(h), f, TakeEffect(m.store, m.meters, f), [Op.Drop(h, id)], j);
  }

  lemma OrderOfStart(m: Machine, op: Request, j: Job)
    requires FlightsOk(m) && MayStart(m, op)
    ensures var n := Next(m, Start(op));
            OnJob(n.linear, j) + Pending(n, j) ==
            OnJob(m.linear, j) + Pending(m, j) + if j == JobOf(op) then [op] else []
  {
    if j.OnSlot? {
      StartedFlights(m, op, j.key);
    }
    assert HashOf(j) == op.hash && op.Sweep? ==> j !in m.flights;
  }

  lemma OrderOfNext(m: Machine, ev: Event, j: Job)
    requires FlightsOk(m) && Enabled(m, ev)
    ensures OnJob(Next(m, ev).linear, j) + Pending(Next(m, ev), j) ==
            OnJob(m.linear, j) + Pending(m, j) + OnJob(AskedBy(ev), j)
  {
    match ev
    case Start(op) =>
      OnJobOne(op, j);
      OrderOfStart(m, op, j);
    case Advance(job, pick) => OrderOfAdvance(m, job, pick, j);
    case Meet(h, id) =>
      OnJobOne(Op.Drop(h, id), j);
      OrderOfMeet(m, h, id, j);
  }

  /** For each peer, and for the visits to each swarm: the operations come to the address
      table in the order in which they were asked for, none is lost or repeated, and only
      one in progress may still have to come there. */
  lemma {:induction false} OrderKept(m: Machine, db: Db, events: seq<Event>, n: Machine, j: Job)
    requires Initial(m, db) && Agrees(db) && Exec(m, events) == Some(n)
    ensures OnJob(Asked(events), j) == OnJob(n.linear, j) + Pending(n, j)
  {
    if events != [] {
      var last := |events| - 1;
      var before := Exec(m, events[..last]).value;
      OrderKept(m, db, events[..last], before, j);
      ExecInv(m, db, events[..last], before);
      OrderOfNext(before, events[last], j);
      OnJobAppend(Asked(events[..last]), AskedBy(events[last]), j);
    }
  }

  /** A peer that no operation is at work on, or a swarm that no visit is in, has nothing
      pending; and no job ever has more than one operation pending. */
  lemma AtMostOnePending(n: Machine, j: Job)
    ensures |Pending(n, j)| <= 1
    ensures (if j.OnSlot? then FlightAt(n.flights, j.key).None? else j !in n.flights) ==> Pending(n, j) == []
  {
  }

  /** What has come to the address table stays there in its order; so an operation that
      ends before another starts stands before it. */
  lemma {:induction false} LinearGrows(m: Machine, events: seq<Event>, i: nat, n: Machine)
    requires Exec(m, events) == Some(n) && i <= |events|
    ensures Exec(m, events[..i]).Some? && Exec(m, events[..i]).value.linear <= n.linear
  {
    if i < |events| {
      LinearGrows(m, events[..|events| - 1], i, Exec(m, events[..|events| - 1]).value);
      assert events[..|events| - 1][..i] == events[..i];
    } else {
      assert events[..i] == events;
    }
  }

  /** In every state on the way each peer object is in one slot, in the hands of one
      drop or visit, or once in the pool. */
  lemma OwnershipOverRuns(m: Machine, db: Db, events: seq<Event>, n: Machine)
    requires Initial(m, db) && Agrees(db) && Exec(m, events) == Some(n)
    ensures forall k, g | RefAt(n.store, k).Some? && RefAt(n.store, g) == RefAt(n.store, k) :: k == g
    ensures forall k | RefAt(n.store, k).Some? :: RefAt(n.store, k).value !in n.store.pool
    ensures forall r | r in n.store.pool :: n.store.pool[r] == 1
    ensures forall j | TookOut(n, j) ::
              && n.flights[j].ref !in n.store.pool
              && (forall k :: RefAt(n.store, k) != Some(n.flights[j].ref))
              && (forall i | TookOut(n, i) && n.flights[i].ref == n.flights[j].ref :: i == j)
  {
    ExecInv(m, db, events, n);
    forall k | RefAt(n.store, k).Some? ensures InSlot(n.store, RefAt(n.store, k).value, k) {
      RefIsOwned(n.store, k);
    }
    forall j | TookOut(n, j) ensures TakenFrom(n, j) {
      TakenOut(n, Run(db, n.linear), j);
    }
    forall i, j | TookOut(n, i) && TookOut(n, j) && n.flights[i].ref == n.flights[j].ref ensures i == j {
      assert TakenFrom(n, i) && TakenFrom(n, j);
      SamePlace(n, i, j);
    }
  }

  /** A drop or a visit has taken a peer out and not yet put it back. */
  ghost predicate TookOut(m: Machine, j: Job) {
    j in m.flights && !m.flights[j].op.Save? && InHand(m.flights[j])
  }

  ghost predicate TakenFrom(m: Machine, j: Job)
    requires j in m.flights
  {
    var f := m.flights[j];
    InSlot(m.store, f.ref, f.Place()) && RefAt(m.store, f.Place()) == None && f.ref !in m.store.pool
  }

  lemma TakenOut(m: Machine, db: Db, j: Job)
    requires MemoryOk(m.store, m.meters) && FlightsOk(m) && InStep(m, db) && TookOut(m, j)
    ensures TakenFrom(m, j)
  {
    ActiveOf(m, j);
    assert LocalOk(m, db, m.flights[j].Place());
  }

  lemma SamePlace(m: Machine, i: Job, j: Job)
    requires FlightsOk(m) && i in m.flights && j in m.flights && m.flights[i].Place() == m.flights[j].Place()
    ensures i == j
  {
    assert JobOf(m.flights[i].op) == i && JobOf(m.flights[j].op) == j;
    assert Placed(m.store, m.flights[i]) && Placed(m.store, m.flights[j]);
    assert HashOf(i) == HashOf(j);
  }

  // ---------- What the guards of Start keep out ----------

  /** Two saves of one peer that both find no peer leave counters that do not agree. */
  lemma TwoSavesOfOnePeer(s: Store, f: Flight, g: Flight, p: Ref, q: Ref)
    requires CountersOk(s) && f.op.Save? && g.op.Save? && f.Place() == g.Place() && f.op.hash in s.hashmap
    requires ListedAt(s, f.Place()) == None
    ensures !CountersAgree(Entered(Entered(s, f, p), g, q).hashmap[f.op.hash])
  {
    var sw := s.hashmap[f.op.hash];
    assert CountersAgree(sw);
    var e := EntryOf(g.op);
    EnteredCounts(s, f, p);
    EnteredCounts(Entered(s, f, p), g, q);
    assert sw.listed[f.id := EntryOf(f.op)][f.id := e] == sw.listed[f.id := e];
    CountAdd(sw.listed, f.id, e, Complete);
    CountAdd(sw.listed, f.id, e, Incomplete);
    OneTooMany(Count(sw.listed, Complete), One(e.complete));
    OneTooMany(Count(sw.listed, Incomplete), One(!e.complete));
  }

  lemma OneTooMany(n: nat, d: nat)
    ensures U16(U16(U16(n) + 1) + d) != U16(n + d)
  {
  }

  lemma EnteredCounts(s: Store, f: Flight, pick: Ref)
    requires f.op.Save? && f.op.hash in s.hashmap
    ensures var sw, u := s.hashmap[f.op.hash], Entered(s, f, pick).hashmap;
            && f.op.hash in u && u[f.op.hash].listed == sw.listed[f.id := EntryOf(f.op)]
            && u[f.op.hash].complete == U16(sw.complete + One(f.op.complete))
            && u[f.op.hash].incomplete == U16(sw.incomplete + One(!f.op.complete))
  {
  }

  /** A second save that makes the swarm, and a visit that removes it late, lose the peers
      that are in it by then; neither step looks at the totals. */
  lemma MakeAndVanishLosePeers(s: Store, h: Hash, i: PeerID)
    ensures RefAt(Made(s, h), (h, i)) == None && RefAt(Vanished(s, h), (h, i)) == None
  {
  }

  /** A visit that meets a recycled object which a save has not filled yet counts out the
      peer as the object had it. */
  lemma VisitMeetsUnfilled(s: Store, f: Flight, pick: Ref)
    requires CountersOk(s) && f.op.Save? && f.op.hash in s.hashmap && ListedAt(s, f.Place()) == None
    requires pick in s.objects && s.objects[pick].complete != f.op.complete
    ensures !CountersAgree(Taken(Entered(s, f, pick), f.op.hash, f.id).hashmap[f.op.hash])
  {
    var sw := s.hashmap[f.op.hash];
    assert CountersAgree(sw);
    assert sw.listed[f.id := EntryOf(f.op)] - {f.id} == sw.listed;
  }
}
