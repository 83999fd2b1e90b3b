/** What holds between the steps of interleaved operations, and why every step keeps
    it: a flight accounts for exactly its own slot. */
module StepInvariant {
  import opened Bytes
  import opened Storage
  import opened PeerDb
  import opened FlatMap
  import opened Agreement
  import opened Recount
  import opened Interleaving

  // ---------- What shared memory says about one slot ----------

  function RefAt(s: Store, k: Key): Option<Ref> {
    if k.0 in s.hashmap && k.1 in s.hashmap[k.0].peers then Some(s.hashmap[k.0].peers[k.1]) else None
  }

  function ValueAt(s: Store, k: Key): Option<Entry> {
    if RefAt(s, k).Some? then Some(Deref(s, RefAt(s, k).value)) else None
  }

  function ListedAt(s: Store, k: Key): Option<bool> {
    if k.0 in s.hashmap && k.1 in s.hashmap[k.0].listed then Some(s.hashmap[k.0].listed[k.1].complete) else None
  }

  function CountedAt(t: Meters, k: Key): Option<bool> {
    if k in t.counted then Some(t.counted[k].complete) else None
  }

  function PeerAt(db: Db, k: Key): Option<Entry> {
    Slot(SwarmOf(db, k.0), k.1)
  }

  function CompleteOf(slot: Option<Entry>): Option<bool> {
    if slot.Some? then Some(slot.value.complete) else None
  }

  // ---------- What holds between the steps ----------

  /** Each object is in one slot, in the hands of one drop, or once in the pool. */
  ghost predicate Owned(s: Store) {
    && (forall h, i | h in s.hashmap && i in s.hashmap[h].peers :: InSlot(s, s.hashmap[h].peers[i], (h, i)))
    && (forall r | r in s.pool :: s.pool[r] == 1 && r in s.objects && r !in s.owner)
    && (forall r | r in s.owner :: r in s.objects)
  }

  ghost predicate InSlot(s: Store, r: Ref, k: Key) {
    r in s.objects && r in s.owner && s.owner[r] == k
  }

  ghost predicate CountersOk(s: Store) {
    forall h | h in s.hashmap :: CountersAgree(s.hashmap[h])
  }

  ghost predicate CountersAgree(sw: SwarmRefs) {
    SwarmAgrees(Swarm(sw.complete, sw.incomplete, sw.listed))
  }

  ghost predicate TotalsOk(t: Meters) {
    t.seeds == I64(Count(t.counted, Complete)) && t.leeches == I64(Count(t.counted, Incomplete))
  }

  /** Slot, counters and totals have the peer `prev`. */
  ghost predicate Quiet(s: Store, t: Meters, k: Key, prev: Option<Entry>) {
    && ValueAt(s, k) == prev && ListedAt(s, k) == CompleteOf(prev) && CountedAt(t, k) == CompleteOf(prev)
  }

  /** The operation has come to the address table. */
  predicate Linearized(f: Flight) {
    if f.op.Save? then f.pc.Write? || (f.pc.Meter2? && !f.found) else f.pc.Free?
  }

  /** A slot during a save; `prev` is its peer in the database as of the operations that
      have come to the address table. */
  ghost predicate SaveOk(s: Store, t: Meters, k: Key, prev: Option<Entry>, f: Flight)
    requires f.op.Save?
  {
    if f.pc.Look? || f.pc.Make? || f.pc.Find? then Quiet(s, t, k, prev)
    else if f.pc.Enlist? then
      Quiet(s, t, k, prev) && f.found == prev.Some? && (f.found ==> RefAt(s, k) == Some(f.ref))
    else
      && RefAt(s, k) == Some(f.ref) && ListedAt(s, k) == Some(f.op.complete) && (f.pc.Ip? ==> f.found)
      && (if Linearized(f) then prev == Some(EntryOf(f.op)) else prev == if f.found then ValueAt(s, k) else None)
      && CountedAt(t, k) == CountedBy(f, prev)
  }

  function CountedBy(f: Flight, prev: Option<Entry>): Option<bool>
    requires f.op.Save?
  {
    if f.pc.Meter? then CompleteOf(prev) else if f.pc.Meter2? then None else Some(f.op.complete)
  }

  /** A slot during a drop, or while a trim's visit removes its peer. */
  ghost predicate DropOk(s: Store, t: Meters, k: Key, prev: Option<Entry>, f: Flight) {
    if f.pc.Look? || f.pc.Take? then Quiet(s, t, k, prev)
    else
      && RefAt(s, k) == None && ListedAt(s, k) == None && InSlot(s, f.ref, k)
      && prev == (if f.pc.Free? then None else Some(Deref(s, f.ref)))
      && CountedAt(t, k) == if f.pc.Meter? then CompleteOf(prev) else None
  }

  ghost predicate SlotOk(s: Store, t: Meters, k: Key, prev: Option<Entry>, active: Option<Flight>) {
    match active
    case None => Quiet(s, t, k, prev)
    case Some(f) => if f.op.Save? then SaveOk(s, t, k, prev, f) else DropOk(s, t, k, prev, f)
  }

  /** A trim's visit has a peer in hand. */
  predicate InHand(f: Flight) {
    f.pc.Meter? || f.pc.Ip? || f.pc.Free?
  }

  function Active(f: Option<Flight>): Option<Flight> {
    if f.Some? && f.value.op.Sweep? && !InHand(f.value) then None else f
  }

  /** The flight that is at work on a slot. */
  function FlightAt(flights: map<Job, Flight>, k: Key): Option<Flight> {
    if OnSlot(k) in flights then Some(flights[OnSlot(k)])
    else if OnSwarm(k.0) in flights && flights[OnSwarm(k.0)].id == k.1 then Active(Some(flights[OnSwarm(k.0)]))
    else None
  }

  ghost predicate LocalOk(m: Machine, db: Db, k: Key) {
    SlotOk(m.store, m.meters, k, PeerAt(db, k), FlightAt(m.flights, k))
  }

  /** Which steps an operation takes, and whether it finds the swarm there. */
  ghost predicate Placed(s: Store, f: Flight) {
    && (f.op.Sweep? || f.id == f.op.id)
    && match f.op
       case Save(_, _, _, hash, _, _) =>
         && (f.pc.Look? || f.pc.Make? || f.pc.Find? || f.pc.Enlist? || f.pc.Meter? || f.pc.Meter2? || f.pc.Ip? ||
             f.pc.Write?)
         && (!f.pc.Look? ==> (hash in s.hashmap <==> !f.pc.Make?))
       case Drop(hash, _) =>
         (f.pc.Look? || f.pc.Take? || f.pc.Meter? || f.pc.Ip? || f.pc.Free?) && (!f.pc.Look? ==> hash in s.hashmap)
       case Sweep(hash, _, _, _) =>
         && (f.pc.Look? || f.pc.Scan? || f.pc.Meter? || f.pc.Ip? || f.pc.Free? || f.pc.Vanish?)
         && hash in s.hashmap && (f.pc.Vanish? ==> s.hashmap[hash].peers == map[])
  }

  ghost predicate AllPlaced(m: Machine) {
    forall j | j in m.flights :: JobOf(m.flights[j].op) == j && Placed(m.store, m.flights[j])
  }

  /** Operations that share an infohash work on different peers of a swarm that is there. */
  ghost predicate Apart(s: Store, flights: map<Job, Flight>) {
    forall i, j | i in flights && j in flights && i != j && HashOf(i) == HashOf(j) ::
      i.OnSlot? && j.OnSlot? && HashOf(i) in s.hashmap
  }

  /** A save that will make its swarm known. */
  ghost predicate Opens(flights: map<Job, Flight>, k: Key) {
    OnSlot(k) in flights && flights[OnSlot(k)].op.Save? && !Linearized(flights[OnSlot(k)])
  }

  ghost predicate KnownOk(m: Machine, db: Db) {
    && (forall h | h in db.swarms :: h in m.store.hashmap)
    && forall h | h in m.store.hashmap && h !in db.swarms :: exists i :: Opens(m.flights, (h, i))
  }

  ghost predicate FlightsOk(m: Machine) {
    AllPlaced(m) && Apart(m.store, m.flights)
  }

  ghost predicate MemoryOk(s: Store, t: Meters) {
    Owned(s) && CountersOk(s) && TotalsOk(t)
  }

  /** Shared memory is that of the operations of `linear` run one after another, up to
      what the flights have still to do. */
  ghost predicate Inv(m: Machine, db: Db) {
    && LegalRun(db, m.linear) && MemoryOk(m.store, m.meters) && FlightsOk(m)
    && InStep(m, Run(db, m.linear))
  }

  ghost predicate InStep(m: Machine, db: Db) {
    m.meters.ips == db.ips && KnownOk(m, db) && forall k :: LocalOk(m, db, k)
  }

  // ---------- What a step on one slot changes ----------

  ghost predicate StoreTouches(s: Store, u: Store, k: Key) {
    && (forall g | g != k :: RefAt(u, g) == RefAt(s, g) && ListedAt(u, g) == ListedAt(s, g))
    && (forall r | r in s.owner && s.owner[r] != k :: InSlot(u, r, s.owner[r]) && Deref(u, r) == Deref(s, r))
  }

  ghost predicate MetersTouch(t: Meters, v: Meters, k: Key) {
    forall g | g != k :: CountedAt(v, g) == CountedAt(t, g)
  }

  ghost predicate DbTouches(db: Db, after: Db, k: Key) {
    forall g | g != k :: PeerAt(after, g) == PeerAt(db, g)
  }

  function AfterStep(db: Db, op: Option<Op>): Db {
    if op.Some? then Apply(db, op.value) else db
  }

  /** Which hashes are there and known after a step. */
  ghost predicate KeysOk(s: Store, u: Store, db: Db, after: Db, f: Flight, next: Option<Flight>) {
    && SameElsewhere(s.hashmap, u.hashmap, f.op.hash) && KnownElsewhere(db, after, f.op.hash)
    && (f.op.hash in after.swarms ==> f.op.hash in u.hashmap)
    && (!f.op.Sweep? && f.op.hash in s.hashmap ==> f.op.hash in u.hashmap)
    && match f.op
       case Save(_, _, _, hash, _, _) => hash in after.swarms || (next.Some? && !Linearized(next.value))
       case Drop(hash, _) => (hash in after.swarms <==> hash in db.swarms) && u.hashmap.Keys == s.hashmap.Keys
       case Sweep(hash, _, _, _) => hash in u.hashmap ==> hash in after.swarms
  }

  ghost predicate SameElsewhere(a: map<Hash, SwarmRefs>, b: map<Hash, SwarmRefs>, h: Hash) {
    forall g | g != h :: (g in b <==> g in a) && (g in a ==> b[g] == a[g])
  }

  ghost predicate KnownElsewhere(db: Db, after: Db, h: Hash) {
    forall g | g != h :: g in after.swarms <==> g in db.swarms
  }

  /** What a flight relies on. */
  ghost predicate Before(s: Store, t: Meters, db: Db, f: Flight) {
    && MemoryOk(s, t) && t.ips == db.ips && Placed(s, f)
    && SlotOk(s, t, f.Place(), PeerAt(db, f.Place()), Active(Some(f)))
    && (f.op.hash in db.swarms ==> f.op.hash in s.hashmap) && (f.op.Sweep? ==> f.op.hash in db.swarms)
  }

  /** The effect of a step keeps the invariant, seen from its own slot. */
  ghost predicate EffectOk(s: Store, t: Meters, db: Db, f: Flight, e: Effect) {
    && MemoryOk(e.store, e.meters) && StoreTouches(s, e.store, f.Place()) && MetersTouch(t, e.meters, f.Place())
    && StepsTo(s, db, f, e, AfterStep(db, e.op)) && (e.op.Some? ==> Legal(db, e.op.value))
    && (e.next.Some? ==> e.next.value.op == f.op && e.next.value.id == f.id && Placed(e.store, e.next.value))
  }

  ghost predicate StepsTo(s: Store, db: Db, f: Flight, e: Effect, after: Db) {
    && e.meters.ips == after.ips && DbTouches(db, after, f.Place())
    && SlotOk(e.store, e.meters, f.Place(), PeerAt(after, f.Place()), Active(e.next))
    && KeysOk(s, e.store, db, after, f, e.next)
  }

  // ---------- The steps on the store ----------

  lemma ValueKept(s: Store, u: Store, k: Key, g: Key)
    requires Owned(s) && StoreTouches(s, u, k) && g != k
    ensures ValueAt(u, g) == ValueAt(s, g)
  {
    if RefAt(s, g).Some? {
      assert InSlot(s, s.hashmap[g.0].peers[g.1], (g.0, g.1));
    }
  }

  lemma RefIsOwned(s: Store, k: Key)
    requires Owned(s) && RefAt(s, k).Some?
    ensures InSlot(s, RefAt(s, k).value, k)
  {
    assert InSlot(s, s.hashmap[k.0].peers[k.1], (k.0, k.1));
  }

  lemma SlotsOwned(s: Store)
    requires forall k | RefAt(s, k).Some? :: InSlot(s, RefAt(s, k).value, k)
    requires forall r | r in s.pool :: s.pool[r] == 1 && r in s.objects && r !in s.owner
    requires forall r | r in s.owner :: r in s.objects
    ensures Owned(s)
  {
    forall h, i | h in s.hashmap && i in s.hashmap[h].peers ensures InSlot(s, s.hashmap[h].peers[i], (h, i)) {
      assert RefAt(s, (h, i)) == Some(s.hashmap[h].peers[i]);
    }
  }

  lemma MadeOk(s: Store, h: Hash, k: Key)
    requires Owned(s) && CountersOk(s) && h !in s.hashmap
    ensures var u := Made(s, h);
            && Owned(u) && CountersOk(u) && StoreTouches(s, u, k)
            && RefAt(u, k) == RefAt(s, k) && ListedAt(u, k) == ListedAt(s, k) && ValueAt(u, k) == ValueAt(s, k)
  {
    var u := Made(s, h);
    CountNone(Complete);
    CountNone(Incomplete);
    forall g ensures RefAt(u, g) == RefAt(s, g) && ListedAt(u, g) == ListedAt(s, g) {
    }
    forall g | RefAt(u, g).Some? ensures InSlot(u, RefAt(u, g).value, g) {
      RefIsOwned(s, g);
    }
    SlotsOwned(u);
    forall r | r in s.owner && s.owner[r] != k ensures InSlot(u, r, s.owner[r]) {
    }
  }

  /** Only the swarm of `h` and there only what slot `id` says. */
  lemma PutTouches(s: Store, u: Store, h: Hash, id: PeerID)
    requires Owned(s) && h in s.hashmap && h in u.hashmap && u.hashmap == s.hashmap[h := u.hashmap[h]]
    requires forall i | i != id ::
               && (i in u.hashmap[h].peers <==> i in s.hashmap[h].peers)
               && (i in s.hashmap[h].peers ==> u.hashmap[h].peers[i] == s.hashmap[h].peers[i])
               && (i in u.hashmap[h].listed <==> i in s.hashmap[h].listed)
               && (i in s.hashmap[h].listed ==> u.hashmap[h].listed[i] == s.hashmap[h].listed[i])
    requires forall r | r in s.owner && s.owner[r] != (h, id) :: InSlot(u, r, s.owner[r]) && Deref(u, r) == Deref(s, r)
    ensures StoreTouches(s, u, (h, id))
    ensures forall g | g != (h, id) && RefAt(u, g).Some? :: InSlot(u, RefAt(u, g).value, g)
  {
    forall g | g != (h, id)
      ensures RefAt(u, g) == RefAt(s, g) && ListedAt(u, g) == ListedAt(s, g)
      ensures RefAt(u, g).Some? ==> InSlot(u, RefAt(u, g).value, g)
    {
      assert g.0 == h ==> g.1 != id;
      if RefAt(s, g).Some? {
        RefIsOwned(s, g);
      }
    }
  }

  lemma PutCounters(s: Store, u: Store, h: Hash)
    requires CountersOk(s) && h in u.hashmap && u.hashmap == s.hashmap[h := u.hashmap[h]]
    requires CountersAgree(u.hashmap[h])
    ensures CountersOk(u)
  {
    forall g | g in u.hashmap ensures CountersAgree(u.hashmap[g]) {
      if g != h {
        assert u.hashmap[g] == s.hashmap[g];
      }
    }
  }

  lemma CountersIn(sw: Swarm, id: PeerID, e: Entry)
    requires SwarmAgrees(sw) && id !in sw.peers
    ensures SwarmAgrees(if e.complete then Swarm(U16(sw.complete + 1), sw.incomplete, sw.peers[id := e])
                        else Swarm(sw.complete, U16(sw.incomplete + 1), sw.peers[id := e]))
  {
    CountAdd(sw.peers, id, e, Complete);
    CountAdd(sw.peers, id, e, Incomplete);
    U16Step(Count(sw.peers, Complete), 1);
    U16Step(Count(sw.peers, Incomplete), 1);
  }

  lemma CountersMove(sw: Swarm, id: PeerID, e: Entry)
    requires SwarmAgrees(sw) && id in sw.peers
    ensures SwarmAgrees(if sw.peers[id].complete == e.complete then sw.(peers := sw.peers[id := e])
                        else if e.complete
                        then Swarm(U16(sw.complete + 1), U16(sw.incomplete - 1), sw.peers[id := e])
                        else Swarm(U16(sw.complete - 1), U16(sw.incomplete + 1), sw.peers[id := e]))
  {
    CountPut(sw.peers, id, e, Complete);
    CountPut(sw.peers, id, e, Incomplete);
    U16Step(Count(sw.peers, Complete), if e.complete then 1 else -1);
    U16Step(Count(sw.peers, Incomplete), if e.complete then -1 else 1);
  }

  lemma RecountedCounters(s: Store, f: Flight)
    requires CountersOk(s) && f.op.Save? && f.op.hash in s.hashmap
    requires ListedAt(s, f.Place()) == Some(Deref(s, f.ref).complete)
    ensures CountersAgree(Recounted(s, f).hashmap[f.op.hash])
  {
    var sw := s.hashmap[f.op.hash];
    assert CountersAgree(sw);
    CountersMove(Swarm(sw.complete, sw.incomplete, sw.listed), f.id, EntryOf(f.op));
  }

  lemma RecountedOk(s: Store, f: Flight)
    requires Owned(s) && CountersOk(s) && f.op.Save? && f.op.hash in s.hashmap
    requires RefAt(s, f.Place()) == Some(f.ref) && ListedAt(s, f.Place()) == Some(Deref(s, f.ref).complete)
    ensures var u := Recounted(s, f);
            && Owned(u) && CountersOk(u) && StoreTouches(s, u, f.Place())
            && RefAt(u, f.Place()) == RefAt(s, f.Place()) && ListedAt(u, f.Place()) == Some(f.op.complete)
            && u.objects == s.objects
  {
    var u, h := Recounted(s, f), f.op.hash;
    RecountedCounters(s, f);
    PutCounters(s, u, h);
    PutTouches(s, u, h, f.id);
    RefIsOwned(s, f.Place());
    SlotsOwned(u);
  }

  lemma EnteredCounters(s: Store, f: Flight, pick: Ref)
    requires CountersOk(s) && f.op.Save? && f.op.hash in s.hashmap && ListedAt(s, f.Place()) == None
    ensures CountersAgree(Entered(s, f, pick).hashmap[f.op.hash])
  {
    var sw := s.hashmap[f.op.hash];
    assert CountersAgree(sw);
    CountersIn(Swarm(sw.complete, sw.incomplete, sw.listed), f.id, EntryOf(f.op));
  }

  lemma EnteredOk(s: Store, f: Flight, pick: Ref)
    requires Owned(s) && CountersOk(s) && f.op.Save? && f.op.hash in s.hashmap && Obtainable(s, pick)
    requires RefAt(s, f.Place()) == None && ListedAt(s, f.Place()) == None
    ensures var u := Entered(s, f, pick);
            && Owned(u) && CountersOk(u) && StoreTouches(s, u, f.Place())
            && RefAt(u, f.Place()) == Some(pick) && ListedAt(u, f.Place()) == Some(f.op.complete)
  {
    EnteredCounters(s, f, pick);
    PutCounters(s, Entered(s, f, pick), f.op.hash);
    EnteredOwned(s, f, pick);
    EnteredSlot(s, f, pick);
  }

  lemma EnteredSlot(s: Store, f: Flight, pick: Ref)
    requires f.op.Save? && f.op.hash in s.hashmap
    ensures var u := Entered(s, f, pick);
            RefAt(u, f.Place()) == Some(pick) && ListedAt(u, f.Place()) == Some(f.op.complete)
  {
  }

  lemma EnteredOwned(s: Store, f: Flight, pick: Ref)
    requires Owned(s) && f.op.Save? && f.op.hash in s.hashmap && Obtainable(s, pick)
    ensures var u := Entered(s, f, pick);
            Owned(u) && StoreTouches(s, u, f.Place())
  {
    var u := Entered(s, f, pick);
    forall r | r in s.owner && s.owner[r] != f.Place() ensures InSlot(u, r, s.owner[r]) && Deref(u, r) == Deref(s, r) {
      assert r != pick;
    }
    PutTouches(s, u, f.op.hash, f.id);
    assert RefAt(u, f.Place()) == Some(pick) && InSlot(u, pick, f.Place());
    EnteredPool(s, f, pick);
    SlotsOwned(u);
  }

  lemma EnteredPool(s: Store, f: Flight, pick: Ref)
    requires Owned(s) && f.op.Save? && f.op.hash in s.hashmap && Obtainable(s, pick)
    ensures var u := Entered(s, f, pick);
            && (forall r | r in u.pool :: u.pool[r] == 1 && r in u.objects && r !in u.owner)
            && (forall r | r in u.owner :: r in u.objects)
  {
    var u := Entered(s, f, pick);
    forall r | r in u.pool ensures u.pool[r] == 1 && r in u.objects && r !in u.owner {
      assert r in s.pool;
    }
  }

  lemma WrittenOk(s: Store, f: Flight)
    requires Owned(s) && CountersOk(s) && f.op.Save? && RefAt(s, f.Place()) == Some(f.ref)
    ensures var u := Written(s, f);
            && Owned(u) && CountersOk(u) && StoreTouches(s, u, f.Place())
            && ValueAt(u, f.Place()) == Some(EntryOf(f.op)) && ListedAt(u, f.Place()) == ListedAt(s, f.Place())
  {
    var u := Written(s, f);
    RefIsOwned(s, f.Place());
    forall g ensures RefAt(u, g) == RefAt(s, g) && ListedAt(u, g) == ListedAt(s, g) {
    }
    forall g | RefAt(u, g).Some? ensures InSlot(u, RefAt(u, g).value, g) {
      RefIsOwned(s, g);
    }
    SlotsOwned(u);
  }

  lemma TakenCounters(s: Store, k: Key)
    requires CountersOk(s) && RefAt(s, k).Some? && ListedAt(s, k) == CompleteOf(ValueAt(s, k))
    ensures CountersAgree(Taken(s, k.0, k.1).hashmap[k.0])
  {
    var sw := s.hashmap[k.0];
    assert CountersAgree(sw);
    SwarmDropAgrees(Swarm(sw.complete, sw.incomplete, sw.listed), k.1);
  }

  lemma TakenOk(s: Store, k: Key)
    requires Owned(s) && CountersOk(s) && RefAt(s, k).Some? && ListedAt(s, k) == CompleteOf(ValueAt(s, k))
    ensures var u := Taken(s, k.0, k.1);
            && Owned(u) && CountersOk(u) && StoreTouches(s, u, k)
            && RefAt(u, k) == None && ListedAt(u, k) == None && InSlot(u, RefAt(s, k).value, k)
            && u.objects == s.objects
  {
    var u := Taken(s, k.0, k.1);
    TakenCounters(s, k);
    PutCounters(s, u, k.0);
    PutTouches(s, u, k.0, k.1);
    RefIsOwned(s, k);
    SlotsOwned(u);
  }

  lemma FreedOk(s: Store, r: Ref, k: Key)
    requires Owned(s) && CountersOk(s) && InSlot(s, r, k) && RefAt(s, k) == None
    ensures var u := Freed(s, r);
            && Owned(u) && CountersOk(u) && StoreTouches(s, u, k)
            && RefAt(u, k) == None && ListedAt(u, k) == ListedAt(s, k)
  {
    var u := Freed(s, r);
    forall g ensures RefAt(u, g) == RefAt(s, g) && ListedAt(u, g) == ListedAt(s, g) {
    }
    forall g | RefAt(u, g).Some? ensures InSlot(u, RefAt(u, g).value, g) {
      RefIsOwned(s, g);
    }
    SlotsOwned(u);
  }

  lemma VanishedOk(s: Store, h: Hash, k: Key)
    requires Owned(s) && CountersOk(s) && h in s.hashmap && s.hashmap[h].peers == map[]
    requires forall i :: ListedAt(s, (h, i)) == None
    ensures var u := Vanished(s, h);
            && Owned(u) && CountersOk(u) && StoreTouches(s, u, k)
            && RefAt(u, k) == RefAt(s, k) && ListedAt(u, k) == ListedAt(s, k) && ValueAt(u, k) == ValueAt(s, k)
  {
    var u := Vanished(s, h);
    forall g ensures RefAt(u, g) == RefAt(s, g) && ListedAt(u, g) == ListedAt(s, g) {
      assert g.0 == h ==> ListedAt(s, (h, g.1)) == None;
    }
    forall g | RefAt(u, g).Some? ensures InSlot(u, RefAt(u, g).value, g) {
      RefIsOwned(s, g);
    }
    SlotsOwned(u);
  }

  // ---------- The steps on the metrics ----------

  lemma UncountedOk(t: Meters, k: Key, was: Entry)
    requires TotalsOk(t) && CountedAt(t, k) == Some(was.complete)
    ensures var v := Uncounted(t, k, was);
            TotalsOk(v) && MetersTouch(t, v, k) && CountedAt(v, k) == None && v.ips == t.ips
  {
    DropTotal(t.seeds, t.counted, k, Complete);
    DropTotal(t.leeches, t.counted, k, Incomplete);
  }

  lemma RaisedOk(t: Meters, f: Flight)
    requires TotalsOk(t) && f.op.Save? && CountedAt(t, f.Place()) == None
    ensures var v := Raised(t, f);
            && TotalsOk(v) && MetersTouch(t, v, f.Place()) && CountedAt(v, f.Place()) == Some(f.op.complete)
            && v.ips == t.ips
  {
    CountedIn(t.seeds, t.leeches, t.counted, f.Place(), EntryOf(f.op));
  }

  lemma CountedIn(seeds: int64, leeches: int64, f: map<Key, Entry>, k: Key, e: Entry)
    requires k !in f && seeds == I64(Count(f, Complete)) && leeches == I64(Count(f, Incomplete))
    ensures I64(Count(f[k := e], Complete)) == if e.complete then I64(seeds + 1) else seeds
    ensures I64(Count(f[k := e], Incomplete)) == if e.complete then leeches else I64(leeches + 1)
  {
    TallyTotal(seeds, f, k, e, Complete);
    TallyTotal(leeches, f, k, e, Incomplete);
  }

  // ---------- The operations on the database ----------

  lemma SaveTouches(db: Db, op: Op)
    requires op.Save?
    ensures var after, k := Apply(db, op), (op.hash, op.id);
            && DbTouches(db, after, k) && PeerAt(after, k) == Some(EntryOf(op))
            && after.swarms.Keys == db.swarms.Keys + {op.hash} && after.ips == MovedIp(db.ips, PeerAt(db, k), op.ip)
  {
  }

  lemma DropTouches(db: Db, k: Key)
    ensures var after := Apply(db, Op.Drop(k.0, k.1));
            && DbTouches(db, after, k) && PeerAt(after, k) == None && after.swarms.Keys == db.swarms.Keys
            && after.ips == if PeerAt(db, k).Some? then Remove(db.ips, PeerAt(db, k).value.ip) else db.ips
  {
  }

  /** The end of a trim's visit, which leaves no expired peer. */
  lemma SweepTouches(db: Db, op: Request)
    requires op.Sweep? && NothingExpired(db, op)
    ensures Legal(db, op)
    ensures var after := Apply(db, op);
            && (forall k :: PeerAt(after, k) == PeerAt(db, k)) && after.ips == db.ips
            && after.swarms.Keys == db.swarms.Keys - if db.swarms[op.hash].peers == map[] then {op.hash} else {}
  {
    forall k ensures k !in ExpiredAt(db, op.hash, op.clock, op.expiry) {
      FlatAt(db, k.0, k.1);
    }
  }

  // ---------- Whole steps, seen from their own slot ----------

  /** A step that brings no operation to the address table. */
  lemma OnItsWay(s: Store, t: Meters, db: Db, f: Flight, e: Effect)
    requires Before(s, t, db, f) && e.op.None? && e.meters.ips == t.ips
    requires MemoryOk(e.store, e.meters) && StoreTouches(s, e.store, f.Place()) && MetersTouch(t, e.meters, f.Place())
    requires SlotOk(e.store, e.meters, f.Place(), PeerAt(db, f.Place()), Active(e.next))
    requires SameElsewhere(s.hashmap, e.store.hashmap, f.op.hash)
    requires f.op.hash in s.hashmap ==> f.op.hash in e.store.hashmap
    requires f.op.hash in e.store.hashmap && f.op.hash !in s.hashmap ==> f.op.Save?
    requires f.op.Save? ==> f.op.hash in db.swarms || (e.next.Some? && !Linearized(e.next.value))
    requires e.next.Some? ==> e.next.value.op == f.op && e.next.value.id == f.id && Placed(e.store, e.next.value)
    ensures EffectOk(s, t, db, f, e)
  {
    assert f.op.Drop? ==> e.store.hashmap.Keys == s.hashmap.Keys;
  }

  /** A step that brings an operation there and leaves the rest of the memory. */
  lemma Delivers(s: Store, t: Meters, db: Db, f: Flight, e: Effect, after: Db)
    requires Before(s, t, db, f) && e.store == s && e.meters == t.(ips := after.ips)
    requires e.op.Some? && Legal(db, e.op.value) && after == Apply(db, e.op.value) && DbTouches(db, after, f.Place())
    requires SlotOk(s, t, f.Place(), PeerAt(after, f.Place()), Active(e.next))
    requires after.swarms.Keys == db.swarms.Keys || (f.op.Save? && after.swarms.Keys == db.swarms.Keys + {f.op.hash})
    requires f.op.Save? ==> f.op.hash in after.swarms && f.op.hash in s.hashmap
    requires e.next.Some? ==> e.next.value.op == f.op && e.next.value.id == f.id && Placed(s, e.next.value)
    ensures EffectOk(s, t, db, f, e)
  {
    assert AfterStep(db, e.op) == after;
    SlotOfIps(s, t, after.ips, f.Place(), PeerAt(after, f.Place()), Active(e.next));
  }

  lemma SlotOfIps(s: Store, t: Meters, ips: map<Addr, int16>, k: Key, prev: Option<Entry>, active: Option<Flight>)
    requires SlotOk(s, t, k, prev, active)
    ensures SlotOk(s, t.(ips := ips), k, prev, active)
  {
    assert CountedAt(t.(ips := ips), k) == CountedAt(t, k);
  }

  lemma SaveLook(s: Store, t: Meters, db: Db, f: Flight, pick: Ref, e: Effect)
    requires Before(s, t, db, f) && f.op.Save? && (f.pc.Look? || f.pc.Find?)
    requires e == SaveEffect(s, t, f, pick)
    ensures EffectOk(s, t, db, f, e)
  {
    OnItsWay(s, t, db, f, e);
  }

  lemma SaveMake(s: Store, t: Meters, db: Db, f: Flight, pick: Ref, e: Effect)
    requires Before(s, t, db, f) && f.op.Save? && f.pc.Make?
    requires e == SaveEffect(s, t, f, pick)
    ensures EffectOk(s, t, db, f, e)
  {
    MadeOk(s, f.op.hash, f.Place());
    OnItsWay(s, t, db, f, e);
  }

  lemma SaveEnlistFound(s: Store, t: Meters, db: Db, f: Flight, pick: Ref, e: Effect)
    requires Before(s, t, db, f) && f.op.Save? && f.pc.Enlist? && f.found
    requires e == SaveEffect(s, t, f, pick)
    ensures EffectOk(s, t, db, f, e)
  {
    RecountedOk(s, f);
    OnItsWay(s, t, db, f, e);
  }

  lemma SaveEnlistNew(s: Store, t: Meters, db: Db, f: Flight, pick: Ref, e: Effect)
    requires Before(s, t, db, f) && f.op.Save? && f.pc.Enlist? && !f.found && Obtainable(s, pick)
    requires e == SaveEffect(s, t, f, pick)
    ensures EffectOk(s, t, db, f, e)
  {
    EnteredOk(s, f, pick);
    OnItsWay(s, t, db, f, e);
  }

  lemma SaveMeterFound(s: Store, t: Meters, db: Db, f: Flight, pick: Ref, e: Effect)
    requires Before(s, t, db, f) && f.op.Save? && f.pc.Meter? && f.found
    requires e == SaveEffect(s, t, f, pick)
    ensures EffectOk(s, t, db, f, e)
  {
    if Deref(s, f.ref).complete != f.op.complete {
      UncountedOk(t, f.Place(), Deref(s, f.ref));
    }
    OnItsWay(s, t, db, f, e);
  }

  lemma SaveMeter2(s: Store, t: Meters, db: Db, f: Flight, pick: Ref, e: Effect)
    requires Before(s, t, db, f) && f.op.Save? && f.pc.Meter2?
    requires e == SaveEffect(s, t, f, pick)
    ensures EffectOk(s, t, db, f, e)
  {
    RaisedOk(t, f);
    OnItsWay(s, t, db, f, e);
  }

  /** The section that counts the address of a new peer, or moves that of a known one. */
  lemma SaveIp(s: Store, t: Meters, db: Db, f: Flight, pick: Ref, e: Effect)
    requires Before(s, t, db, f) && f.op.Save? && f.pc.Ip?
    requires e == SaveEffect(s, t, f, pick)
    ensures EffectOk(s, t, db, f, e)
  {
    Arrives(s, t, db, f, f.(pc := Write), e);
  }

  lemma SaveInc(s: Store, t: Meters, db: Db, f: Flight, pick: Ref, e: Effect)
    requires Before(s, t, db, f) && f.op.Save? && f.pc.Meter? && !f.found
    requires e == SaveEffect(s, t, f, pick)
    ensures EffectOk(s, t, db, f, e)
  {
    Arrives(s, t, db, f, f.(pc := Meter2), e);
  }

  lemma Arrives(s: Store, t: Meters, db: Db, f: Flight, next: Flight, e: Effect)
    requires Before(s, t, db, f) && f.op.Save? && f.pc in {Ip, Meter} && !Linearized(f)
    requires next == f.(pc := next.pc) && next.pc in {Meter2, Write} && Linearized(next)
    requires CountedBy(next, Some(EntryOf(f.op))) == CountedAt(t, f.Place())
    requires e == Effect(s, t.(ips := MovedIp(t.ips, PeerAt(db, f.Place()), f.op.ip)), Some(next), Some(f.op))
    ensures EffectOk(s, t, db, f, e)
  {
    SaveTouches(db, f.op);
    Delivers(s, t, db, f, e, Apply(db, f.op));
  }

  lemma SaveWrite(s: Store, t: Meters, db: Db, f: Flight, pick: Ref, e: Effect)
    requires Before(s, t, db, f) && f.op.Save? && f.pc.Write?
    requires e == SaveEffect(s, t, f, pick)
    ensures EffectOk(s, t, db, f, e)
  {
    WrittenOk(s, f);
    OnItsWay(s, t, db, f, e);
  }

  lemma SaveOkStep(s: Store, t: Meters, db: Db, f: Flight, pick: Ref, e: Effect)
    requires Before(s, t, db, f) && f.op.Save? && MayAdvance(s, f, pick)
    requires e == SaveEffect(s, t, f, pick)
    ensures EffectOk(s, t, db, f, e)
  {
    match f.pc
    case Look => SaveLook(s, t, db, f, pick, e);
    case Make => SaveMake(s, t, db, f, pick, e);
    case Find => SaveLook(s, t, db, f, pick, e);
    case Enlist => if f.found { SaveEnlistFound(s, t, db, f, pick, e); } else { SaveEnlistNew(s, t, db, f, pick, e); }
    case Meter => if f.found { SaveMeterFound(s, t, db, f, pick, e); } else { SaveInc(s, t, db, f, pick, e); }
    case Meter2 => SaveMeter2(s, t, db, f, pick, e);
    case Ip => SaveIp(s, t, db, f, pick, e);
    case Write => SaveWrite(s, t, db, f, pick, e);
  }

  /** A drop that finds no peer. */
  lemma DropNothing(s: Store, t: Meters, db: Db, f: Flight, e: Effect)
    requires Before(s, t, db, f) && f.op.Drop? && (f.pc.Look? || f.pc.Take?) && RefAt(s, f.Place()) == None
    requires e == Effect(s, t, None, Some(f.op))
    ensures EffectOk(s, t, db, f, e)
  {
    DropTouches(db, f.Place());
    Delivers(s, t, db, f, e, Apply(db, f.op));
  }

  lemma DropLook(s: Store, t: Meters, db: Db, f: Flight, e: Effect)
    requires Before(s, t, db, f) && f.op.Drop? && f.pc.Look?
    requires e == DropEffect(s, t, f)
    ensures EffectOk(s, t, db, f, e)
  {
    if f.op.hash in s.hashmap {
      OnItsWay(s, t, db, f, e);
    } else {
      DropNothing(s, t, db, f, e);
    }
  }

  /** A drop takes its peer out, or a trim's visit the one that it has met. */
  lemma TakeStep(s: Store, t: Meters, db: Db, f: Flight, e: Effect)
    requires Before(s, t, db, f) && RefAt(s, f.Place()).Some?
    requires (f.op.Drop? && f.pc.Take?) || (f.op.Sweep? && f.pc.Scan?)
    requires e == TakeEffect(s, t, f)
    ensures EffectOk(s, t, db, f, e)
  {
    TakenOk(s, f.Place());
    OnItsWay(s, t, db, f, e);
  }

  lemma DropTake(s: Store, t: Meters, db: Db, f: Flight, e: Effect)
    requires Before(s, t, db, f) && f.op.Drop? && f.pc.Take?
    requires e == DropEffect(s, t, f)
    ensures EffectOk(s, t, db, f, e)
  {
    if RefAt(s, f.Place()).Some? {
      assert DropEffect(s, t, f) == TakeEffect(s, t, f);
      TakeStep(s, t, db, f, e);
    } else {
      DropNothing(s, t, db, f, e);
    }
  }

  lemma HandMeter(s: Store, t: Meters, db: Db, f: Flight, e: Effect)
    requires Before(s, t, db, f) && !f.op.Save? && f.pc.Meter?
    requires e == HandEffect(s, t, f)
    ensures EffectOk(s, t, db, f, e)
  {
    UncountedOk(t, f.Place(), Deref(s, f.ref));
    OnItsWay(s, t, db, f, e);
  }

  lemma HandIp(s: Store, t: Meters, db: Db, f: Flight, e: Effect)
    requires Before(s, t, db, f) && !f.op.Save? && f.pc.Ip?
    requires e == HandEffect(s, t, f)
    ensures EffectOk(s, t, db, f, e)
  {
    DropTouches(db, f.Place());
    assert PeerAt(db, f.Place()) == Some(Deref(s, f.ref));
    Delivers(s, t, db, f, e, Apply(db, Op.Drop(f.op.hash, f.id)));
  }

  lemma HandFree(s: Store, t: Meters, db: Db, f: Flight, e: Effect)
    requires Before(s, t, db, f) && !f.op.Save? && f.pc.Free?
    requires e == HandEffect(s, t, f)
    ensures EffectOk(s, t, db, f, e)
  {
    FreedOk(s, f.ref, f.Place());
    OnItsWay(s, t, db, f, e);
  }

  lemma HandStep(s: Store, t: Meters, db: Db, f: Flight, e: Effect)
    requires Before(s, t, db, f) && !f.op.Save? && InHand(f)
    requires e == HandEffect(s, t, f)
    ensures EffectOk(s, t, db, f, e)
  {
    if f.pc.Meter? {
      HandMeter(s, t, db, f, e);
    } else if f.pc.Ip? {
      HandIp(s, t, db, f, e);
    } else {
      HandFree(s, t, db, f, e);
    }
  }

  lemma DropOkStep(s: Store, t: Meters, db: Db, f: Flight, e: Effect)
    requires Before(s, t, db, f) && f.op.Drop?
    requires e == DropEffect(s, t, f)
    ensures EffectOk(s, t, db, f, e)
  {
    if f.pc.Look? {
      DropLook(s, t, db, f, e);
    } else if f.pc.Take? {
      DropTake(s, t, db, f, e);
    } else {
      HandStep(s, t, db, f, e);
    }
  }

  /** No operation is at work on a peer of the swarm. */
  ghost predicate QuietSwarm(s: Store, t: Meters, db: Db, h: Hash) {
    forall i :: Quiet(s, t, (h, i), PeerAt(db, (h, i)))
  }

  /** The swarm of the database has the peers of the shared one. */
  ghost predicate SamePeers(s: Store, db: Db, h: Hash) {
    && h in s.hashmap && h in db.swarms && db.swarms[h].peers.Keys == s.hashmap[h].peers.Keys
    && (forall i | i in db.swarms[h].peers :: db.swarms[h].peers[i] == Deref(s, s.hashmap[h].peers[i]))
    && (s.hashmap[h].peers == map[] ==> forall i :: ListedAt(s, (h, i)) == None)
  }

  lemma QuietIsSame(s: Store, t: Meters, db: Db, h: Hash)
    requires QuietSwarm(s, t, db, h) && h in s.hashmap && h in db.swarms
    ensures SamePeers(s, db, h)
  {
    forall i
      ensures i in db.swarms[h].peers <==> i in s.hashmap[h].peers
      ensures i in db.swarms[h].peers ==> db.swarms[h].peers[i] == Deref(s, s.hashmap[h].peers[i])
      ensures i !in s.hashmap[h].peers ==> ListedAt(s, (h, i)) == None
    {
      assert Quiet(s, t, (h, i), PeerAt(db, (h, i)));
    }
  }

  lemma SweepGoesOn(s: Store, t: Meters, db: Db, f: Flight, pc: Pc, e: Effect)
    requires Before(s, t, db, f) && f.op.Sweep? && (f.pc.Look? || f.pc.Scan?)
    requires pc.Scan? || (pc.Vanish? && s.hashmap[f.op.hash].peers == map[])
    requires e == Effect(s, t, Some(f.(pc := pc)), None)
    ensures EffectOk(s, t, db, f, e)
  {
    OnItsWay(s, t, db, f, e);
  }

  ghost predicate NothingExpired(db: Db, op: Op)
    requires op.Sweep?
  {
    && op.hash in db.swarms
    && forall i | i in db.swarms[op.hash].peers :: !Expired(db.swarms[op.hash].peers[i], op.clock, op.expiry)
  }

  lemma SweepEnds(s: Store, t: Meters, db: Db, f: Flight, e: Effect)
    requires Before(s, t, db, f) && f.op.Sweep? && f.pc.Scan?
    requires NothingExpired(db, f.op) && db.swarms[f.op.hash].peers != map[]
    requires e == Effect(s, t, None, Some(f.op))
    ensures EffectOk(s, t, db, f, e)
  {
    SweepTouches(db, f.op);
    Delivers(s, t, db, f, e, Apply(db, f.op));
  }

  lemma SweepScan(s: Store, t: Meters, db: Db, f: Flight, pick: Ref, e: Effect)
    requires Before(s, t, db, f) && f.op.Sweep? && f.pc.Scan? && MayAdvance(s, f, pick)
    requires SamePeers(s, db, f.op.hash)
    requires e == SweepEffect(s, t, f)
    ensures EffectOk(s, t, db, f, e)
  {
    if s.hashmap[f.op.hash].peers == map[] {
      assert SweepEffect(s, t, f) == Effect(s, t, Some(f.(pc := Vanish)), None);
      SweepGoesOn(s, t, db, f, Vanish, e);
    } else {
      assert SweepEffect(s, t, f) == Effect(s, t, None, Some(f.op));
      assert NothingExpired(db, f.op) && db.swarms[f.op.hash].peers != map[];
      SweepEnds(s, t, db, f, e);
    }
  }

  lemma SweepVanish(s: Store, t: Meters, db: Db, f: Flight, e: Effect)
    requires Before(s, t, db, f) && f.op.Sweep? && f.pc.Vanish? && SamePeers(s, db, f.op.hash)
    requires e == Effect(Vanished(s, f.op.hash), t, None, Some(f.op))
    ensures EffectOk(s, t, db, f, e)
  {
    assert db.swarms[f.op.hash].peers == map[];
    SweepTouches(db, f.op);
    VanishedOk(s, f.op.hash, f.Place());
  }

  lemma SweepLoopStep(s: Store, t: Meters, db: Db, f: Flight, pick: Ref, e: Effect)
    requires Before(s, t, db, f) && f.op.Sweep? && !InHand(f) && MayAdvance(s, f, pick)
    requires SamePeers(s, db, f.op.hash)
    requires e == SweepEffect(s, t, f)
    ensures EffectOk(s, t, db, f, e)
  {
    if f.pc.Look? {
      SweepGoesOn(s, t, db, f, Scan, e);
    } else if f.pc.Scan? {
      SweepScan(s, t, db, f, pick, e);
    } else {
      SweepVanish(s, t, db, f, e);
    }
  }

  // ---------- Whole steps of the machine ----------

  lemma ActiveOf(m: Machine, j: Job)
    requires FlightsOk(m) && j in m.flights
    ensures FlightAt(m.flights, m.flights[j].Place()) == Active(Some(m.flights[j]))
  {
    var f := m.flights[j];
    if f.op.Sweep? {
      assert HashOf(OnSlot(f.Place())) == HashOf(j);
    } else {
      assert OnSlot(f.Place()) == j;
    }
  }

  lemma SweptIsKnown(m: Machine, db: Db, h: Hash)
    requires FlightsOk(m) && KnownOk(m, db) && OnSwarm(h) in m.flights
    ensures h in db.swarms
  {
    assert Placed(m.store, m.flights[OnSwarm(h)]);
    forall i ensures !Opens(m.flights, (h, i)) {
      assert HashOf(OnSlot((h, i))) == HashOf(OnSwarm(h));
    }
  }

  lemma BeforeOf(m: Machine, db: Db, j: Job)
    requires MemoryOk(m.store, m.meters) && FlightsOk(m) && InStep(m, db) && j in m.flights
    ensures Before(m.store, m.meters, db, m.flights[j])
  {
    var f := m.flights[j];
    ActiveOf(m, j);
    assert LocalOk(m, db, f.Place());
    if f.op.Sweep? {
      SweptIsKnown(m, db, f.op.hash);
    }
  }

  lemma BeforeMeeting(m: Machine, db: Db, h: Hash, id: PeerID)
    requires MemoryOk(m.store, m.meters) && FlightsOk(m) && InStep(m, db) && Enabled(m, Meet(h, id))
    ensures Before(m.store, m.meters, db, m.flights[OnSwarm(h)].(id := id))
  {
    var f := m.flights[OnSwarm(h)];
    QuietOf(m, db, h);
    assert Quiet(m.store, m.meters, (h, id), PeerAt(db, (h, id)));
    SweptIsKnown(m, db, h);
    assert Placed(m.store, f) && f.op.hash == h;
  }

  lemma QuietOf(m: Machine, db: Db, h: Hash)
    requires FlightsOk(m) && InStep(m, db) && OnSwarm(h) in m.flights && !InHand(m.flights[OnSwarm(h)])
    ensures QuietSwarm(m.store, m.meters, db, h)
  {
    assert JobOf(m.flights[OnSwarm(h)].op) == OnSwarm(h);
    forall i ensures Quiet(m.store, m.meters, (h, i), PeerAt(db, (h, i))) {
      assert HashOf(OnSlot((h, i))) == HashOf(OnSwarm(h));
      assert LocalOk(m, db, (h, i));
    }
  }

  /** The flight `f` is that of the job, up to the peer that a trim's visit turns to. */
  ghost predicate Turned(m: Machine, j: Job, f: Flight) {
    && j in m.flights && f == m.flights[j].(id := f.id)
    && (f.id == m.flights[j].id || (f.op.Sweep? && !InHand(m.flights[j])))
  }

  ghost predicate Continues(f: Flight, e: Effect) {
    e.next.Some? ==> e.next.value.op == f.op && e.next.value.id == f.id
  }

  lemma FlightsAfter(m: Machine, j: Job, f: Flight, e: Effect, g: Key)
    requires FlightsOk(m) && Turned(m, j, f) && Continues(f, e)
    ensures FlightAt(After(m, j, e).flights, g) ==
            if g == f.Place() then Active(e.next) else FlightAt(m.flights, g)
  {
    assert JobOf(m.flights[j].op) == j;
    assert HashOf(OnSlot(g)) == g.0 && HashOf(OnSwarm(g.0)) == g.0;
    assert Placed(m.store, m.flights[j]);
  }

  lemma SlotKept(s: Store, u: Store, t: Meters, v: Meters, k: Key, g: Key, prev: Option<Entry>, active: Option<Flight>)
    requires Owned(s) && StoreTouches(s, u, k) && MetersTouch(t, v, k) && g != k && SlotOk(s, t, g, prev, active)
    ensures SlotOk(u, v, g, prev, active)
  {
    ValueKept(s, u, k, g);
  }

  lemma LocalAfter(m: Machine, db: Db, j: Job, f: Flight, e: Effect, g: Key)
    requires Owned(m.store) && FlightsOk(m) && Turned(m, j, f) && EffectOk(m.store, m.meters, db, f, e)
    requires LocalOk(m, db, g)
    ensures LocalOk(After(m, j, e), AfterStep(db, e.op), g)
  {
    FlightsAfter(m, j, f, e, g);
    if g != f.Place() {
      SlotKept(m.store, e.store, m.meters, e.meters, f.Place(), g, PeerAt(db, g), FlightAt(m.flights, g));
    }
  }

  lemma PlacedAfter(m: Machine, db: Db, j: Job, f: Flight, e: Effect)
    requires FlightsOk(m) && Turned(m, j, f) && EffectOk(m.store, m.meters, db, f, e)
    ensures AllPlaced(After(m, j, e))
  {
    var n := After(m, j, e);
    assert JobOf(m.flights[j].op) == j;
    forall i | i in n.flights ensures JobOf(n.flights[i].op) == i && Placed(n.store, n.flights[i]) {
      if i != j {
        OtherPlaced(m, db, j, f, e, i);
      }
    }
  }

  lemma OtherPlaced(m: Machine, db: Db, j: Job, f: Flight, e: Effect, i: Job)
    requires FlightsOk(m) && Turned(m, j, f) && i in m.flights && i != j
    requires KeysOk(m.store, e.store, db, AfterStep(db, e.op), f, e.next)
    ensures Placed(e.store, m.flights[i])
  {
    var g := m.flights[i];
    assert JobOf(g.op) == i && JobOf(f.op) == j && Placed(m.store, g) && Placed(m.store, m.flights[j]);
    assert HashOf(i) == g.op.hash && HashOf(j) == f.op.hash;
  }

  lemma ApartAfter(m: Machine, db: Db, j: Job, f: Flight, e: Effect)
    requires FlightsOk(m) && Turned(m, j, f)
    requires KeysOk(m.store, e.store, db, AfterStep(db, e.op), f, e.next)
    ensures Apart(e.store, After(m, j, e).flights)
  {
    var flights := After(m, j, e).flights;
    assert JobOf(f.op) == j && HashOf(j) == f.op.hash;
    forall a, b | a in flights && b in flights && a != b && HashOf(a) == HashOf(b)
      ensures a.OnSlot? && b.OnSlot? && HashOf(a) in e.store.hashmap
    {
      assert a in m.flights && b in m.flights;
    }
  }

  lemma KnownAfter(m: Machine, db: Db, j: Job, f: Flight, e: Effect)
    requires FlightsOk(m) && KnownOk(m, db) && Turned(m, j, f) && Continues(f, e)
    requires KeysOk(m.store, e.store, db, AfterStep(db, e.op), f, e.next)
    ensures KnownOk(After(m, j, e), AfterStep(db, e.op))
  {
    var n, after := After(m, j, e), AfterStep(db, e.op);
    assert JobOf(m.flights[j].op) == j;
    forall h | h in n.store.hashmap && h !in after.swarms ensures exists i :: Opens(n.flights, (h, i)) {
      if h == f.op.hash && f.op.Save? {
        assert Opens(n.flights, (h, f.op.id));
      } else {
        var i :| Opens(m.flights, (h, i));
        StillOpens(m, j, f, e, (h, i));
      }
    }
  }

  lemma StillOpens(m: Machine, j: Job, f: Flight, e: Effect, k: Key)
    requires FlightsOk(m) && Turned(m, j, f) && Opens(m.flights, k) && !(k.0 == f.op.hash && f.op.Save?)
    ensures Opens(After(m, j, e).flights, k)
  {
    assert JobOf(m.flights[j].op) == j && JobOf(m.flights[OnSlot(k)].op) == OnSlot(k);
  }

  lemma StepKeepsInv(m: Machine, db: Db, j: Job, f: Flight, e: Effect)
    requires Inv(m, db) && Turned(m, j, f) && EffectOk(m.store, m.meters, Run(db, m.linear), f, e)
    ensures Inv(After(m, j, e), db)
  {
    var n, s := After(m, j, e), Run(db, m.linear);
    var after := AfterStep(s, e.op);
    LinearAfter(m, db, j, e);
    PlacedAfter(m, s, j, f, e);
    ApartAfter(m, s, j, f, e);
    KnownAfter(m, s, j, f, e);
    forall g ensures LocalOk(n, after, g) {
      LocalAfter(m, s, j, f, e, g);
    }
  }

  lemma LinearAfter(m: Machine, db: Db, j: Job, e: Effect)
    requires LegalRun(db, m.linear) && (e.op.Some? ==> Legal(Run(db, m.linear), e.op.value))
    ensures var n := After(m, j, e);
            LegalRun(db, n.linear) && Run(db, n.linear) == AfterStep(Run(db, m.linear), e.op)
  {
    if e.op.Some? {
      RunSnoc(db, m.linear, e.op.value);
    } else {
      assert m.linear + [] == m.linear;
    }
  }

  lemma AdvanceKeepsInv(m: Machine, db: Db, j: Job, pick: Ref)
    requires Inv(m, db) && Enabled(m, Advance(j, pick))
    ensures Inv(Next(m, Advance(j, pick)), db)
  {
    var s, f := Run(db, m.linear), m.flights[j];
    var e := EffectOf(m.store, m.meters, f, pick);
    BeforeOf(m, s, j);
    if f.op.Save? {
      SaveOkStep(m.store, m.meters, s, f, pick, e);
    } else if f.op.Drop? {
      DropOkStep(m.store, m.meters, s, f, e);
    } else {
      SweepKeepsOk(m, s, f, pick, e);
    }
    StepKeepsInv(m, db, j, f, e);
  }

  lemma SweepKeepsOk(m: Machine, db: Db, f: Flight, pick: Ref, e: Effect)
    requires MemoryOk(m.store, m.meters) && FlightsOk(m) && InStep(m, db) && Before(m.store, m.meters, db, f)
    requires f.op.Sweep? && OnSwarm(f.op.hash) in m.flights && m.flights[OnSwarm(f.op.hash)] == f
    requires MayAdvance(m.store, f, pick) && e == SweepEffect(m.store, m.meters, f)
    ensures EffectOk(m.store, m.meters, db, f, e)
  {
    if InHand(f) {
      HandStep(m.store, m.meters, db, f, e);
    } else {
      QuietOf(m, db, f.op.hash);
      QuietIsSame(m.store, m.meters, db, f.op.hash);
      SweepLoopStep(m.store, m.meters, db, f, pick, e);
    }
  }

  lemma MeetKeepsInv(m: Machine, db: Db, h: Hash, id: PeerID)
    requires Inv(m, db) && Enabled(m, Meet(h, id))
    ensures Inv(Next(m, Meet(h, id)), db)
  {
    var f := m.flights[OnSwarm(h)].(id := id);
    var e := TakeEffect(m.store, m.meters, f);
    MeetingOk(m, Run(db, m.linear), h, id, f, e);
    StepKeepsInv(m, db, OnSwarm(h), f, e);
  }

  lemma MeetingOk(m: Machine, db: Db, h: Hash, id: PeerID, f: Flight, e: Effect)
    requires MemoryOk(m.store, m.meters) && FlightsOk(m) && InStep(m, db) && Enabled(m, Meet(h, id))
    requires f == m.flights[OnSwarm(h)].(id := id) && e == TakeEffect(m.store, m.meters, f)
    ensures EffectOk(m.store, m.meters, db, f, e)
  {
    BeforeMeeting(m, db, h, id);
    assert JobOf(f.op) == OnSwarm(h);
    TakeStep(m.store, m.meters, db, f, e);
  }

  lemma StartedFlights(m: Machine, op: Request, g: Key)
    requires FlightsOk(m) && MayStart(m, op)
    ensures var n := Next(m, Start(op));
            && (g == (op.hash, n.flights[JobOf(op)].id) && !op.Sweep? ==>
                  FlightAt(m.flights, g) == None && FlightAt(n.flights, g) == Some(n.flights[JobOf(op)]))
            && (g != (op.hash, n.flights[JobOf(op)].id) || op.Sweep? ==>
                  FlightAt(n.flights, g) == FlightAt(m.flights, g))
  {
    assert HashOf(OnSlot(g)) == g.0 && HashOf(OnSwarm(g.0)) == g.0;
  }

  lemma StartKeepsInv(m: Machine, db: Db, op: Request)
    requires Inv(m, db) && MayStart(m, op)
    ensures Inv(Next(m, Start(op)), db)
  {
    var n, s := Next(m, Start(op)), Run(db, m.linear);
    forall g ensures LocalOk(n, s, g) {
      assert LocalOk(m, s, g);
      StartedFlights(m, op, g);
    }
    StartedApart(m, op);
    StartedKnown(m, s, op);
  }

  lemma StartedKnown(m: Machine, db: Db, op: Request)
    requires KnownOk(m, db) && MayStart(m, op)
    ensures KnownOk(Next(m, Start(op)), db)
  {
    var n := Next(m, Start(op));
    forall h | h in n.store.hashmap && h !in db.swarms ensures exists i :: Opens(n.flights, (h, i)) {
      var i :| Opens(m.flights, (h, i));
      assert Opens(n.flights, (h, i));
    }
  }

  lemma StartedApart(m: Machine, op: Request)
    requires FlightsOk(m) && MayStart(m, op)
    ensures FlightsOk(Next(m, Start(op)))
  {
    var n, j := Next(m, Start(op)), JobOf(op);
    forall a, b | a in n.flights && b in n.flights && a != b && HashOf(a) == HashOf(b)
      ensures a.OnSlot? && b.OnSlot? && HashOf(a) in m.store.hashmap
    {
      if a != j && b != j {
        assert a in m.flights && b in m.flights;
      }
    }
  }

  /** Every step keeps the invariant. */
  lemma NextKeepsInv(m: Machine, db: Db, ev: Event)
    requires Inv(m, db) && Enabled(m, ev)
    ensures Inv(Next(m, ev), db)
  {
    match ev
    case Start(op) => StartKeepsInv(m, db, op);
    case Advance(j, pick) => AdvanceKeepsInv(m, db, j, pick);
    case Meet(h, id) => MeetKeepsInv(m, db, h, id);
  }
}
