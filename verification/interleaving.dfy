/** Save, Drop and a trim's visit to one swarm as the source runs them: a sequence of
    separate lock sections and unlocked updates. Operations on different peers, of one
    swarm or of several, may interleave; the result is that of running them one after
    another. */
module Interleaving {
  import opened Bytes
  import opened Storage
  import opened PeerDb

  type Ref = int  // a *storage.Peer

  /** A visit of a trim finds its peers as it goes, so its order is left empty. */
  type Request = op: Op | !op.Trim? && (op.Sweep? ==> op.order == [])
    witness Drop(Hash(seq(20, _ => 0)), PeerID(seq(20, _ => 0)))

  /** What an operation works on: one peer, or for a visit of a trim one swarm. */
  datatype Job = OnSlot(key: Key) | OnSwarm(hash: Hash)

  function JobOf(op: Op): Job
    requires !op.Trim?
  {
    match op
    case Save(_, _, _, hash, id, _) => OnSlot((hash, id))
    case Drop(hash, id) => OnSlot((hash, id))
    case Sweep(hash, _, _, _) => OnSwarm(hash)
  }

  function HashOf(j: Job): Hash {
    match j
    case OnSlot(key) => key.0
    case OnSwarm(hash) => hash
  }

  /** Where an operation stands: the step it takes next. */
  datatype Pc = Look | Make | Find | Enlist | Meter | Meter2 | Ip | Write | Take | Free | Scan | Vanish

  /** An operation in progress with its local variables; `id` is its peer, for a visit of
      a trim the one that it is removing. */
  datatype Flight = Flight(op: Request, pc: Pc, found: bool, ref: Ref, id: PeerID) {
    function Place(): Key {
      (op.hash, id)
    }
  }

  // `listed`, `owner`, `counted` and `linear` below are history: the steps write them
  // and never read them.

  /** `listed`: the peers that the counters include. */
  datatype SwarmRefs = SwarmRefs(complete: uint16, incomplete: uint16, peers: map<PeerID, Ref>,
                                 listed: map<PeerID, Entry>)

  /** The database and the pool. `owner`: the slot for which an object is in use. */
  datatype Store = Store(hashmap: map<Hash, SwarmRefs>, objects: map<Ref, Entry>, pool: multiset<Ref>,
                         owner: map<Ref, Key>)

  /** The global metrics. `counted`: the peers that the seed and leech totals include. */
  datatype Meters = Meters(seeds: int64, leeches: int64, ips: map<Addr, int16>, counted: map<Key, Entry>)

  /** Shared memory and the operations in progress. `linear`: the saves and drops in the
      order in which they came to the address table, a visit of a trim as its single drops
      and the removal of what it leaves empty. */
  datatype Machine = Machine(store: Store, meters: Meters, flights: map<Job, Flight>, linear: seq<Op>)

  const ZERO_PEER := Entry(false, V4([0, 0, 0, 0]), 0, 0)

  function Deref(s: Store, r: Ref): Entry {
    if r in s.objects then s.objects[r] else ZERO_PEER
  }

  function EntryOf(op: Op): Entry
    requires op.Save?
  {
    Entry(op.complete, op.ip, op.port, op.now)
  }

  // ---------- Steps ----------

  datatype Event =
    | Start(op: Request)
    | Advance(job: Job, pick: Ref)  // `pick`: the object a pool Get hands out
    | Meet(hash: Hash, id: PeerID)  // the loop of a trim's visit meets an expired peer

  predicate Idle(m: Machine, h: Hash) {
    forall j | j in m.flights :: HashOf(j) != h
  }

  /** One operation at a time on each peer; a visit of a trim, and an operation that finds
      no swarm, have the infohash to themselves. */
  predicate MayStart(m: Machine, op: Request) {
    if op.Sweep? then op.hash in m.store.hashmap && Idle(m, op.hash)
    else
      && JobOf(op) !in m.flights && OnSwarm(op.hash) !in m.flights
      && (op.hash in m.store.hashmap || Idle(m, op.hash))
  }

  predicate Enabled(m: Machine, ev: Event) {
    match ev
    case Start(op) => MayStart(m, op)
    case Advance(job, pick) => job in m.flights && MayAdvance(m.store, m.flights[job], pick)
    case Meet(hash, id) => OnSwarm(hash) in m.flights && MayMeet(m.store, m.flights[OnSwarm(hash)], hash, id)
  }

  predicate MayAdvance(s: Store, f: Flight, pick: Ref) {
    && (f.pc.Enlist? && !f.found ==> Obtainable(s, pick))
    && (f.pc.Scan? ==> f.op.Sweep? && NoneExpired(s, f.op.hash, f.op.clock, f.op.expiry))
  }

  predicate MayMeet(s: Store, f: Flight, h: Hash, id: PeerID) {
    && f.op.Sweep? && f.pc.Scan? && h in s.hashmap && id in s.hashmap[h].peers
    && Expired(Deref(s, s.hashmap[h].peers[id]), f.op.clock, f.op.expiry)
  }

  /** The loop of a trim's visit ends when it has met all expired peers. */
  predicate NoneExpired(s: Store, h: Hash, clock: int64, expiry: int64) {
    h in s.hashmap ==> forall i | i in s.hashmap[h].peers :: !Expired(Deref(s, s.hashmap[h].peers[i]), clock, expiry)
  }

  /** A pool Get hands out a pooled object or a new one. */
  predicate Obtainable(s: Store, pick: Ref) {
    pick in s.pool || pick !in s.objects
  }

  /** What a step does: shared memory, the flight after it, and the operation that it
      brings to the address table. */
  datatype Effect = Effect(store: Store, meters: Meters, next: Option<Flight>, op: Option<Op>)

  function Next(m: Machine, ev: Event): Machine
    requires Enabled(m, ev)
  {
    match ev
    case Start(op) =>
      var id := if op.Sweep? then PeerID(BigEndian(0, 20)) else op.id;
      m.(flights := m.flights[JobOf(op) := Flight(op, Look, false, 0, id)])
    case Advance(job, pick) => After(m, job, EffectOf(m.store, m.meters, m.flights[job], pick))
    case Meet(hash, id) => After(m, OnSwarm(hash), TakeEffect(m.store, m.meters, m.flights[OnSwarm(hash)].(id := id)))
  }

  function After(m: Machine, job: Job, e: Effect): Machine {
    Machine(e.store, e.meters,
            if e.next.Some? then m.flights[job := e.next.value] else m.flights - {job},
            m.linear + if e.op.Some? then [e.op.value] else [])
  }

  function EffectOf(s: Store, t: Meters, f: Flight, pick: Ref): Effect {
    if f.op.Save? then SaveEffect(s, t, f, pick)
    else if f.op.Drop? then DropEffect(s, t, f)
    else SweepEffect(s, t, f)
  }

  function SaveEffect(s: Store, t: Meters, f: Flight, pick: Ref): Effect
    requires f.op.Save?
  {
    match f.pc
    case Look => Effect(s, t, Some(f.(pc := if f.op.hash in s.hashmap then Find else Make)), None)
    case Make => Effect(Made(s, f.op.hash), t, Some(f.(pc := Find)), None)
    case Find => Effect(s, t, Some(Found(s, f)), None)
    case Enlist =>
      if f.found then Effect(Recounted(s, f), t, Some(f.(pc := Meter)), None)
      else Effect(Entered(s, f, pick), t, Some(f.(pc := Meter, ref := pick)), None)
    case Meter =>
      if f.found then Effect(s, Lowered(t, f, Deref(s, f.ref)), Some(f.(pc := AfterMeter(f, Deref(s, f.ref)))), None)
      else Effect(s, t.(ips := Inc(t.ips, f.op.ip)), Some(f.(pc := Meter2)), Some(f.op))
    case Meter2 => Effect(s, Raised(t, f), Some(f.(pc := if f.found then Ip else Write)), None)
    case Ip => Effect(s, t.(ips := MovedIp(t.ips, Some(Deref(s, f.ref)), f.op.ip)), Some(f.(pc := Write)), Some(f.op))
    case Write => Effect(Written(s, f), t, None, None)
    case _ => Effect(s, t, Some(f), None)
  }

  function Made(s: Store, h: Hash): Store {
    s.(hashmap := s.hashmap[h := SwarmRefs(0, 0, map[], map[])])
  }

  function Found(s: Store, f: Flight): Flight
    requires f.op.Save?
  {
    if f.op.hash in s.hashmap && f.id in s.hashmap[f.op.hash].peers
    then f.(found := true, ref := s.hashmap[f.op.hash].peers[f.id], pc := Enlist)
    else f.(found := false, pc := Enlist)
  }

  // The locked section that takes the slot and updates the counters.

  function Recounted(s: Store, f: Flight): Store
    requires f.op.Save?
  {
    if f.op.hash !in s.hashmap then s else
    var complete, sw, was := f.op.complete, s.hashmap[f.op.hash], Deref(s, f.ref).complete;
    var listed := sw.listed[f.id := EntryOf(f.op)];
    var after :=
      if !was && complete then SwarmRefs(U16(sw.complete + 1), U16(sw.incomplete - 1), sw.peers, listed)
      else if was && !complete then SwarmRefs(U16(sw.complete - 1), U16(sw.incomplete + 1), sw.peers, listed)
      else sw.(listed := listed);
    s.(hashmap := s.hashmap[f.op.hash := after])
  }

  function Entered(s: Store, f: Flight, pick: Ref): Store
    requires f.op.Save?
  {
    if f.op.hash !in s.hashmap then s else
    var sw := s.hashmap[f.op.hash];
    var peers, listed := sw.peers[f.id := pick], sw.listed[f.id := EntryOf(f.op)];
    var after :=
      if f.op.complete then SwarmRefs(U16(sw.complete + 1), sw.incomplete, peers, listed)
      else SwarmRefs(sw.complete, U16(sw.incomplete + 1), peers, listed);
    Store(s.hashmap[f.op.hash := after],
          if pick in s.objects then s.objects else s.objects[pick := ZERO_PEER],
          s.pool - multiset{pick},
          s.owner[pick := f.Place()])
  }

  // The totals; for a known peer, `was` is what its object still holds.

  function Lowered(t: Meters, f: Flight, was: Entry): Meters
    requires f.op.Save?
  {
    if was.complete == f.op.complete then t else Uncounted(t, f.Place(), was)
  }

  function AfterMeter(f: Flight, was: Entry): Pc
    requires f.op.Save?
  {
    if was.complete == f.op.complete then Ip else Meter2
  }

  function Raised(t: Meters, f: Flight): Meters
    requires f.op.Save?
  {
    if f.op.complete then t.(seeds := I64(t.seeds + 1), counted := t.counted[f.Place() := EntryOf(f.op)])
    else t.(leeches := I64(t.leeches + 1), counted := t.counted[f.Place() := EntryOf(f.op)])
  }

  function Written(s: Store, f: Flight): Store
    requires f.op.Save?
  {
    s.(objects := s.objects[f.ref := EntryOf(f.op)])
  }

  function DropEffect(s: Store, t: Meters, f: Flight): Effect
    requires f.op.Drop?
  {
    match f.pc
    case Look =>
      if f.op.hash in s.hashmap then Effect(s, t, Some(f.(pc := Take)), None) else Effect(s, t, None, Some(f.op))
    case Take =>
      if f.op.hash in s.hashmap && f.id in s.hashmap[f.op.hash].peers then TakeEffect(s, t, f)
      else Effect(s, t, None, Some(f.op))
    case _ => HandEffect(s, t, f)
  }

  /** Part of a trim: the inner loop over one swarm, and the removal of the swarm in a
      lock section of its own when the loop has left it empty. */
  function SweepEffect(s: Store, t: Meters, f: Flight): Effect
    requires f.op.Sweep?
  {
    match f.pc
    case Look => Effect(s, t, Some(f.(pc := Scan)), None)
    case Scan =>
      if f.op.hash in s.hashmap && s.hashmap[f.op.hash].peers == map[] then Effect(s, t, Some(f.(pc := Vanish)), None)
      else Effect(s, t, None, Some(f.op))
    case Vanish => Effect(Vanished(s, f.op.hash), t, None, Some(f.op))
    case _ => HandEffect(s, t, f)
  }

  // The removal of a peer, by a drop or by a visit of a trim.

  function TakeEffect(s: Store, t: Meters, f: Flight): Effect {
    if f.op.hash in s.hashmap && f.id in s.hashmap[f.op.hash].peers then
      Effect(Taken(s, f.op.hash, f.id), t, Some(f.(pc := Meter, ref := s.hashmap[f.op.hash].peers[f.id])), None)
    else Effect(s, t, Some(f), None)
  }

  function HandEffect(s: Store, t: Meters, f: Flight): Effect {
    match f.pc
    case Meter => Effect(s, Uncounted(t, f.Place(), Deref(s, f.ref)), Some(f.(pc := Ip)), None)
    case Ip =>
      Effect(s, t.(ips := Remove(t.ips, Deref(s, f.ref).ip)), Some(f.(pc := Free)), Some(Op.Drop(f.op.hash, f.id)))
    case Free => Effect(Freed(s, f.ref), t, if f.op.Sweep? then Some(f.(pc := Scan)) else None, None)
    case _ => Effect(s, t, Some(f), None)
  }

  function Taken(s: Store, h: Hash, id: PeerID): Store
    requires h in s.hashmap && id in s.hashmap[h].peers
  {
    var sw := s.hashmap[h];
    var after := if Deref(s, sw.peers[id]).complete
                 then SwarmRefs(U16(sw.complete - 1), sw.incomplete, sw.peers - {id}, sw.listed - {id})
                 else SwarmRefs(sw.complete, U16(sw.incomplete - 1), sw.peers - {id}, sw.listed - {id});
    s.(hashmap := s.hashmap[h := after])
  }

  function Uncounted(t: Meters, k: Key, was: Entry): Meters {
    if was.complete then t.(seeds := I64(t.seeds - 1), counted := t.counted - {k})
    else t.(leeches := I64(t.leeches - 1), counted := t.counted - {k})
  }

  function Freed(s: Store, r: Ref): Store {
    s.(pool := s.pool + multiset{r}, owner := s.owner - {r})
  }

  function Vanished(s: Store, h: Hash): Store {
    s.(hashmap := s.hashmap - {h})
  }
}
