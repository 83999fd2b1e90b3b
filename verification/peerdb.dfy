/** The peer database as a value: what one atomic Save, Drop or trim does to the
    swarms, to their counters and to the global metrics. */
module PeerDb {
  import opened Bytes
  import opened Storage

  datatype Swarm = Swarm(complete: uint16, incomplete: uint16, peers: map<PeerID, Entry>)

  datatype Db = Db(swarms: map<Hash, Swarm>, seeds: int64, leeches: int64, ips: map<Addr, int16>)

  const EMPTY_SWARM := Swarm(0, 0, map[])

  // ---------- Reference counts per IP ----------

  /** A Go map read: a missing address reads as 0. */
  function IpCount(ips: map<Addr, int16>, ip: Addr): int16 {
    if ip in ips then ips[ip] else 0
  }

  function Inc(ips: map<Addr, int16>, ip: Addr): map<Addr, int16> {
    ips[ip := I16(IpCount(ips, ip) + 1)]
  }

  function Remove(ips: map<Addr, int16>, ip: Addr): map<Addr, int16> {
    var n := I16(IpCount(ips, ip) - 1);
    if n == 0 then ips - {ip} else ips[ip := n]
  }

  // ---------- Operations ----------

  /** A slot for one peer. */
  type Key = (Hash, PeerID)

  function Keys(db: Db): (keys: set<Key>)
    ensures forall k :: k in keys <==> Has(db, k.0, k.1)
  {
    set h, i | h in db.swarms && i in db.swarms[h].peers :: (h, i)
  }

  function Flat(db: Db): map<Key, Entry> {
    map k | k in Keys(db) :: db.swarms[k.0].peers[k.1]
  }

  datatype Op =
    | Save(ip: Addr, port: uint16, complete: bool, hash: Hash, id: PeerID, now: int64)
    | Drop(hash: Hash, id: PeerID)
    | Trim(clock: int64, expiry: int64, order: seq<Key>)
    | Sweep(hash: Hash, clock: int64, expiry: int64, order: seq<Key>)  // what a trim does to one swarm

  function One(b: bool): nat {
    if b then 1 else 0
  }

  /** Whether the slot held a peer with this completion state. */
  predicate Was(prev: Option<Entry>, complete: bool) {
    prev.Some? && prev.value.complete == complete
  }

  function Slot(sw: Swarm, id: PeerID): Option<Entry> {
    if id in sw.peers then Some(sw.peers[id]) else None
  }

  /** The swarm after a save of peer `id`. */
  function SwarmSave(sw: Swarm, id: PeerID, e: Entry): Swarm {
    var prev := Slot(sw, id);
    Swarm(U16(sw.complete + One(e.complete) - One(Was(prev, true))),
          U16(sw.incomplete + One(!e.complete) - One(Was(prev, false))),
          sw.peers[id := e])
  }

  function MovedIp(ips: map<Addr, int16>, prev: Option<Entry>, ip: Addr): map<Addr, int16> {
    if prev.None? then Inc(ips, ip)
    else if prev.value.ip != ip then Inc(Remove(ips, prev.value.ip), ip)
    else ips
  }

  function SwarmDrop(sw: Swarm, id: PeerID): Swarm
    requires id in sw.peers
  {
    if sw.peers[id].complete then Swarm(U16(sw.complete - 1), sw.incomplete, sw.peers - {id})
    else Swarm(sw.complete, U16(sw.incomplete - 1), sw.peers - {id})
  }

  function Put(db: Db, hash: Hash, sw: Swarm): Db {
    db.(swarms := db.swarms[hash := sw])
  }

  function SwarmOf(db: Db, hash: Hash): Swarm {
    if hash in db.swarms then db.swarms[hash] else EMPTY_SWARM
  }

  function ApplySave(db: Db, hash: Hash, id: PeerID, e: Entry): Db {
    var sw := SwarmOf(db, hash);
    var prev := Slot(sw, id);
    Db(db.swarms[hash := SwarmSave(sw, id, e)],
       I64(db.seeds + One(e.complete) - One(Was(prev, true))),
       I64(db.leeches + One(!e.complete) - One(Was(prev, false))),
       MovedIp(db.ips, prev, e.ip))
  }

  predicate Has(db: Db, hash: Hash, id: PeerID) {
    hash in db.swarms && id in db.swarms[hash].peers
  }

  function MeteredOut(db: Db, e: Entry): Db {
    Db(db.swarms,
       if e.complete then I64(db.seeds - 1) else db.seeds,
       if e.complete then db.leeches else I64(db.leeches - 1),
       Remove(db.ips, e.ip))
  }

  function ApplyDrop(db: Db, hash: Hash, id: PeerID): Db {
    if Has(db, hash, id) then
      MeteredOut(Put(db, hash, SwarmDrop(db.swarms[hash], id)), db.swarms[hash].peers[id])
    else db
  }

  /** Drops in the order in which the sweep meets the peers. */
  function DropAll(db: Db, order: seq<Key>): Db {
    if order == [] then db
    else
      var k := order[|order| - 1];
      ApplyDrop(DropAll(db, order[..|order| - 1]), k.0, k.1)
  }

  function Without(db: Db, gone: set<Hash>): Db {
    db.(swarms := db.swarms - gone)
  }

  function EmptySwarms(db: Db): set<Hash> {
    set h | h in db.swarms && db.swarms[h].peers == map[]
  }

  predicate Expired(e: Entry, clock: int64, expiry: int64) {
    I64(clock - e.lastSeen) > expiry
  }

  function ExpiredKeys(db: Db, clock: int64, expiry: int64): set<Key> {
    set k | k in Flat(db) && Expired(Flat(db)[k], clock, expiry)
  }

  function ApplyTrim(db: Db, order: seq<Key>): Db {
    var swept := DropAll(db, order);
    Without(swept, EmptySwarms(swept))
  }

  /** `order` lists the elements of `keys`, each once. */
  ghost predicate Enumerates<T(!new)>(order: seq<T>, keys: set<T>) {
    && (forall k :: k in order <==> k in keys)
    && forall i, j | 0 <= i < j < |order| :: order[i] != order[j]
  }

  function Elems<T>(order: seq<T>): set<T> {
    set x | x in order
  }

  lemma ElemsOfSnoc<T>(order: seq<T>)
    requires order != []
    ensures Elems(order) == Elems(order[..|order| - 1]) + {order[|order| - 1]}
  {
    assert order == order[..|order| - 1] + [order[|order| - 1]];
  }

  function ExpiredAt(db: Db, hash: Hash, clock: int64, expiry: int64): set<Key> {
    set k | k in ExpiredKeys(db, clock, expiry) && k.0 == hash
  }

  /** The swarm goes if no peer is left in it. */
  function ApplySweep(db: Db, hash: Hash, order: seq<Key>): Db {
    var swept := DropAll(db, order);
    if hash in EmptySwarms(swept) then Without(swept, {hash}) else swept
  }

  /** A trim may meet the expired peers in any order, but exactly those. */
  ghost predicate Legal(db: Db, op: Op) {
    match op
    case Trim(clock, expiry, order) => Enumerates(order, ExpiredKeys(db, clock, expiry))
    case Sweep(hash, clock, expiry, order) => Enumerates(order, ExpiredAt(db, hash, clock, expiry))
    case _ => true
  }

  function Apply(db: Db, op: Op): Db {
    match op
    case Save(ip, port, complete, hash, id, now) => ApplySave(db, hash, id, Entry(complete, ip, port, now))
    case Drop(hash, id) => ApplyDrop(db, hash, id)
    case Trim(_, _, order) => ApplyTrim(db, order)
    case Sweep(hash, _, _, order) => ApplySweep(db, hash, order)
  }

  function HashStats(db: Db, hash: Hash): (uint16, uint16) {
    if hash in db.swarms then (db.swarms[hash].complete, db.swarms[hash].incomplete) else (0, 0)
  }

  // ---------- A save in stages ----------

  /** Creating the swarm first makes no difference to a save. */
  lemma SaveIntoNewSwarm(db: Db, hash: Hash, id: PeerID, e: Entry)
    requires hash !in db.swarms
    ensures ApplySave(Put(db, hash, EMPTY_SWARM), hash, id, e) == ApplySave(db, hash, id, e)
  {
    assert db.swarms[hash := EMPTY_SWARM][hash := SwarmSave(EMPTY_SWARM, id, e)]
        == db.swarms[hash := SwarmSave(EMPTY_SWARM, id, e)];
  }

  // A save in stages: slot and counters (with whatever a recycled peer still holds),
  // metrics, then the peer's own fields.

  function Enlisted(sw: Swarm, id: PeerID, stale: Entry, complete: bool): Swarm {
    var prev := Slot(sw, id);
    Swarm(U16(sw.complete + One(complete) - One(Was(prev, true))),
          U16(sw.incomplete + One(!complete) - One(Was(prev, false))),
          sw.peers[id := stale])
  }

  function Metered(db: Db, prev: Option<Entry>, complete: bool, ip: Addr): Db {
    Db(db.swarms,
       I64(db.seeds + One(complete) - One(Was(prev, true))),
       I64(db.leeches + One(!complete) - One(Was(prev, false))),
       MovedIp(db.ips, prev, ip))
  }

  function Renewed(sw: Swarm, id: PeerID, e: Entry): Swarm {
    sw.(peers := sw.peers[id := e])
  }

  /** The stages compose to a save, whatever the recycled peer held. */
  lemma SaveInStages(db: Db, hash: Hash, id: PeerID, stale: Entry, e: Entry)
    requires hash in db.swarms
    ensures var sw := db.swarms[hash];
            var enlisted := Enlisted(sw, id, stale, e.complete);
            var metered := Metered(Put(db, hash, enlisted), Slot(sw, id), e.complete, e.ip);
            Put(metered, hash, Renewed(enlisted, id, e)) == ApplySave(db, hash, id, e)
  {
    var sw := db.swarms[hash];
    var enlisted := Enlisted(sw, id, stale, e.complete);
    assert sw.peers[id := stale][id := e] == sw.peers[id := e];
    assert Renewed(enlisted, id, e) == SwarmSave(sw, id, e);
    assert db.swarms[hash := enlisted][hash := SwarmSave(sw, id, e)] == db.swarms[hash := SwarmSave(sw, id, e)];
  }
}
