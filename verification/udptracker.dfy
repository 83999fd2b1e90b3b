/** The UDP tracker: which datagrams reach the peer database, what they do there, and
    what is sent back. */
module UdpTracker {
  import opened Bytes
  import opened Storage
  import opened PeerDb
  import opened FlatMap
  import opened Agreement
  import opened Codec
  import opened GoMap
  import opened ConnDb
  import opened PeerLists
  import opened Wire

  /** Numwant.Limit also sets the capacity of the pooled peer lists. */
  datatype Config = Config(validate: bool, numwantDefault: uint64, numwantLimit: uint64)

  const MAX_HASHES: nat := 74

  /** A datagram with the clocks and the random numbers that it meets. */
  datatype Input = Input(data: seq<Byte>, remote: Addr, port: uint16, seconds: int64, now: int64, id: int64,
                         interval: int32)

  /** The server drops datagrams of less than 16 bytes. */
  predicate Served(d: Input) {
    |d.data| >= 16
  }

  /** netip.Addr.Unmap: an IPv4 address that is mapped into IPv6 becomes an IPv4 one. */
  function Unmap(a: Addr): Addr {
    if a.V6? && a.b6[..12] == seq(10, _ => 0) + [0xFF, 0xFF] then V4(a.b6[12..]) else a
  }

  function From(d: Input): AddrPort {
    AddrPort(Unmap(d.remote), d.port)
  }

  function ActionOf(d: Input): Byte
    requires Served(d)
  {
    d.data[11]
  }

  function TransactionOf(d: Input): int32
    requires Served(d)
  {
    I32(FromBigEndian(d.data[12..16]))
  }

  function ConnectionOf(d: Input): int64
    requires Served(d)
  {
    I64(FromBigEndian(d.data[0..8]))
  }

  // ---------- What becomes of a datagram ----------

  datatype Outcome =
    | BadAction
    | Alive
    | Connected
    | BadConnection
    | BadSize
    | BadPort
    | Left(hash: Hash, id: PeerID)
    | Joined(hash: Hash, id: PeerID, entry: Entry, numWant: int32)
    | TooMany
    | Scraped(hashes: seq<Hash>)
    | Ignored

  /** The table holds this id for this address. */
  predicate Known(conns: Table, addr: AddrPort, id: int64) {
    addr in conns && conns[addr].id == id
  }

  function Clamped(config: Config, numWant: int32): (r: int32)
    ensures var limit, default := I32(config.numwantLimit), I32(config.numwantDefault);
            && (1 <= numWant <= limit ==> r == numWant)
            && (r <= limit <==> numWant >= 1 || default <= limit)
            && (r >= 1 <==> if numWant < 1 then default >= 1 else limit >= 1)
  {
    if numWant < 1 then I32(config.numwantDefault)
    else if numWant > I32(config.numwantLimit) then I32(config.numwantLimit)
    else numWant
  }

  function AnnounceOutcome(config: Config, a: AnnounceFields, addr: Addr, now: int64): Outcome {
    if a.client.port == 0 then BadPort
    else if a.client.event == STOPPED then Left(a.infoHash, a.peerID)
    else Joined(a.infoHash, a.peerID, EntryOf(a, addr, now), Clamped(config, a.client.numWant))
  }

  function EntryOf(a: AnnounceFields, addr: Addr, now: int64): Entry {
    Entry(a.client.event == COMPLETED || a.transfer.left == 0, addr, a.client.port, now)
  }

  /** Scrape.Unmarshall: as many whole hashes as there are. */
  function Infohashes(data: seq<Byte>): seq<Hash>
    requires |data| >= 16
  {
    seq((|data| - 16) / 20, k requires 0 <= k < (|data| - 16) / 20 => Hash(data[16 + 20 * k..36 + 20 * k]))
  }

  function HashBytes(h: Hash): seq<Byte> {
    h.bytes
  }

  lemma {:induction false} HashesSize(hashes: seq<Hash>)
    ensures |WriteMany(HashBytes, hashes)| == 20 * |hashes|
  {
    if hashes != [] {
      HashesSize(hashes[1..]);
    }
  }

  lemma {:induction false} HashAt(hashes: seq<Hash>, k: nat)
    requires k < |hashes|
    ensures 20 * k + 20 <= |WriteMany(HashBytes, hashes)|
    ensures WriteMany(HashBytes, hashes)[20 * k..20 * k + 20] == hashes[k].bytes
  {
    var bytes, rest := WriteMany(HashBytes, hashes), WriteMany(HashBytes, hashes[1..]);
    assert bytes == hashes[0].bytes + rest;
    if k > 0 {
      HashAt(hashes[1..], k - 1);
      assert bytes[20 * k..20 * k + 20] == rest[20 * (k - 1)..20 * (k - 1) + 20];
    }
  }

  /** A scrape request reads back as its hashes; a broken one at the end is ignored. */
  lemma InfohashesOfRequest(h: Head, hashes: seq<Hash>, tail: seq<Byte>)
    requires |tail| < 20
    ensures Infohashes(PutHead(h) + WriteMany(HashBytes, hashes) + tail) == hashes
  {
    var head, bytes := PutHead(h), WriteMany(HashBytes, hashes);
    var data := head + bytes + tail;
    HashesSize(hashes);
    forall k | 0 <= k < |hashes| ensures data[16 + 20 * k..36 + 20 * k] == hashes[k].bytes {
      HashAt(hashes, k);
      assert data[16 + 20 * k..36 + 20 * k] == bytes[20 * k..20 * k + 20];
    }
  }

  function OutcomeOf(config: Config, conns: Table, d: Input): Outcome
    requires Served(d)
  {
    var action := ActionOf(d);
    if action > HEARTBEAT then BadAction
    else if action == HEARTBEAT then Alive
    else if action == CONNECT then Connected
    else if config.validate && !Known(conns, From(d), ConnectionOf(d)) then BadConnection
    else Dispatched(config, d)
  }

  /** A request that has passed the connection check. */
  function Dispatched(config: Config, d: Input): Outcome
    requires Served(d)
  {
    if ActionOf(d) == ANNOUNCE then
      if |d.data| < 98 then BadSize else AnnounceOutcome(config, TakeAnnounce(d.data).value, From(d).addr, d.now)
    else if ActionOf(d) == SCRAPE then
      if |Infohashes(d.data)| > MAX_HASHES then TooMany else Scraped(Infohashes(d.data))
    else Ignored
  }

  /** The peer database is read or changed. */
  predicate Reached(o: Outcome) {
    o.Left? || o.Joined? || o.Scraped?
  }

  function ConnsAfter(conns: Table, d: Input, o: Outcome): Table {
    if o.Connected? then conns[From(d) := ConnectionInfo(d.id, d.seconds)] else conns
  }

  function DbAfter(db: Db, o: Outcome): Db {
    match o
    case Left(hash, id) => ApplyDrop(db, hash, id)
    case Joined(hash, id, entry, _) => ApplySave(db, hash, id, entry)
    case _ => db
  }

  // ---------- Replies ----------

  function Failure(d: Input, msg: string): seq<Byte>
    requires Served(d)
  {
    PutError(ErrorReply(ERROR, TransactionOf(d), Ascii(msg)))
  }

  function InfoOf(db: Db, hash: Hash): ScrapeInfo {
    var (complete, incomplete) := PeerDb.HashStats(db, hash);
    ScrapeInfo(complete, incomplete, -1)
  }

  function Infos(db: Db, hashes: seq<Hash>): seq<ScrapeInfo> {
    seq(|hashes|, i requires 0 <= i < |hashes| => InfoOf(db, hashes[i]))
  }

  /** The reply; `db` is the database after the request, `peers` the compact list. */
  function ReplyTo(d: Input, o: Outcome, db: Db, peers: seq<Byte>): Option<seq<Byte>>
    requires Served(d)
  {
    var txid := TransactionOf(d);
    match o
    case BadAction => Some(Failure(d, "bad action"))
    case Alive => Some([0xFF])
    case Connected => Some(PutConnectReply(ConnectReply(CONNECT, txid, d.id)))
    case BadConnection => Some(Failure(d, "bad connection id"))
    case BadSize => Some(Failure(d, "bad announce size"))
    case BadPort => Some(Failure(d, "bad port"))
    case Left(_, _) => Some(PutAnnounceReply(AnnounceReply(ANNOUNCE, txid, -1, -1, -1, [])))
    case Joined(hash, _, _, _) =>
      var (complete, incomplete) := PeerDb.HashStats(db, hash);
      Some(PutAnnounceReply(AnnounceReply(ANNOUNCE, txid, d.interval, incomplete, complete, peers)))
    case TooMany => Some(Failure(d, "74 hashes max"))
    case Scraped(hashes) => Some(PutScrapeReply(ScrapeReply(SCRAPE, txid, Infos(db, hashes))))
    case Ignored => None
  }

  lemma FailureEcho(d: Input, msg: string)
    requires Served(d)
    ensures |Failure(d, msg)| >= 8 && Echo(Failure(d, msg)) == Put32(TransactionOf(d))
  {
    ErrorEcho(ErrorReply(ERROR, TransactionOf(d), Ascii(msg)));
  }

  /** Every reply to a connect or an announce, and every error, carries the bytes 12..16
      of the request as its bytes 4..8; a scrape reply does so only for a zero id. */
  lemma ReplyEchoes(d: Input, o: Outcome, db: Db, peers: seq<Byte>)
    requires Served(d) && !o.Alive? && !o.Ignored?
    ensures var r := ReplyTo(d, o, db, peers);
            && r.Some? && |r.value| >= 8
            && (Echo(r.value) == d.data[12..16] <==> !o.Scraped? || TransactionOf(d) == 0)
  {
    var txid := TransactionOf(d);
    Onto32(d.data[12..16]);
    match o
    case Scraped(hashes) => ScrapeReplyEcho(ScrapeReply(SCRAPE, txid, Infos(db, hashes)));
    case Connected => ConnectReplyEcho(ConnectReply(CONNECT, txid, d.id));
    case Left(_, _) => AnnounceReplyEcho(AnnounceReply(ANNOUNCE, txid, -1, -1, -1, []));
    case Joined(hash, _, _, _) =>
      var (complete, incomplete) := PeerDb.HashStats(db, hash);
      AnnounceReplyEcho(AnnounceReply(ANNOUNCE, txid, d.interval, incomplete, complete, peers));
    case BadAction => FailureEcho(d, "bad action");
    case BadConnection => FailureEcho(d, "bad connection id");
    case BadSize => FailureEcho(d, "bad announce size");
    case BadPort => FailureEcho(d, "bad port");
    case TooMany => FailureEcho(d, "74 hashes max");
  }

  // ---------- Runs ----------

  /** What happens to the two databases: a datagram, a trim of the connections at a time
      in seconds, the loading of a saved connection table, or a trim of the peers. */
  datatype Event =
    | Datagram(d: Input)
    | TrimAt(epoch: int64)
    | Restored(table: Table)
    | PeersTrimmed(clock: int64, peerExpiry: int64, order: seq<Key>)

  predicate Possible(e: Event) {
    e.Datagram? ==> Served(e.d)
  }

  datatype State = State(conns: Table, db: Db)

  function After(config: Config, expiry: int64, s: State, e: Event): State
    requires Possible(e)
  {
    match e
    case Datagram(d) =>
      var o := OutcomeOf(config, s.conns, d);
      State(ConnsAfter(s.conns, d, o), DbAfter(s.db, o))
    case TrimAt(epoch) => s.(conns := Trimmed(s.conns, epoch, expiry))
    case Restored(table) => s.(conns := table)
    case PeersTrimmed(_, _, order) => s.(db := ApplyTrim(s.db, order))
  }

  ghost predicate AllPossible(events: seq<Event>) {
    forall i | 0 <= i < |events| :: Possible(events[i])
  }

  function Run(config: Config, expiry: int64, s: State, events: seq<Event>): State
    requires forall i | 0 <= i < |events| :: Possible(events[i])
  {
    if events == [] then s
    else
      var n := |events| - 1;
      After(config, expiry, Run(config, expiry, s, events[..n]), events[n])
  }

  // ---------- Connection safety ----------

  /** The event issues this entry to the address: a connect, or a loaded table. */
  predicate Issues(e: Event, addr: AddrPort, info: ConnectionInfo)
    requires Possible(e)
  {
    match e
    case Datagram(d) => ActionOf(d) == CONNECT && From(d) == addr && info == ConnectionInfo(d.id, d.seconds)
    case Restored(table) => addr in table && table[addr] == info
    case _ => false
  }

  /** The event ends an entry of the address: a new connect from it, a loaded table, or a
      trim that finds the entry more than `expiry` seconds old. */
  predicate Ends(e: Event, addr: AddrPort, info: ConnectionInfo, expiry: int64)
    requires Possible(e)
  {
    match e
    case Datagram(d) => ActionOf(d) == CONNECT && From(d) == addr
    case Restored(_) => true
    case TrimAt(epoch) => Stale(info, epoch, expiry)
    case PeersTrimmed(_, _, _) => false
  }

  /** The i-th event issued this entry, and nothing since has ended it. */
  ghost predicate Granted(events: seq<Event>, i: nat, addr: AddrPort, info: ConnectionInfo, expiry: int64)
    requires AllPossible(events)
  {
    i < |events| && Issues(events[i], addr, info) && forall j | i < j < |events| :: !Ends(events[j], addr, info, expiry)
  }

  lemma ConnectAction(config: Config, conns: Table, d: Input)
    requires Served(d)
    ensures OutcomeOf(config, conns, d).Connected? <==> ActionOf(d) == CONNECT
  {
  }

  lemma StepEntry(config: Config, expiry: int64, s: State, e: Event, addr: AddrPort, info: ConnectionInfo)
    requires Possible(e)
    ensures var after := After(config, expiry, s, e).conns;
            addr in after && after[addr] == info <==>
              Issues(e, addr, info) || (addr in s.conns && s.conns[addr] == info && !Ends(e, addr, info, expiry))
  {
    if e.Datagram? {
      ConnectAction(config, s.conns, e.d);
    }
  }

  lemma GrantedNext(events: seq<Event>, e: Event, addr: AddrPort, info: ConnectionInfo, expiry: int64)
    requires AllPossible(events) && Possible(e)
    ensures (exists i :: Granted(events + [e], i, addr, info, expiry)) <==>
            Issues(e, addr, info) ||
                (!Ends(e, addr, info, expiry) && exists i :: Granted(events, i, addr, info, expiry))
  {
    var all, n := events + [e], |events|;
    if Issues(e, addr, info) {
      assert Granted(all, n, addr, info, expiry);
    }
    forall i: nat | i < n
      ensures Granted(all, i, addr, info, expiry) <==>
          Granted(events, i, addr, info, expiry) && !Ends(e, addr, info, expiry)
    {
      assert all[n] == e;
      assert forall j | 0 <= j < n :: all[j] == events[j];
    }
  }

  /** The table holds exactly the entries that were issued and that nothing has ended. */
  lemma {:induction false} TableIsGranted(config: Config, expiry: int64, db: Db, events: seq<Event>,
                                          addr: AddrPort, info: ConnectionInfo)
    requires AllPossible(events)
    ensures var conns := Run(config, expiry, State(map[], db), events).conns;
            addr in conns && conns[addr] == info <==> exists i :: Granted(events, i, addr, info, expiry)
  {
    if events != [] {
      var n := |events| - 1;
      var s := Run(config, expiry, State(map[], db), events[..n]);
      TableIsGranted(config, expiry, db, events[..n], addr, info);
      StepEntry(config, expiry, s, events[n], addr, info);
      GrantedNext(events[..n], events[n], addr, info, expiry);
      assert events == events[..n] + [events[n]];
    }
  }

  /** An announce or a scrape that is in itself in order. */
  predicate InOrder(d: Input)
    requires Served(d)
  {
    || (ActionOf(d) == ANNOUNCE && |d.data| >= 98 && TakeAnnounce(d.data).value.client.port != 0)
    || (ActionOf(d) == SCRAPE && (|d.data| - 16) / 20 <= MAX_HASHES)
  }

  /** Connection safety over whole runs: with validation on, a datagram reaches the peer
      database if and only if it is in order and its connection id was issued to its
      address, with no later connect from there, no later loaded table, and no later trim
      more than `expiry` seconds after the id's time stamp. */
  lemma ConnectionSafety(config: Config, expiry: int64, db: Db, events: seq<Event>, d: Input)
    requires config.validate && AllPossible(events) && Served(d)
    ensures Reached(OutcomeOf(config, Run(config, expiry, State(map[], db), events).conns, d)) <==>
            InOrder(d) && exists i, timeStamp ::
              Granted(events, i, From(d), ConnectionInfo(ConnectionOf(d), timeStamp), expiry)
  {
    var conns := Run(config, expiry, State(map[], db), events).conns;
    var addr, id := From(d), ConnectionOf(d);
    if Known(conns, addr, id) {
      TableIsGranted(config, expiry, db, events, addr, conns[addr]);
      var i :| Granted(events, i, addr, conns[addr], expiry);
      assert Granted(events, i, addr, ConnectionInfo(id, conns[addr].timeStamp), expiry);
    }
    forall i, timeStamp | Granted(events, i, addr, ConnectionInfo(id, timeStamp), expiry)
      ensures Known(conns, addr, id)
    {
      TableIsGranted(config, expiry, db, events, addr, ConnectionInfo(id, timeStamp));
    }
    assert Reached(OutcomeOf(config, conns, d)) <==> InOrder(d) && Known(conns, addr, id);
  }

  /** With validation on, a datagram changes the peer database only if it is in order and
      its connection id is still granted; whatever else arrives leaves it as it is. */
  lemma OthersChangeNothing(config: Config, expiry: int64, db: Db, events: seq<Event>, d: Input)
    requires config.validate && AllPossible(events) && Served(d)
    ensures var s := Run(config, expiry, State(map[], db), events);
            After(config, expiry, s, Datagram(d)).db != s.db ==>
              InOrder(d) && exists i, timeStamp ::
                Granted(events, i, From(d), ConnectionInfo(ConnectionOf(d), timeStamp), expiry)
  {
    ConnectionSafety(config, expiry, db, events, d);
  }

  /** Each trim of the peers meets exactly those that are expired when it comes. */
  ghost predicate LegalTrims(config: Config, expiry: int64, s: State, events: seq<Event>)
    requires AllPossible(events)
  {
    forall i | 0 <= i < |events| ::
      LegalEvent(Run(config, expiry, s, events[..i]).db, events[i])
  }

  ghost predicate LegalEvent(db: Db, e: Event) {
    e.PeersTrimmed? ==> Enumerates(e.order, ExpiredKeys(db, e.clock, e.peerExpiry))
  }

  /** What the events of a run do to the peer database, as its own operations. */
  function Ops(config: Config, expiry: int64, s: State, events: seq<Event>): seq<Op>
    requires forall i | 0 <= i < |events| :: Possible(events[i])
  {
    if events == [] then []
    else
      var n := |events| - 1;
      Ops(config, expiry, s, events[..n]) + OpsOf(config, Run(config, expiry, s, events[..n]).conns, events[n])
  }

  function OpsOf(config: Config, conns: Table, e: Event): seq<Op>
    requires Possible(e)
  {
    match e
    case PeersTrimmed(clock, peerExpiry, order) => [Op.Trim(clock, peerExpiry, order)]
    case Datagram(d) =>
      (match OutcomeOf(config, conns, d)
       case Left(hash, id) => [Op.Drop(hash, id)]
       case Joined(hash, id, e, _) => [Op.Save(e.ip, e.port, e.complete, hash, id, e.lastSeen)]
       case _ => [])
    case _ => []
  }

  lemma {:induction false} RunIsOps(config: Config, expiry: int64, s: State, events: seq<Event>)
    requires AllPossible(events) && LegalTrims(config, expiry, s, events)
    ensures LegalRun(s.db, Ops(config, expiry, s, events))
    ensures Run(config, expiry, s, events).db == Agreement.Run(s.db, Ops(config, expiry, s, events))
  {
    if events != [] {
      var n := |events| - 1;
      assert LegalTrims(config, expiry, s, events[..n]) by {
        assert forall i | 0 <= i < n :: events[..n][..i] == events[..i];
      }
      RunIsOps(config, expiry, s, events[..n]);
      var before := Run(config, expiry, s, events[..n]);
      assert LegalEvent(before.db, events[n]);
      StepIsOps(config, expiry, before, events[n]);
      RunMore(s.db, Ops(config, expiry, s, events[..n]), OpsOf(config, before.conns, events[n]));
    }
  }

  /** A run of the tracker, with the trims of the peers between its datagrams, is a run
      of the peer database, so all that holds of those holds here: the counts agree with
      the peers, and the peers are those of the flat map. */
  lemma RunsThePeerDatabase(config: Config, expiry: int64, s: State, events: seq<Event>)
    requires Agrees(s.db) && AllPossible(events) && LegalTrims(config, expiry, s, events)
    ensures var ops, after := Ops(config, expiry, s, events), Run(config, expiry, s, events).db;
            LegalRun(s.db, ops) && Agrees(after) && Abs(after) == SimpleRun(Abs(s.db), ops)
  {
    RunIsOps(config, expiry, s, events);
    RunRefines(s.db, Ops(config, expiry, s, events));
  }

  lemma StepIsOps(config: Config, expiry: int64, s: State, e: Event)
    requires Possible(e) && LegalEvent(s.db, e)
    ensures var ops := OpsOf(config, s.conns, e);
            && |ops| <= 1 && (forall op | op in ops :: Legal(s.db, op))
            && After(config, expiry, s, e).db == if ops == [] then s.db else Apply(s.db, ops[0])
  {
  }

  lemma RunMore(db: Db, ops: seq<Op>, more: seq<Op>)
    requires LegalRun(db, ops) && |more| <= 1 && forall op | op in more :: Legal(Agreement.Run(db, ops), op)
    ensures LegalRun(db, ops + more)
    ensures Agreement.Run(db, ops + more) ==
            if more == [] then Agreement.Run(db, ops) else Apply(Agreement.Run(db, ops), more[0])
  {
    if more == [] {
      assert ops + more == ops;
    } else {
      assert more == [more[0]] && more[0] in more;
      RunSnoc(db, ops, more[0]);
    }
  }

  // ---------- The tracker ----------

  lemma SavedIsThere(db: Db, hash: Hash, id: PeerID, e: Entry)
    ensures var after := ApplySave(db, hash, id, e);
            hash in after.swarms && id in after.swarms[hash].peers
  {
  }

  /** What a client can make of the list that it gets: the contacts of different peers of
      the swarm, of the family of its own address. */
  ghost predicate ListsContacts(peers: seq<Byte>, db: Db, hash: Hash, limit: nat, six: bool) {
    hash in db.swarms && exists ids ::
      Pass(db.swarms[hash].peers, ids, limit) && peers == Compact(Contacts(db.swarms[hash].peers, ids, six))
  }

  lemma HeadTransaction(d: Input)
    requires Served(d)
    ensures TransactionOf(d) == TakeHead(d.data).value.transactionID
    ensures |d.data| >= 98 ==> TakeAnnounce(d.data).value.head == TakeHead(d.data).value
  {
    assert d.data[8..][4..][..4] == d.data[12..16];
  }

  class UDPTracker {
    const config: Config
    const conndb: ConnectionDatabase
    const peerdb: Memory

    constructor (config: Config, conndb: ConnectionDatabase, peerdb: Memory)
      ensures this.config == config && this.conndb == conndb && this.peerdb == peerdb
    {
      this.config, this.conndb, this.peerdb := config, conndb, peerdb;
    }

    ghost predicate Valid()
      reads peerdb, peerdb.Repr
    {
      peerdb.Valid()
    }

    /** Two buffers from the pools. */
    ghost predicate Buffers(buf4: Slice, buf6: Slice)
      reads peerdb
    {
      && buf4.arr != buf6.arr && buf4.arr !in peerdb.Repr && buf6.arr !in peerdb.Repr
      && buf4.arr.Length == 6 * config.numwantLimit && buf6.arr.Length == 18 * config.numwantLimit
      && buf4.len <= buf4.arr.Length && buf6.len <= buf6.arr.Length
    }

    method Fail(d: Input, msg: string) returns (reply: Option<seq<Byte>>)
      requires Served(d)
      ensures reply == Some(Failure(d, msg))
    {
      var e := new Wire.Error(ErrorReply(ERROR, TransactionOf(d), Ascii(msg)));
      var bs := e.Marshall();
      reply := Some(bs);
    }

    method Process(d: Input, buf4: Slice, buf6: Slice)
      returns (reply: Option<seq<Byte>>, panicked: bool, ghost peers: seq<Byte>)
      requires Valid() && Served(d) && conndb !in peerdb.Repr && Buffers(buf4, buf6)
      modifies conndb, peerdb.Repr, buf4.arr, buf6.arr
      ensures Valid() && conndb !in peerdb.Repr
      ensures var o := OutcomeOf(config, old(conndb.connectionMap), d);
              && conndb.connectionMap == ConnsAfter(old(conndb.connectionMap), d, o)
              && Processed(d, o, old(peerdb.view), peerdb.view, old(Stale(d, buf4, buf6)), reply, panicked, peers)
    {
      panicked, peers := false, [];
      var action := ActionOf(d);
      var addrPort := AddrPort(Unmap(d.remote), d.port);
      if action > HEARTBEAT {
        reply := Fail(d, "bad action");
        return;
      }
      if action == HEARTBEAT {
        return Some([0xFF]), false, [];
      }
      if action == CONNECT {
        reply := DoConnect(d, addrPort);
        return;
      }
      reply, panicked, peers := CheckConnection(d, addrPort, buf4, buf6);
    }

    /** All but a connect need a connection id that is known, unless ids are not validated. */
    method CheckConnection(d: Input, addrPort: AddrPort, buf4: Slice, buf6: Slice)
      returns (reply: Option<seq<Byte>>, panicked: bool, ghost peers: seq<Byte>)
      requires Valid() && Served(d) && addrPort == From(d) && Buffers(buf4, buf6)
      requires ActionOf(d) != CONNECT && ActionOf(d) < HEARTBEAT
      modifies peerdb.Repr, buf4.arr, buf6.arr
      ensures Valid() && fresh(peerdb.Repr - old(peerdb.Repr))
      ensures var o := OutcomeOf(config, old(conndb.connectionMap), d);
              Processed(d, o, old(peerdb.view), peerdb.view, old(Stale(d, buf4, buf6)), reply, panicked, peers)
    {
      var ok := conndb.Check(ConnectionOf(d), addrPort);
      if !ok && config.validate {
        reply := Fail(d, "bad connection id");
        return reply, false, [];
      }
      reply, panicked, peers := Dispatch(d, addrPort, buf4, buf6);
    }

    /** The switch on the action, behind the connection check. */
    method Dispatch(d: Input, addrPort: AddrPort, buf4: Slice, buf6: Slice)
      returns (reply: Option<seq<Byte>>, panicked: bool, ghost peers: seq<Byte>)
      requires Valid() && Served(d) && addrPort == From(d) && Buffers(buf4, buf6)
      requires ActionOf(d) != CONNECT && ActionOf(d) < HEARTBEAT
      modifies peerdb.Repr, buf4.arr, buf6.arr
      ensures Valid() && fresh(peerdb.Repr - old(peerdb.Repr))
      ensures Processed(d, Dispatched(config, d), old(peerdb.view), peerdb.view, old(Stale(d, buf4, buf6)),
                        reply, panicked, peers)
    {
      panicked, peers := false, [];
      if ActionOf(d) == ANNOUNCE {
        if |d.data| < 98 {
          reply := Fail(d, "bad announce size");
          return;
        }
        reply, panicked, peers := DoAnnounce(d, addrPort, buf4, buf6);
      } else if ActionOf(d) == SCRAPE {
        reply := DoScrape(d);
      } else {
        reply := None;
      }
    }

    method DoConnect(d: Input, addrPort: AddrPort) returns (reply: Option<seq<Byte>>)
      requires Served(d)
      modifies conndb
      ensures conndb.connectionMap == old(conndb.connectionMap)[addrPort := ConnectionInfo(d.id, d.seconds)]
      ensures reply == Some(PutConnectReply(ConnectReply(CONNECT, TransactionOf(d), d.id)))
    {
      var connect := new Connect(Head(0, 0, 0));
      var ok := connect.Unmarshall(d.data);
      HeadTransaction(d);
      conndb.Add(d.id, addrPort, d.seconds);
      var resp := new ConnectResp(ConnectReply(CONNECT, connect.fields.transactionID, d.id));
      var bs := resp.Marshall();
      reply := Some(bs);
    }

    method DoScrape(d: Input) returns (reply: Option<seq<Byte>>)
      requires Valid() && Served(d) && ActionOf(d) == SCRAPE
      ensures reply == ReplyTo(d, Dispatched(config, d), peerdb.view, [])
    {
      var hashes := Infohashes(d.data);
      if |hashes| > MAX_HASHES {
        reply := Fail(d, "74 hashes max");
        return;
      }
      var info: seq<ScrapeInfo> := [];
      for i := 0 to |hashes|
        invariant info == Infos(peerdb.view, hashes[..i])
      {
        var complete, incomplete := peerdb.HashStats(hashes[i]);
        info := info + [ScrapeInfo(complete, incomplete, -1)];
      }
      assert hashes[..|hashes|] == hashes;
      reply := Some(PutScrapeReply(ScrapeReply(SCRAPE, TransactionOf(d), info)));
    }

    /** How a datagram ends: the new database, the reply, and the peers in it. A buffer
        without room for one peer is a slice out of range; `stale` is what the buffer for
        the client's family held, which is sent as it is when no peers are wanted. */
    ghost predicate Processed(d: Input, o: Outcome, before: Db, after: Db, stale: seq<Byte>,
                              reply: Option<seq<Byte>>, panicked: bool, peers: seq<Byte>)
      requires Served(d)
    {
      && after == DbAfter(before, o)
      && (panicked <==> o.Joined? && o.numWant != 0 && config.numwantLimit == 0)
      && (!panicked ==> reply == ReplyTo(d, o, after, peers))
      && (o.Joined? && o.numWant != 0 && !panicked ==>
            ListsContacts(peers, after, o.hash, config.numwantLimit, From(d).addr.Is6()))
      && (o.Joined? && o.numWant == 0 ==> peers == stale)
    }

    ghost function Stale(d: Input, buf4: Slice, buf6: Slice): seq<Byte>
      requires Buffers(buf4, buf6)
      reads peerdb, buf4.arr, buf6.arr
    {
      Held(From(d).addr.Is6(), buf4, buf6)
    }

    /** What the buffer of one family holds. */
    ghost function Held(six: bool, buf4: Slice, buf6: Slice): seq<Byte>
      requires Buffers(buf4, buf6)
      reads peerdb, buf4.arr, buf6.arr
    {
      if six then buf6.arr[..buf6.len] else buf4.arr[..buf4.len]
    }

    method DoAnnounce(d: Input, addrPort: AddrPort, buf4: Slice, buf6: Slice)
      returns (reply: Option<seq<Byte>>, panicked: bool, ghost peers: seq<Byte>)
      requires Valid() && |d.data| >= 98 && addrPort == From(d) && Buffers(buf4, buf6)
      modifies peerdb.Repr, buf4.arr, buf6.arr
      ensures Valid() && fresh(peerdb.Repr - old(peerdb.Repr))
      ensures var o := AnnounceOutcome(config, TakeAnnounce(d.data).value, From(d).addr, d.now);
              Processed(d, o, old(peerdb.view), peerdb.view, old(Stale(d, buf4, buf6)), reply, panicked, peers)
    {
      var announce := new Announce(AnnounceFields(
        Head(0, 0, 0), Hash(seq(20, _ => 0)), PeerID(seq(20, _ => 0)), Transfer(0, 0, 0), Client(0, 0, 0, 0, 0)));
      announce.Unmarshall(d.data);
      HeadTransaction(d);
      reply, panicked, peers := ServeAnnounce(d, announce, addrPort, buf4, buf6);
    }

    method ServeAnnounce(d: Input, announce: Announce, addrPort: AddrPort, buf4: Slice, buf6: Slice)
      returns (reply: Option<seq<Byte>>, panicked: bool, ghost peers: seq<Byte>)
      requires Valid() && Served(d) && addrPort == From(d) && Buffers(buf4, buf6)
      requires announce !in peerdb.Repr && announce.fields.head.transactionID == TransactionOf(d)
      modifies announce, peerdb.Repr, buf4.arr, buf6.arr
      ensures Valid() && fresh(peerdb.Repr - old(peerdb.Repr))
      ensures var o := AnnounceOutcome(config, old(announce.fields), From(d).addr, d.now);
              Processed(d, o, old(peerdb.view), peerdb.view, old(Stale(d, buf4, buf6)), reply, panicked, peers)
    {
      panicked, peers := false, [];
      if announce.fields.client.port == 0 {
        reply := Fail(d, "bad port");
        return;
      }
      ClampNumWant(announce);
      reply, panicked, peers := LeaveOrJoin(d, announce.fields, addrPort, buf4, buf6);
    }

    /** An announce with a port, its numwant clamped. */
    method LeaveOrJoin(d: Input, a: AnnounceFields, addrPort: AddrPort, buf4: Slice, buf6: Slice)
      returns (reply: Option<seq<Byte>>, panicked: bool, ghost peers: seq<Byte>)
      requires Valid() && Served(d) && addrPort == From(d) && Buffers(buf4, buf6)
      requires a.head.transactionID == TransactionOf(d)
      modifies peerdb.Repr, buf4.arr, buf6.arr
      ensures Valid() && fresh(peerdb.Repr - old(peerdb.Repr))
      ensures a.client.event == STOPPED ==>
                Processed(d, Left(a.infoHash, a.peerID), old(peerdb.view), peerdb.view, old(Stale(d, buf4, buf6)),
                          reply, panicked, peers)
      ensures a.client.event != STOPPED ==>
                Processed(d, Joined(a.infoHash, a.peerID, EntryOf(a, From(d).addr, d.now), a.client.numWant),
                          old(peerdb.view), peerdb.view, old(Stale(d, buf4, buf6)), reply, panicked, peers)
    {
      if a.client.event == STOPPED {
        reply := Leave(a);
        return reply, false, [];
      }
      reply, panicked, peers := Join(a, EntryOf(a, addrPort.addr, d.now), d.interval, buf4, buf6);
    }

    method Leave(a: AnnounceFields) returns (reply: Option<seq<Byte>>)
      requires Valid()
      modifies peerdb.Repr
      ensures Valid() && peerdb.Repr == old(peerdb.Repr)
      ensures peerdb.view == ApplyDrop(old(peerdb.view), a.infoHash, a.peerID)
      ensures reply == Some(PutAnnounceReply(AnnounceReply(ANNOUNCE, a.head.transactionID, -1, -1, -1, [])))
    {
      peerdb.Drop(a.infoHash, a.peerID);
      reply := Respond(AnnounceReply(ANNOUNCE, a.head.transactionID, -1, -1, -1, []));
    }

    /** A wish within the limit stays; the result is within the limit unless the default
        applies and is above it. Nothing else changes. */
    method ClampNumWant(announce: Announce)
      modifies announce
      ensures var limit, default := I32(config.numwantLimit), I32(config.numwantDefault);
              var wish, r := old(announce.fields).client.numWant, announce.fields.client.numWant;
              && (1 <= wish <= limit ==> r == wish)
              && (r <= limit <==> wish >= 1 || default <= limit)
              && (r >= 1 <==> if wish < 1 then default >= 1 else limit >= 1)
      ensures var a := old(announce.fields);
              announce.fields == a.(client := a.client.(numWant := Clamped(config, a.client.numWant)))
    {
      var a := announce.fields;
      if a.client.numWant < 1 {
        announce.fields := a.(client := a.client.(numWant := I32(config.numwantDefault)));
      } else if a.client.numWant > I32(config.numwantLimit) {
        announce.fields := a.(client := a.client.(numWant := I32(config.numwantLimit)));
      }
    }

    /** Saves the peer and lists others. */
    method Join(a: AnnounceFields, entry: Entry, interval: int32, buf4: Slice, buf6: Slice)
      returns (reply: Option<seq<Byte>>, panicked: bool, ghost peers: seq<Byte>)
      requires Valid() && Buffers(buf4, buf6)
      modifies peerdb.Repr, buf4.arr, buf6.arr
      ensures Valid() && fresh(peerdb.Repr - old(peerdb.Repr))
      ensures peerdb.view == ApplySave(old(peerdb.view), a.infoHash, a.peerID, entry)
      ensures panicked <==> a.client.numWant != 0 && config.numwantLimit == 0
      ensures var (complete, incomplete) := PeerDb.HashStats(peerdb.view, a.infoHash);
              !panicked ==>
                reply == Some(PutAnnounceReply(
                  AnnounceReply(ANNOUNCE, a.head.transactionID, interval, incomplete, complete, peers)))
      ensures a.client.numWant != 0 && !panicked ==>
                ListsContacts(peers, peerdb.view, a.infoHash, config.numwantLimit, entry.ip.Is6())
      ensures a.client.numWant == 0 ==> peers == old(Held(entry.ip.Is6(), buf4, buf6))
    {
      peerdb.Save(entry.ip, entry.port, entry.complete, a.infoHash, a.peerID, entry.lastSeen);
      SavedIsThere(old(peerdb.view), a.infoHash, a.peerID, entry);
      var complete, incomplete := peerdb.HashStats(a.infoHash);
      var list;
      list, panicked := ListFor(a.infoHash, a.client.numWant, entry.ip.Is6(), buf4, buf6);
      reply, peers := None, list;
      if !panicked {
        reply := Respond(AnnounceReply(ANNOUNCE, a.head.transactionID, interval, incomplete, complete, list));
      }
    }

    /** The compact list of the client's own family. */
    method ListFor(hash: Hash, numWant: int32, six: bool, buf4: Slice, buf6: Slice)
      returns (list: seq<Byte>, panicked: bool)
      requires Valid() && Buffers(buf4, buf6) && hash in peerdb.view.swarms && peerdb.view.swarms[hash].peers != map[]
      modifies buf4.arr, buf6.arr
      ensures Valid() && (panicked <==> numWant != 0 && config.numwantLimit == 0)
      ensures numWant != 0 && !panicked ==> ListsContacts(list, peerdb.view, hash, config.numwantLimit, six)
      ensures numWant == 0 ==> list == old(Held(six, buf4, buf6))
    {
      var peers4, peers6;
      ghost var ids;
      peers4, peers6, panicked, ids := PeerListBytes(peerdb, hash, U64(numWant), config.numwantLimit, buf4, buf6);
      list := if six then peers6.arr[..peers6.len] else peers4.arr[..peers4.len];
    }

    method Respond(fields: AnnounceReply) returns (reply: Option<seq<Byte>>)
      ensures reply == Some(PutAnnounceReply(fields))
    {
      var resp := new AnnounceResp(fields);
      var bs := resp.Marshall();
      reply := Some(bs);
    }
  }
}
