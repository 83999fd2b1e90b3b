/** The messages of the UDP tracker protocol (BEP 15), big-endian. */
module Wire {
  import opened Bytes
  import opened Storage
  import opened Codec

  // Actions and events.
  const CONNECT: int32 := 0
  const ANNOUNCE: int32 := 1
  const SCRAPE: int32 := 2
  const ERROR: int32 := 3
  const HEARTBEAT: int32 := 4
  const COMPLETED: int32 := 1
  const STOPPED: int32 := 3

  // ---------- Signed and unsigned numbers ----------

  function Put64(x: int64): seq<Byte> {
    BigEndian(U64(x), 8)
  }

  function Put32(x: int32): seq<Byte> {
    BigEndian(U32(x), 4)
  }

  function Take64(s: seq<Byte>): Read<int64> {
    var (bs, rest) :- Take(8, s);
    Got(I64(FromBigEndian(bs)), rest)
  }

  function Take32(s: seq<Byte>): Read<int32> {
    var (bs, rest) :- Take(4, s);
    Got(I32(FromBigEndian(bs)), rest)
  }

  function TakeU32(s: seq<Byte>): Read<uint32> {
    var (bs, rest) :- Take(4, s);
    Got(U32(FromBigEndian(bs)), rest)
  }

  function TakeU16(s: seq<Byte>): Read<uint16> {
    var (bs, rest) :- Take(2, s);
    Got(U16(FromBigEndian(bs)), rest)
  }

  lemma BigInverts(x: nat, w: nat, t: seq<Byte>)
    requires x < Pow256(w)
    ensures Take(w, BigEndian(x, w) + t) == Got(BigEndian(x, w), t) && FromBigEndian(BigEndian(x, w)) == x
  {
    TakePrefix(BigEndian(x, w), t);
    BigEndianRoundTrip(x, w);
  }

  lemma Signed64(x: int64, u: uint64)
    ensures I64(U64(x)) == x && U64(I64(u)) == u
  {
  }

  lemma Signed32(x: int32, u: uint32)
    ensures I32(U32(x)) == x && U32(I32(u)) == u
  {
  }

  lemma Inverts64(x: int64, t: seq<Byte>)
    ensures Take64(Put64(x) + t) == Got(x, t)
  {
    Widths();
    BigInverts(U64(x), 8, t);
    Signed64(x, 0);
  }

  lemma Inverts32(x: int32, t: seq<Byte>)
    ensures Take32(Put32(x) + t) == Got(x, t)
  {
    Widths();
    BigInverts(U32(x), 4, t);
    Signed32(x, 0);
  }

  lemma InvertsU32(x: uint32, t: seq<Byte>)
    ensures TakeU32(BigEndian(x, 4) + t) == Got(x, t)
  {
    Widths();
    BigInverts(x, 4, t);
  }

  lemma InvertsU16(x: uint16, t: seq<Byte>)
    ensures TakeU16(BigEndian(x, 2) + t) == Got(x, t)
  {
    Widths();
    BigInverts(x, 2, t);
  }

  /** Bytes are the encoding of the number that they are read as. */
  lemma Onto32(s: seq<Byte>)
    requires |s| == 4
    ensures Put32(I32(FromBigEndian(s))) == s
  {
    Widths();
    BigEndianOnto(s);
    Signed32(0, FromBigEndian(s));
  }

  lemma Onto64(s: seq<Byte>)
    requires |s| == 8
    ensures Put64(I64(FromBigEndian(s))) == s
  {
    Widths();
    BigEndianOnto(s);
    Signed64(0, FromBigEndian(s));
  }

  // ---------- Messages ----------

  /** What every request begins with. */
  datatype Head = Head(connectionID: int64, action: int32, transactionID: int32)

  datatype Transfer = Transfer(downloaded: int64, left: int64, uploaded: int64)

  datatype Client = Client(event: int32, ip: uint32, key: uint32, numWant: int32, port: uint16)

  datatype AnnounceFields = AnnounceFields(head: Head, infoHash: Hash, peerID: PeerID, transfer: Transfer,
                                           client: Client)

  function PutHead(h: Head): seq<Byte> {
    Put64(h.connectionID) + (Put32(h.action) + Put32(h.transactionID))
  }

  function TakeHead(s: seq<Byte>): (r: Read<Head>)
    ensures r.Got? <==> |s| >= 16
    ensures r.Got? ==> |r.rest| == |s| - 16
  {
    var (connectionID, s1) :- Take64(s);
    var (action, s2) :- Take32(s1);
    var (transactionID, s3) :- Take32(s2);
    Got(Head(connectionID, action, transactionID), s3)
  }

  function PutTransfer(t: Transfer): seq<Byte> {
    Put64(t.downloaded) + (Put64(t.left) + Put64(t.uploaded))
  }

  function TakeTransfer(s: seq<Byte>): (r: Read<Transfer>)
    ensures r.Got? <==> |s| >= 24
    ensures r.Got? ==> |r.rest| == |s| - 24
  {
    var (downloaded, s1) :- Take64(s);
    var (left, s2) :- Take64(s1);
    var (uploaded, s3) :- Take64(s2);
    Got(Transfer(downloaded, left, uploaded), s3)
  }

  function PutClient(c: Client): seq<Byte> {
    Put32(c.event) + (BigEndian(c.ip, 4) + (BigEndian(c.key, 4) + (Put32(c.numWant) + BigEndian(c.port, 2))))
  }

  function TakeClient(s: seq<Byte>): (r: Read<Client>)
    ensures r.Got? <==> |s| >= 18
    ensures r.Got? ==> |r.rest| == |s| - 18
  {
    var (event, s1) :- Take32(s);
    var (ip, s2) :- TakeU32(s1);
    var (key, s3) :- TakeU32(s2);
    var (numWant, s4) :- Take32(s3);
    var (port, s5) :- TakeU16(s4);
    Got(Client(event, ip, key, numWant, port), s5)
  }

  function PutAnnounce(a: AnnounceFields): seq<Byte> {
    PutHead(a.head) + PutBody(a)
  }

  function PutBody(a: AnnounceFields): seq<Byte> {
    a.infoHash.bytes + (a.peerID.bytes + (PutTransfer(a.transfer) + PutClient(a.client)))
  }

  function TakeAnnounce(s: seq<Byte>): (r: Read<AnnounceFields>)
    ensures r.Got? <==> |s| >= 98
  {
    var (head, s1) :- TakeHead(s);
    TakeBody(head, s1)
  }

  function TakeBody(head: Head, s: seq<Byte>): (r: Read<AnnounceFields>)
    ensures r.Got? <==> |s| >= 82
  {
    var (infoHash, s1) :- Take(20, s);
    var (peerID, s2) :- Take(20, s1);
    var (transfer, s3) :- TakeTransfer(s2);
    var (client, s4) :- TakeClient(s3);
    Got(AnnounceFields(head, Hash(infoHash), PeerID(peerID), transfer, client), s4)
  }

  lemma HeadInverts(h: Head, t: seq<Byte>)
    ensures TakeHead(PutHead(h) + t) == Got(h, t)
  {
    var s2 := Put32(h.transactionID) + t;
    var s1 := Put32(h.action) + s2;
    assert PutHead(h) + t == Put64(h.connectionID) + s1;
    Inverts64(h.connectionID, s1);
    Inverts32(h.action, s2);
    Inverts32(h.transactionID, t);
  }

  lemma TransferInverts(f: Transfer, t: seq<Byte>)
    ensures TakeTransfer(PutTransfer(f) + t) == Got(f, t)
  {
    var s2 := Put64(f.uploaded) + t;
    var s1 := Put64(f.left) + s2;
    assert PutTransfer(f) + t == Put64(f.downloaded) + s1;
    Inverts64(f.downloaded, s1);
    Inverts64(f.left, s2);
    Inverts64(f.uploaded, t);
  }

  lemma ClientInverts(c: Client, t: seq<Byte>)
    ensures TakeClient(PutClient(c) + t) == Got(c, t)
  {
    var s4 := BigEndian(c.port, 2) + t;
    var s3 := Put32(c.numWant) + s4;
    var s2 := BigEndian(c.key, 4) + s3;
    var s1 := BigEndian(c.ip, 4) + s2;
    assert PutClient(c) + t == Put32(c.event) + s1;
    Inverts32(c.event, s1);
    InvertsU32(c.ip, s2);
    InvertsU32(c.key, s3);
    Inverts32(c.numWant, s4);
    InvertsU16(c.port, t);
  }

  lemma BodyInverts(a: AnnounceFields, t: seq<Byte>)
    ensures TakeBody(a.head, PutBody(a) + t) == Got(a, t)
  {
    var s3 := PutClient(a.client) + t;
    var s2 := PutTransfer(a.transfer) + s3;
    var s1 := a.peerID.bytes + s2;
    BodyInParts(a, t);
    TakePrefix(a.infoHash.bytes, s1);
    TakePrefix(a.peerID.bytes, s2);
    TransferInverts(a.transfer, s3);
    ClientInverts(a.client, t);
  }

  lemma BodyInParts(a: AnnounceFields, t: seq<Byte>)
    ensures PutBody(a) + t ==
        a.infoHash.bytes + (a.peerID.bytes + (PutTransfer(a.transfer) + (PutClient(a.client) + t)))
  {
    var transfer, client := PutTransfer(a.transfer), PutClient(a.client);
    assert PutBody(a) == a.infoHash.bytes + (a.peerID.bytes + (transfer + client));
  }

  lemma AnnounceSize(a: AnnounceFields)
    ensures |PutAnnounce(a)| == 98
  {
    assert |PutHead(a.head)| == 16 && |PutTransfer(a.transfer)| == 24 && |PutClient(a.client)| == 18;
  }

  /** An announce is 98 bytes and reads back with all its fields, whatever follows it. */
  lemma AnnounceRoundTrip(a: AnnounceFields, t: seq<Byte>)
    ensures |PutAnnounce(a)| == 98 && TakeAnnounce(PutAnnounce(a) + t) == Got(a, t)
  {
    AnnounceSize(a);
    var head, body := PutHead(a.head), PutBody(a);
    Regroup(head, body, t);
    HeadInverts(a.head, body + t);
    BodyInverts(a, t);
  }

  lemma HeadOnto(s: seq<Byte>)
    ensures |s| >= 16 ==> s[..16] == PutHead(TakeHead(s).value) && TakeHead(s).rest == s[16..]
  {
    if |s| >= 16 {
      Onto64(s[..8]);
      Onto32(s[8..][..4]);
      Onto32(s[8..][4..][..4]);
      assert s[..16] == s[..8] + (s[8..][..4] + s[8..][4..][..4]);
    }
  }

  /** The bytes of a request that hold its connection id and its transaction id. */
  lemma HeadFields(s: seq<Byte>)
    requires |s| >= 16
    ensures s[12..16] == Put32(TakeHead(s).value.transactionID)
    ensures s[..8] == Put64(TakeHead(s).value.connectionID)
  {
    HeadOnto(s);
    var h := TakeHead(s).value;
    assert s[12..16] == s[..16][12..16] && s[..8] == s[..16][..8];
  }

  /** `bs` stands at an offset of a message. */
  predicate Field(s: seq<Byte>, offset: nat, bs: seq<Byte>) {
    offset + |bs| <= |s| && s[offset..offset + |bs|] == bs
  }

  /** The offsets that BEP 15 gives for the fields of a request's head. */
  lemma HeadLayout(h: Head, t: seq<Byte>)
    ensures var s := PutHead(h) + t;
            Field(s, 0, Put64(h.connectionID)) && Field(s, 8, Put32(h.action)) && Field(s, 12, Put32(h.transactionID))
  {
  }

  /** The offsets that BEP 15 gives for the fields of an announce. */
  lemma AnnounceLayout(a: AnnounceFields)
    ensures var s := PutAnnounce(a);
            && Field(s, 0, PutHead(a.head)) && Field(s, 16, a.infoHash.bytes) && Field(s, 36, a.peerID.bytes)
            && Field(s, 56, Put64(a.transfer.downloaded)) && Field(s, 64, Put64(a.transfer.left))
            && Field(s, 72, Put64(a.transfer.uploaded)) && Field(s, 80, Put32(a.client.event))
            && Field(s, 84, BigEndian(a.client.ip, 4)) && Field(s, 88, BigEndian(a.client.key, 4))
            && Field(s, 92, Put32(a.client.numWant)) && Field(s, 96, BigEndian(a.client.port, 2))
  {
  }

  // ---------- Replies ----------

  datatype ConnectReply = ConnectReply(action: int32, transactionID: int32, connectionID: int64)

  datatype AnnounceReply = AnnounceReply(
    action: int32, transactionID: int32, interval: int32, leechers: int32, seeders: int32, peers: seq<Byte>)

  datatype ErrorReply = ErrorReply(action: int32, transactionID: int32, errorString: seq<Byte>)

  datatype ScrapeInfo = ScrapeInfo(complete: int32, incomplete: int32, downloaded: int32)

  datatype ScrapeReply = ScrapeReply(action: int32, transactionID: int32, info: seq<ScrapeInfo>)

  function PutConnectReply(r: ConnectReply): seq<Byte> {
    Put32(r.action) + (Put32(r.transactionID) + Put64(r.connectionID))
  }

  function TakeConnectReply(s: seq<Byte>): Read<ConnectReply> {
    var (action, s1) :- Take32(s);
    var (transactionID, s2) :- Take32(s1);
    var (connectionID, s3) :- Take64(s2);
    Got(ConnectReply(action, transactionID, connectionID), s3)
  }

  lemma ConnectReplyRoundTrip(r: ConnectReply, t: seq<Byte>)
    ensures TakeConnectReply(PutConnectReply(r) + t) == Got(r, t)
  {
    var s2 := Put64(r.connectionID) + t;
    var s1 := Put32(r.transactionID) + s2;
    assert PutConnectReply(r) + t == Put32(r.action) + s1;
    Inverts32(r.action, s1);
    Inverts32(r.transactionID, s2);
    Inverts64(r.connectionID, t);
  }

  function PutAnnounceReply(r: AnnounceReply): seq<Byte> {
    Put32(r.action) +
        (Put32(r.transactionID) + (Put32(r.interval) + (Put32(r.leechers) + (Put32(r.seeders) + r.peers))))
  }

  /** Allocates room for the peers first, which fails below 20 bytes. */
  function TakeAnnounceReply(s: seq<Byte>): Read<AnnounceReply> {
    if |s| < 20 then Failed(Panic) else
    var (action, s1) :- Take32(s);
    var (transactionID, s2) :- Take32(s1);
    var (interval, s3) :- Take32(s2);
    var (leechers, s4) :- Take32(s3);
    var (seeders, s5) :- Take32(s4);
    var (peers, s6) :- Take(|s| - 20, s5);
    Got(AnnounceReply(action, transactionID, interval, leechers, seeders, peers), s6)
  }

  lemma AnnounceReplyRoundTrip(r: AnnounceReply)
    ensures |PutAnnounceReply(r)| == 20 + |r.peers| && TakeAnnounceReply(PutAnnounceReply(r)) == Got(r, [])
  {
    var s4 := Put32(r.seeders) + r.peers;
    var s3 := Put32(r.leechers) + s4;
    var s2 := Put32(r.interval) + s3;
    var s1 := Put32(r.transactionID) + s2;
    Inverts32(r.action, s1);
    Inverts32(r.transactionID, s2);
    Inverts32(r.interval, s3);
    Inverts32(r.leechers, s4);
    Inverts32(r.seeders, r.peers);
    assert r.peers + [] == r.peers;
    TakePrefix(r.peers, []);
  }

  function PutError(r: ErrorReply): seq<Byte> {
    Put32(r.action) + (Put32(r.transactionID) + r.errorString)
  }

  function TakeError(s: seq<Byte>): Read<ErrorReply> {
    if |s| < 8 then Failed(Panic) else
    var (action, s1) :- Take32(s);
    var (transactionID, s2) :- Take32(s1);
    var (errorString, s3) :- Take(|s| - 8, s2);
    Got(ErrorReply(action, transactionID, errorString), s3)
  }

  lemma ErrorRoundTrip(r: ErrorReply)
    ensures |PutError(r)| == 8 + |r.errorString| && TakeError(PutError(r)) == Got(r, [])
  {
    var s1 := Put32(r.transactionID) + r.errorString;
    Inverts32(r.action, s1);
    Inverts32(r.transactionID, r.errorString);
    assert r.errorString + [] == r.errorString;
    TakePrefix(r.errorString, []);
  }

  function PutInfo(i: ScrapeInfo): seq<Byte> {
    Put32(i.complete) + (Put32(i.incomplete) + Put32(i.downloaded))
  }

  /** The fields come behind as many zero bytes as there should have been bytes. */
  function PutScrapeReply(r: ScrapeReply): seq<Byte> {
    seq(8 + |r.info| * 12, _ => 0) + (Put32(r.action) + (Put32(r.transactionID) + WriteMany(PutInfo, r.info)))
  }

  /** Bytes 4..8 of a reply, where a client looks for its transaction id. */
  function Echo(reply: seq<Byte>): seq<Byte>
    requires |reply| >= 8
  {
    reply[4..8]
  }

  /** The offsets that BEP 15 gives for the fields of the replies. */
  lemma ReplyLayout(c: ConnectReply, a: AnnounceReply, e: ErrorReply)
    ensures var s := PutConnectReply(c);
            Field(s, 0, Put32(c.action)) && Field(s, 4, Put32(c.transactionID)) && Field(s, 8, Put64(c.connectionID))
    ensures var s := PutAnnounceReply(a);
            && Field(s, 0, Put32(a.action)) && Field(s, 4, Put32(a.transactionID)) && Field(s, 8, Put32(a.interval))
            && Field(s, 12, Put32(a.leechers)) && Field(s, 16, Put32(a.seeders)) && Field(s, 20, a.peers)
    ensures var s := PutError(e);
            Field(s, 0, Put32(e.action)) && Field(s, 4, Put32(e.transactionID)) && Field(s, 8, e.errorString)
  {
  }

  lemma ConnectReplyEcho(c: ConnectReply)
    ensures |PutConnectReply(c)| >= 8 && Echo(PutConnectReply(c)) == Put32(c.transactionID)
  {
  }

  lemma AnnounceReplyEcho(a: AnnounceReply)
    ensures |PutAnnounceReply(a)| >= 8 && Echo(PutAnnounceReply(a)) == Put32(a.transactionID)
  {
  }

  lemma ErrorEcho(e: ErrorReply)
    ensures |PutError(e)| >= 8 && Echo(PutError(e)) == Put32(e.transactionID)
  {
  }

  /** A scrape reply carries the transaction id there only if it is zero. */
  lemma ScrapeReplyEcho(r: ScrapeReply)
    ensures |PutScrapeReply(r)| >= 8
    ensures Echo(PutScrapeReply(r)) == Put32(r.transactionID) <==> r.transactionID == 0
  {
    var zeros := [0, 0, 0, 0];
    assert Echo(PutScrapeReply(r)) == zeros;
    Inverts32(r.transactionID, []);
    Inverts32(0, []);
    assert Put32(0) == zeros;
  }

  // ---------- The messages as objects ----------

  method Read32(reader: Reader) returns (x: int32)
    requires reader.Valid() && |reader.Rest()| >= 4
    modifies reader
    ensures reader.Valid() && Take32(old(reader.Rest())) == Got(x, reader.Rest())
  {
    var bs := reader.Read(4);
    x := I32(FromBigEndian(bs.value));
  }

  class Announce {
    var fields: AnnounceFields

    constructor (fields: AnnounceFields)
      ensures this.fields == fields
    {
      this.fields := fields;
    }

    /** 98 bytes that read back as the fields, with nothing left over. */
    method Marshall() returns (bs: seq<Byte>)
      ensures |bs| == 98 && TakeAnnounce(bs) == Got(fields, [])
      ensures bs == PutAnnounce(fields)
    {
      bs := PutHead(fields.head);
      bs := bs +
          (fields.infoHash.bytes + (fields.peerID.bytes + (PutTransfer(fields.transfer) + PutClient(fields.client))));
      AnnounceRoundTrip(fields, []);
      assert bs + [] == bs;
    }

    /** The read is all or nothing; its error is not reported. */
    method Unmarshall(data: seq<Byte>)
      modifies this
      ensures |data| >= 98 ==> fields == TakeAnnounce(data).value
      ensures |data| < 98 ==> fields == old(fields)
    {
      var r := TakeAnnounce(data);
      if r.Got? {
        fields := r.value;
      }
    }
  }

  class Connect {
    var fields: Head  // the connection id is the protocol id here

    constructor (fields: Head)
      ensures this.fields == fields
    {
      this.fields := fields;
    }

    /** 16 bytes that read back as the fields, with nothing left over. */
    method Marshall() returns (bs: seq<Byte>)
      ensures |bs| == 16 && TakeHead(bs) == Got(fields, [])
      ensures bs == PutHead(fields)
    {
      bs := PutHead(fields);
      HeadInverts(fields, []);
      assert bs + [] == bs;
    }

    method Unmarshall(data: seq<Byte>) returns (ok: bool)
      modifies this
      ensures ok <==> |data| >= 16
      ensures fields == if ok then TakeHead(data).value else old(fields)
    {
      var r := TakeHead(data);
      ok := r.Got?;
      if ok {
        fields := r.value;
      }
    }
  }

  class ConnectResp {
    var fields: ConnectReply

    constructor (fields: ConnectReply)
      ensures this.fields == fields
    {
      this.fields := fields;
    }

    /** 16 bytes that read back as the fields, with nothing left over. */
    method Marshall() returns (bs: seq<Byte>)
      ensures |bs| == 16 && TakeConnectReply(bs) == Got(fields, [])
      ensures bs == PutConnectReply(fields)
    {
      bs := PutConnectReply(fields);
      ConnectReplyRoundTrip(fields, []);
      assert bs + [] == bs;
    }

    method Unmarshall(data: seq<Byte>) returns (ok: bool)
      modifies this
      ensures ok <==> |data| >= 16
      ensures fields == if ok then TakeConnectReply(data).value else old(fields)
    {
      var r := TakeConnectReply(data);
      ok := r.Got?;
      if ok {
        fields := r.value;
      }
    }
  }

  class AnnounceResp {
    var fields: AnnounceReply

    constructor (fields: AnnounceReply)
      ensures this.fields == fields
    {
      this.fields := fields;
    }

    /** The fields are written one by one. */
    method Marshall() returns (bs: seq<Byte>)
      ensures |bs| == 20 + |fields.peers| && TakeAnnounceReply(bs) == Got(fields, [])
      ensures bs == PutAnnounceReply(fields)
    {
      bs := Put32(fields.action);
      bs := bs + Put32(fields.transactionID);
      bs := bs + Put32(fields.interval);
      bs := bs + Put32(fields.leechers);
      bs := bs + Put32(fields.seeders);
      bs := bs + fields.peers;
      assert bs == PutAnnounceReply(fields);
      AnnounceReplyRoundTrip(fields);
    }

    /** Panics below 20 bytes; else it cannot fail. */
    method Unmarshall(data: seq<Byte>) returns (panicked: bool)
      modifies this
      ensures panicked <==> |data| < 20
      ensures fields == if panicked then old(fields) else TakeAnnounceReply(data).value
    {
      if |data| < 20 {
        return true;
      }
      var reader := new Reader(data);
      var action := Read32(reader);
      fields := fields.(action := action);
      var transactionID := Read32(reader);
      fields := fields.(transactionID := transactionID);
      var interval := Read32(reader);
      fields := fields.(interval := interval);
      var leechers := Read32(reader);
      fields := fields.(leechers := leechers);
      var seeders := Read32(reader);
      fields := fields.(seeders := seeders);
      var peers := reader.Read(|data| - 20);
      fields := fields.(peers := peers.value);
      return false;
    }
  }

  class Error {
    var fields: ErrorReply

    constructor (fields: ErrorReply)
      ensures this.fields == fields
    {
      this.fields := fields;
    }

    method Marshall() returns (bs: seq<Byte>)
      ensures |bs| == 8 + |fields.errorString| && TakeError(bs) == Got(fields, [])
      ensures bs == PutError(fields)
    {
      bs := Put32(fields.action);
      bs := bs + Put32(fields.transactionID);
      bs := bs + fields.errorString;
      assert bs == PutError(fields);
      ErrorRoundTrip(fields);
    }

    method Unmarshall(data: seq<Byte>) returns (panicked: bool)
      modifies this
      ensures panicked <==> |data| < 8
      ensures fields == if panicked then old(fields) else TakeError(data).value
    {
      if |data| < 8 {
        return true;
      }
      var reader := new Reader(data);
      var action := Read32(reader);
      fields := fields.(action := action);
      var transactionID := Read32(reader);
      fields := fields.(transactionID := transactionID);
      var errorString := reader.Read(|data| - 8);
      fields := fields.(errorString := errorString.value);
      return false;
    }
  }
}
