/** The UDP connection database: a table of the connection ids that were issued, its
    trim and its binary form. */
module ConnDb {
  import opened Bytes
  import opened Storage
  import opened Codec

  datatype AddrPort = AddrPort(addr: Addr, port: uint16)
  datatype ConnectionInfo = ConnectionInfo(id: int64, timeStamp: int64)

  type Table = map<AddrPort, ConnectionInfo>
  type Record = (AddrPort, ConnectionInfo)

  predicate Stale(info: ConnectionInfo, epoch: int64, expiry: int64) {
    I64(epoch - info.timeStamp) > expiry
  }

  /** Exactly the stale entries go. */
  function Trimmed(t: Table, epoch: int64, expiry: int64): Table {
    map a | a in t && !Stale(t[a], epoch, expiry) :: t[a]
  }

  // ---------- The binary form ----------

  function EncodeRecord(r: Record): seq<Byte> {
    var ip := r.0.addr.AsSlice();
    LittleEndian(|ip|, 1) + (ip + (LittleEndian(r.0.port, 2)
      + (LittleEndian(U64(r.1.id), 8) + LittleEndian(U64(r.1.timeStamp), 8))))
  }

  /** A bad address is noticed only when the whole record has been read. */
  function DecodeRecord(s: seq<Byte>): Read<Record> {
    var (length, s1) :- TakeInt(1, s);
    var (ip, s2) :- Take(length, s1);
    var (port, s3) :- TakeInt(2, s2);
    var (info, s4) :- DecodeInfo(s3);
    var addr := AddrFromSlice(ip);
    if addr.None? then Failed(BadAddress) else Got((AddrPort(addr.value, U16(port)), info), s4)
  }

  function DecodeInfo(s: seq<Byte>): Read<ConnectionInfo> {
    var (bs, rest) :- Take(16, s);
    Got(ConnectionInfo(I64(FromLittleEndian(bs[..8])), I64(FromLittleEndian(bs[8..]))), rest)
  }

  function EncodeTable(rs: seq<Record>): seq<Byte> {
    LittleEndian(U32(|rs|), 4) + WriteMany(EncodeRecord, rs)
  }

  function AddRecords(rs: seq<Record>): Table {
    if rs == [] then map[] else AddRecords(rs[..|rs| - 1])[rs[|rs| - 1].0 := rs[|rs| - 1].1]
  }

  /** What unmarshallBinary leaves behind, and its error. */
  function DecodeTable(s: seq<Byte>): (Table, Option<Error>) {
    match TakeInt(4, s)
    case Failed(e) => (map[], Some(e))
    case Got(length, s1) =>
      var r := ReadMany(DecodeRecord, s1, length);
      (AddRecords(r.items), r.error)
  }

  /** `rs` lists the table in some order, each entry once. */
  ghost predicate ListsTable(rs: seq<Record>, t: Table) {
    AddRecords(rs) == t && |rs| == |t|
  }

  /** The binary form of a table, in some order. */
  ghost predicate TableOf(data: seq<Byte>, t: Table) {
    exists rs :: data == EncodeTable(rs) && ListsTable(rs, t)
  }

  lemma RecordInverts()
    ensures Inverts(DecodeRecord, EncodeRecord)
  {
    forall r, t ensures DecodeRecord(EncodeRecord(r) + t) == Got(r, t) {
      var ip := r.0.addr.AsSlice();
      var s3 := LittleEndian(U64(r.1.id), 8) + LittleEndian(U64(r.1.timeStamp), 8) + t;
      var s2 := LittleEndian(r.0.port, 2) + s3;
      assert EncodeRecord(r) + t == LittleEndian(|ip|, 1) + (ip + s2);
      Widths();
      TakeIntOfWrite(|ip|, 1, ip + s2);
      TakePrefix(ip, s2);
      TakeIntOfWrite(r.0.port, 2, s3);
      InfoInverts(r.1, t);
    }
  }

  lemma InfoInverts(info: ConnectionInfo, t: seq<Byte>)
    ensures DecodeInfo(LittleEndian(U64(info.id), 8) + LittleEndian(U64(info.timeStamp), 8) + t) == Got(info, t)
  {
    var id, timeStamp := LittleEndian(U64(info.id), 8), LittleEndian(U64(info.timeStamp), 8);
    TakePrefix(id + timeStamp, t);
    assert (id + timeStamp)[..8] == id && (id + timeStamp)[8..] == timeStamp;
    Widths();
    LittleEndianRoundTrip(U64(info.id), 8);
    LittleEndianRoundTrip(U64(info.timeStamp), 8);
  }

  lemma RecordStable()
    ensures Stable(DecodeRecord)
  {
    forall s, t | DecodeRecord(s).Got?
      ensures DecodeRecord(s + t) == Got(DecodeRecord(s).value, DecodeRecord(s).rest + t)
    {
      TakeStable(1, s, t);
      var s1, n := s[1..], TakeInt(1, s).value;
      TakeStable(n, s1, t);
      TakeStable(2, s1[n..], t);
      InfoStable(s1[n..][2..], t);
    }
  }

  lemma InfoStable(s: seq<Byte>, t: seq<Byte>)
    requires DecodeInfo(s).Got?
    ensures DecodeInfo(s + t) == Got(DecodeInfo(s).value, DecodeInfo(s).rest + t)
  {
    TakeStable(16, s, t);
  }

  lemma {:induction false} AddRecordsSize(rs: seq<Record>)
    ensures |AddRecords(rs)| <= |rs|
  {
    if rs != [] {
      var n := |rs| - 1;
      AddRecordsSize(rs[..n]);
      assert AddRecords(rs).Keys == AddRecords(rs[..n]).Keys + {rs[n].0};
      assert |AddRecords(rs)| == |AddRecords(rs).Keys| && |AddRecords(rs[..n])| == |AddRecords(rs[..n]).Keys|;
    }
  }

  /** Reading back a written table: the entries that its 32-bit count covers. */
  lemma DecodeOfEncode(rs: seq<Record>)
    ensures DecodeTable(EncodeTable(rs)) == (AddRecords(Covered(rs)), None)
  {
    var body := WriteMany(EncodeRecord, rs);
    Widths();
    TakeIntOfWrite(U32(|rs|), 4, body);
    RecordInverts();
    var first, more := Covered(rs), rs[|Covered(rs)|..];
    assert first + more == rs;
    WriteManyAppend(EncodeRecord, first, more);
    ReadManyOfWrite(DecodeRecord, EncodeRecord, first, WriteMany(EncodeRecord, more));
  }

  function Covered(rs: seq<Record>): (first: seq<Record>)
    ensures |first| == U32(|rs|)
  {
    rs[..U32(|rs|)]
  }

  /** The table reads back as it was, whatever the iteration order, exactly when it has
      fewer than 2^32 entries. */
  lemma TableRoundTrip(rs: seq<Record>, t: Table)
    requires ListsTable(rs, t)
    ensures DecodeTable(EncodeTable(rs)).1 == None
    ensures DecodeTable(EncodeTable(rs)).0 == t <==> |t| < 0x1_0000_0000
  {
    DecodeOfEncode(rs);
    CoversAll(rs, t);
  }

  lemma CoversAll(rs: seq<Record>, t: Table)
    requires ListsTable(rs, t)
    ensures AddRecords(Covered(rs)) == t <==> |t| < 0x1_0000_0000
  {
    AddRecordsSize(Covered(rs));
    assert |t| < 0x1_0000_0000 ==> Covered(rs) == rs;
  }

  /** A table that is cut anywhere does not load. */
  lemma TruncatedTable(rs: seq<Record>, n: nat)
    requires |rs| < 0x1_0000_0000 && n < |EncodeTable(rs)|
    ensures DecodeTable(EncodeTable(rs)[..n]).1.Some?
  {
    var body := WriteMany(EncodeRecord, rs);
    if n >= 4 {
      assert EncodeTable(rs)[..n] == LittleEndian(|rs|, 4) + body[..n - 4];
      Widths();
      TakeIntOfWrite(|rs|, 4, body[..n - 4]);
      RecordInverts();
      RecordStable();
      PrefixOfManyFails(DecodeRecord, EncodeRecord, rs, body[..n - 4]);
    }
  }

  lemma ListsNext(rs: seq<Record>, t: Table, todo: set<AddrPort>, a: AddrPort)
    requires a in todo && todo <= t.Keys && ListsTable(rs, t - todo)
    ensures ListsTable(rs + [(a, t[a])], t - (todo - {a}))
  {
    assert (rs + [(a, t[a])])[..|rs|] == rs;
    var before, after := t - todo, t - (todo - {a});
    assert after == before[a := t[a]];
    assert after.Keys == before.Keys + {a};
    assert |after| == |after.Keys| && |before| == |before.Keys|;
  }

  // ---------- The database ----------

  class ConnectionDatabase {
    var connectionMap: Table
    const expiry: int64

    constructor (expiry: int64)
      ensures connectionMap == map[] && this.expiry == expiry
    {
      connectionMap := map[];
      this.expiry := expiry;
    }

    method Make()
      modifies this
      ensures connectionMap == map[]
    {
      connectionMap := map[];
    }

    method Add(id: int64, addr: AddrPort, now: int64)
      modifies this
      ensures connectionMap == old(connectionMap)[addr := ConnectionInfo(id, now)]
    {
      connectionMap := connectionMap[addr := ConnectionInfo(id, now)];
    }

    method Check(id: int64, addr: AddrPort) returns (ok: bool)
      ensures ok <==> exists timeStamp :: (addr, ConnectionInfo(id, timeStamp)) in connectionMap.Items
    {
      if addr in connectionMap && connectionMap[addr].id == id {
        assert (addr, ConnectionInfo(id, connectionMap[addr].timeStamp)) in connectionMap.Items;
        return true;
      }
      return false;
    }

    /** Visits the entries in any order. */
    method Trim(epoch: int64)
      modifies this
      ensures connectionMap == Trimmed(old(connectionMap), epoch, expiry)
    {
      var todo := connectionMap.Keys;
      ghost var before := connectionMap;
      while todo != {}
        invariant todo <= before.Keys
        invariant connectionMap == map a | a in before && (a in todo || !Stale(before[a], epoch, expiry)) :: before[a]
      {
        var key :| key in todo;
        var conn := connectionMap[key];
        if I64(epoch - conn.timeStamp) > expiry {
          connectionMap := connectionMap - {key};
        }
        todo := todo - {key};
      }
    }

    method MarshallBinary() returns (data: seq<Byte>)
      ensures TableOf(data, connectionMap)
    {
      var header := LittleEndian(U32(|connectionMap|), 4);
      var body: seq<Byte> := [];
      ghost var rs: seq<Record> := [];
      var todo := connectionMap.Keys;
      assert connectionMap - todo == map[];
      while todo != {}
        invariant todo <= connectionMap.Keys
        invariant body == WriteMany(EncodeRecord, rs) && ListsTable(rs, connectionMap - todo)
      {
        var key :| key in todo;
        var info := connectionMap[key];
        ListsNext(rs, connectionMap, todo, key);
        WriteManySnoc(EncodeRecord, rs, (key, info));
        var ip := key.addr.AsSlice();
        body := body + (LittleEndian(|ip|, 1) + (ip + (LittleEndian(key.port, 2)
                + (LittleEndian(U64(info.id), 8) + LittleEndian(U64(info.timeStamp), 8)))));
        todo, rs := todo - {key}, rs + [(key, info)];
      }
      assert connectionMap - {} == connectionMap;
      data := header + body;
      assert data == EncodeTable(rs);
    }

    /** The old table goes first; an error leaves the entries read before it. */
    method UnmarshallBinary(data: seq<Byte>) returns (error: Option<Error>)
      modifies this
      ensures (connectionMap, error) == DecodeTable(data)
    {
      connectionMap := map[];
      var reader := new Reader(data);
      var length := reader.ReadInt(4);
      if length.Failed? {
        return Some(length.error);
      }
      error := ReadRecords(reader, length.value, DecodeRecord);
    }

    method ReadRecords(reader: Reader, length: nat, ghost read: seq<Byte> -> Read<Record>)
      returns (error: Option<Error>)
      requires reader.Valid() && connectionMap == map[] && Same(read, DecodeRecord)
      modifies this, reader
      ensures var r := ReadMany(read, old(reader.Rest()), length);
              connectionMap == AddRecords(r.items) && error == r.error
    {
      var left := length;
      ghost var items: seq<Record>, all := [], ReadMany(read, reader.Rest(), length);
      assert [] + all.items == all.items;
      while left > 0
        invariant reader.Valid() && connectionMap == AddRecords(items)
        invariant Resumes(read, all, items, reader.Rest(), left)
      {
        ResumesStep(read, all, items, reader.Rest(), left);
        assert Shown(reader.Rest());
        var r := ReadRecord(reader);
        if r.Failed? {
          return Some(r.error);
        }
        assert (items + [r.value])[..|items|] == items;
        connectionMap, items, left := connectionMap[r.value.0 := r.value.1], items + [r.value], left - 1;
      }
      assert items + [] == items;
      return None;
    }
  }

  method ReadRecord(reader: Reader) returns (r: Read<Record>)
    requires reader.Valid()
    modifies reader
    ensures reader.Valid() && r == DecodeRecord(old(reader.Rest()))
    ensures r.Got? ==> reader.Rest() == r.rest
  {
    var length := reader.ReadInt(1);
    if length.Failed? {
      return Failed(length.error);
    }
    var ip := reader.Read(length.value);
    if ip.Failed? {
      return Failed(ip.error);
    }
    var port := reader.ReadInt(2);
    if port.Failed? {
      return Failed(port.error);
    }
    var info := reader.Read(16);
    if info.Failed? {
      return Failed(info.error);
    }
    var addr := AddrFromSlice(ip.value);
    if addr.None? {
      return Failed(BadAddress);
    }
    var conn := ConnectionInfo(I64(FromLittleEndian(info.value[..8])), I64(FromLittleEndian(info.value[8..])));
    r := Got((AddrPort(addr.value, U16(port.value)), conn), info.rest);
  }
}
