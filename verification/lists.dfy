/** The peer lists of a reply: bencoded dictionaries, and the compact records of
    BEP 23 (IPv4, 6 bytes) and BEP 7 (IPv6, 18 bytes) in buffers of fixed capacity. */
module PeerLists {
  import opened Bytes
  import opened Storage
  import opened PeerDb
  import opened Codec
  import opened GoMap
  import opened Bencode
  import opened Dictionary
  import opened Pools

  // ---------- Bencoded peers ----------

  /** The writer's calls for one peer; `ip` is the address in text form. */
  function PeerCalls(id: PeerID, ip: Text, port: uint16, removePeerId: bool): seq<Call> {
    (if removePeerId then [] else [Call.String(Ascii("peer id"), id.bytes)])
    + [Call.String(Ascii("ip"), ip)] + [Call.Int64(Ascii("port"), port)]
  }

  function PeerPairs(id: PeerID, ip: Text, port: uint16, removePeerId: bool): seq<Pair> {
    (if removePeerId then [] else [Pair(Ascii("peer id"), Str(id.bytes))])
    + [Pair(Ascii("ip"), Str(ip))] + [Pair(Ascii("port"), Int(port))]
  }

  /** An entry decodes to the fields of its peer. */
  lemma PeerEntryDecodes(id: PeerID, ip: Text, port: uint16, removePeerId: bool)
    ensures Parse(Closed(PeerCalls(id, ip, port, removePeerId)))
         == Some((Dict(PeerPairs(id, ip, port, removePeerId)), []))
  {
    var calls := PeerCalls(id, ip, port, removePeerId);
    BuildPlain([], calls);
    assert [] + calls == calls;
    assert [] + PairsOf(calls) == PeerPairs(id, ip, port, removePeerId);
    NestedRecovers(calls);
  }

  /** One entry, copied out of the dictionary's buffer before that is reset. */
  method WritePeer(dictionary: Dictionary, id: PeerID, ip: Text, port: uint16, removePeerId: bool)
    returns (entry: array<Byte>)
    requires dictionary.Valid() && dictionary.Contents() == [D]
    modifies dictionary, dictionary.buf
    ensures dictionary.Valid() && dictionary.Contents() == [D]
    ensures dictionary.buf == old(dictionary.buf) || fresh(dictionary.buf)
    ensures fresh(entry) && entry != dictionary.buf
    ensures entry[..] == Closed(PeerCalls(id, ip, port, removePeerId))
  {
    WriteFields(dictionary, id, ip, port, removePeerId);
    entry := CopyOut(dictionary);
    dictionary.Reset();
  }

  method WriteFields(dictionary: Dictionary, id: PeerID, ip: Text, port: uint16, removePeerId: bool)
    requires dictionary.Valid() && dictionary.Contents() == [D]
    modifies dictionary, dictionary.buf
    ensures dictionary.Valid() && (dictionary.buf == old(dictionary.buf) || fresh(dictionary.buf))
    ensures dictionary.Contents() == [D] + EmitAll(PeerCalls(id, ip, port, removePeerId))
  {
    ghost var calls := [];
    assert [D] + EmitAll(calls) == [D];
    if !removePeerId {
      calls := Next(calls, Call.String(Ascii("peer id"), id.bytes));
      dictionary.String(Ascii("peer id"), id.bytes);
    }
    calls := Next(calls, Call.String(Ascii("ip"), ip));
    dictionary.String(Ascii("ip"), ip);
    calls := Next(calls, Call.Int64(Ascii("port"), port));
    dictionary.Int64(Ascii("port"), port);
    assert calls == PeerCalls(id, ip, port, removePeerId);
  }

  /** The closed dictionary, in an array of its own. */
  method CopyOut(dictionary: Dictionary) returns (entry: array<Byte>)
    requires dictionary.Valid()
    modifies dictionary, dictionary.buf
    ensures dictionary.Valid() && (dictionary.buf == old(dictionary.buf) || fresh(dictionary.buf))
    ensures fresh(entry) && entry != dictionary.buf && entry[..] == old(dictionary.Contents()) + [E]
  {
    var b, n := dictionary.GetBytes();
    entry := new Byte[n];
    forall i | 0 <= i < n {
      entry[i] := b[i];
    }
    assert entry[..] == b[..n];
  }

  /** The entry of a stored peer. */
  function Listed(stored: map<PeerID, Entry>, id: PeerID, text: Addr -> Text, removePeerId: bool): Text
    requires id in stored
  {
    Closed(PeerCalls(id, text(stored[id].ip), stored[id].port, removePeerId))
  }

  /** The entries `peers` are those of the peers `ids`. */
  ghost predicate Listing(peers: seq<array<Byte>>, ids: seq<PeerID>, stored: map<PeerID, Entry>,
                          text: Addr -> Text, removePeerId: bool)
    reads peers
  {
    && |peers| == |ids|
    && (forall j | 0 <= j < |ids| :: ids[j] in stored && peers[j][..] == Listed(stored, ids[j], text, removePeerId))
  }

  /** One turn: the entries made before stay as they are. */
  method ListPeer(dictionary: Dictionary, peers: seq<array<Byte>>, peer: Peer, removePeerId: bool, text: Addr -> Text,
                  ghost ids: seq<PeerID>, id: PeerID, ghost stored: map<PeerID, Entry>)
    returns (more: seq<array<Byte>>)
    requires dictionary.Valid() && dictionary.Contents() == [D]
    requires Listing(peers, ids, stored, text, removePeerId) && dictionary.buf !in peers
    requires id in stored && peer.data == stored[id]
    modifies dictionary, dictionary.buf
    ensures dictionary.Valid() && dictionary.Contents() == [D]
    ensures dictionary.buf == old(dictionary.buf) || fresh(dictionary.buf)
    ensures |more| == |peers| + 1 && more[..|peers|] == peers && fresh(more[|peers|])
    ensures Listing(more, ids + [id], stored, text, removePeerId) && dictionary.buf !in more
  {
    var entry := WritePeer(dictionary, id, text(peer.data.ip), peer.data.port, removePeerId);
    more := peers + [entry];
  }

  /** The peers of one swarm in an arbitrary order, at most `numWant`; `text` renders an
      address. */
  method PeerList(db: Memory, pool: DictionaryPool, hash: Hash, numWant: nat, removePeerId: bool, text: Addr -> Text)
    returns (peers: seq<array<Byte>>, ghost ids: seq<PeerID>)
    requires db.Valid() && pool.Valid()
    modifies pool, pool.free, pool.Buffers()
    ensures pool.Valid()
    ensures hash !in db.view.swarms ==> peers == []
    ensures hash in db.view.swarms ==>
              var stored := db.view.swarms[hash].peers;
              && |peers| == (if numWant < |stored| then numWant else |stored|)
              && Listing(peers, ids, stored, text, removePeerId)
    ensures Distinct(ids)
  {
    peers, ids := [], [];
    if hash !in db.hashmap {
      return;
    }
    HoldsSwarm(db, hash);
    var swarm := db.hashmap[hash].Peers;
    ghost var stored := db.view.swarms[hash].peers;
    assert |swarm| == |swarm.Keys| && |stored| == |stored.Keys|;
    var want := if numWant > |swarm| then |swarm| else numWant;
    if want == 0 {
      return;
    }
    peers, ids := ListWith(pool, swarm, want, removePeerId, text, stored);
  }

  /** With a dictionary from the pool, which goes back in the end. */
  method ListWith(pool: DictionaryPool, swarm: map<PeerID, Peer>, want: nat, removePeerId: bool, text: Addr -> Text,
                  ghost stored: map<PeerID, Entry>)
    returns (peers: seq<array<Byte>>, ghost ids: seq<PeerID>)
    requires pool.Valid() && Holds(swarm, stored) && 0 < want <= |swarm|
    modifies pool, pool.free, pool.Buffers()
    ensures pool.Valid()
    ensures |peers| == want && Listing(peers, ids, stored, text, removePeerId) && Distinct(ids)
  {
    var dictionary := pool.Get();
    peers, ids := ListSwarm(dictionary, swarm, want, removePeerId, text, stored);
    pool.Put(dictionary);
  }

  method ListSwarm(dictionary: Dictionary, swarm: map<PeerID, Peer>, want: nat, removePeerId: bool, text: Addr -> Text,
                   ghost stored: map<PeerID, Entry>)
    returns (peers: seq<array<Byte>>, ghost ids: seq<PeerID>)
    requires dictionary.Valid() && dictionary.Contents() == [D] && Holds(swarm, stored)
    requires 0 < want <= |swarm|
    modifies dictionary, dictionary.buf
    ensures dictionary.Valid() && dictionary.Contents() == [D]
    ensures dictionary.buf == old(dictionary.buf) || fresh(dictionary.buf)
    ensures |peers| == want && dictionary.buf !in peers
    ensures Listing(peers, ids, stored, text, removePeerId) && Distinct(ids)
  {
    peers, ids := [], [];
    assert |swarm| == |swarm.Keys|;
    var todo := swarm.Keys;
    while todo != {}
      invariant dictionary.Valid() && dictionary.Contents() == [D]
      invariant dictionary.buf == old(dictionary.buf) || fresh(dictionary.buf)
      invariant todo <= swarm.Keys && |ids| < want && |todo| + |ids| == |swarm| && dictionary.buf !in peers
      invariant Visited(ids, todo)
      invariant Listing(peers, ids, stored, text, removePeerId)
    {
      var id :| id in todo;
      peers := ListPeer(dictionary, peers, swarm[id], removePeerId, text, ids, id, stored);
      todo, ids := todo - {id}, ids + [id];
      if |peers| == want {
        break;
      }
    }
  }

  /** The peers visited so far are different ones, and not to be visited again. */
  ghost predicate Visited(ids: seq<PeerID>, todo: set<PeerID>) {
    Distinct(ids) && forall j | 0 <= j < |ids| :: ids[j] !in todo
  }

  ghost predicate Distinct<T>(s: seq<T>) {
    forall i, j | 0 <= i < j < |s| :: s[i] != s[j]
  }

  // ---------- Compact peers ----------

  datatype Contact = Contact(ip: Addr, port: uint16)

  function Record(c: Contact): Text {
    c.ip.AsSlice() + BigEndian(c.port, 2)
  }

  /** A client's reader of one record whose address has `w` bytes. */
  function ReadContact(w: nat, s: Text): Read<Contact> {
    var (ip, rest) :- Take(w, s);
    var (port, rest') :- Take(2, rest);
    match AddrFromSlice(ip)
    case None => Failed(BadAddress)
    case Some(a) => Got(Contact(a, U16(FromBigEndian(port))), rest')
  }

  lemma ReadContactOfRecord(c: Contact, t: Text)
    ensures ReadContact(|c.ip.AsSlice()|, Record(c) + t) == Got(c, t)
  {
    var ip, port := c.ip.AsSlice(), BigEndian(c.port, 2);
    assert Record(c) + t == ip + (port + t);
    TakePrefix(ip, port + t);
    TakePrefix(port, t);
    Widths();
    BigEndianRoundTrip(c.port, 2);
  }

  /** The contacts of one family among the peers `ids`, in that order. */
  function Contacts(stored: map<PeerID, Entry>, ids: seq<PeerID>, six: bool): (cs: seq<Contact>)
    requires forall j | 0 <= j < |ids| :: ids[j] in stored
    ensures |cs| <= |ids| && forall c | c in cs :: c.ip.Is6() == six
  {
    if ids == [] then []
    else
      var n := |ids| - 1;
      var e := stored[ids[n]];
      Contacts(stored, ids[..n], six) + if e.ip.Is6() == six then [Contact(e.ip, e.port)] else []
  }

  function Width(six: bool): nat {
    if six then 16 else 4
  }

  /** The bytes of one family's list. */
  function Compact(cs: seq<Contact>): Text {
    WriteMany(Record, cs)
  }

  lemma {:induction false} CompactLength(cs: seq<Contact>, six: bool)
    requires forall c | c in cs :: c.ip.Is6() == six
    ensures |Compact(cs)| == |cs| * (Width(six) + 2)
  {
    if cs != [] {
      CompactLength(cs[1..], six);
    }
  }

  /** A client reads back the contacts of the listed peers, in order, and nothing else. */
  lemma {:induction false} CompactDecodes(cs: seq<Contact>, six: bool)
    requires forall c | c in cs :: c.ip.Is6() == six
    ensures ReadMany(s => ReadContact(Width(six), s), Compact(cs), |cs|) == Many(cs, [], None)
  {
    if cs != [] {
      CompactDecodes(cs[1..], six);
      ReadContactOfRecord(cs[0], Compact(cs[1..]));
      assert ReadContact(Width(six), Compact(cs)) == Got(cs[0], Compact(cs[1..]));
    }
  }

  /** One family's buffer, with room for `limit` records, has no room left. */
  predicate Full(stored: map<PeerID, Entry>, ids: seq<PeerID>, limit: nat)
    requires forall j | 0 <= j < |ids| :: ids[j] in stored
  {
    |Contacts(stored, ids, false)| >= limit || |Contacts(stored, ids, true)| >= limit
  }

  /** A pass over a swarm in some order, which ends when the swarm does or as soon as
      either buffer is full: it is not full before the last peer. */
  ghost predicate Pass(stored: map<PeerID, Entry>, ids: seq<PeerID>, limit: nat) {
    && Distinct(ids)
    && (forall j | 0 <= j < |ids| :: ids[j] in stored)
    && (ids != [] ==> !Full(stored, ids[..|ids| - 1], limit))
    && (|ids| == |stored| || Full(stored, ids, limit))
  }

  function OfFamily(stored: map<PeerID, Entry>, six: bool): map<PeerID, Entry> {
    map i | i in stored && stored[i].ip.Is6() == six :: stored[i]
  }

  lemma {:induction false} ContactsCount(stored: map<PeerID, Entry>, ids: seq<PeerID>)
    requires forall j | 0 <= j < |ids| :: ids[j] in stored
    ensures |Contacts(stored, ids, false)| + |Contacts(stored, ids, true)| == |ids|
  {
    if ids != [] {
      ContactsCount(stored, ids[..|ids| - 1]);
    }
  }

  /** Different peers of one family are no more than there are. */
  lemma {:induction false} ContactsFit(stored: map<PeerID, Entry>, ids: seq<PeerID>, six: bool)
    requires Distinct(ids) && forall j | 0 <= j < |ids| :: ids[j] in stored
    ensures |Contacts(stored, ids, six)| <= |OfFamily(stored, six)|
  {
    if ids != [] {
      var n := |ids| - 1;
      ContactsWithout(stored, ids[..n], ids[n], six);
      ContactsFit(stored - {ids[n]}, ids[..n], six);
      OfFamilyWithout(stored, ids[n], six);
    }
  }

  lemma OfFamilyWithout(stored: map<PeerID, Entry>, id: PeerID, six: bool)
    requires id in stored
    ensures |OfFamily(stored, six)| == |OfFamily(stored - {id}, six)| + if stored[id].ip.Is6() == six then 1 else 0
  {
    var all, others := OfFamily(stored, six), OfFamily(stored - {id}, six);
    assert others.Keys == all.Keys - {id};
    assert |all| == |all.Keys| && |others| == |others.Keys|;
  }

  lemma {:induction false} ContactsWithout(stored: map<PeerID, Entry>, ids: seq<PeerID>, id: PeerID, six: bool)
    requires id !in ids && forall j | 0 <= j < |ids| :: ids[j] in stored
    ensures Contacts(stored - {id}, ids, six) == Contacts(stored, ids, six)
  {
    if ids != [] {
      ContactsWithout(stored, ids[..|ids| - 1], id, six);
    }
  }

  /** At most `limit` records of each family. */
  lemma PassWithinLimit(stored: map<PeerID, Entry>, ids: seq<PeerID>, limit: nat, six: bool)
    requires Pass(stored, ids, limit) && limit > 0
    ensures |Contacts(stored, ids, six)| <= limit
  {
  }

  lemma {:induction false} DistinctSet<T>(s: seq<T>)
    requires Distinct(s)
    ensures |set x | x in s| == |s|
  {
    if s != [] {
      var n := |s| - 1;
      DistinctSet(s[..n]);
      assert (set x | x in s) == (set x | x in s[..n]) + {s[n]};
    }
  }

  lemma SubsetSize<T>(a: set<T>, b: set<T>)
    requires a <= b
    ensures |a| <= |b| && (|a| == |b| ==> a == b)
  {
    assert b == a + (b - a);
  }

  /** Different peers of a swarm, as many as it has, are all of them. */
  lemma Everyone(stored: map<PeerID, Entry>, ids: seq<PeerID>)
    requires Distinct(ids) && forall j | 0 <= j < |ids| :: ids[j] in stored
    ensures |ids| <= |stored|
    ensures |ids| == |stored| ==> forall i | i in stored :: i in ids
  {
    DistinctSet(ids);
    var listed := set i | i in ids;
    assert listed <= stored.Keys && |stored| == |stored.Keys|;
    SubsetSize(listed, stored.Keys);
  }

  /** The guard under which no order of the swarm leaves a peer out. */
  predicate FitsLists(stored: map<PeerID, Entry>, limit: nat) {
    |stored| <= limit || (|OfFamily(stored, false)| < limit && |OfFamily(stored, true)| < limit)
  }

  lemma PassIsComplete(stored: map<PeerID, Entry>, ids: seq<PeerID>, limit: nat)
    requires Pass(stored, ids, limit) && FitsLists(stored, limit)
    ensures |ids| == |stored| && forall i | i in stored :: i in ids
  {
    Everyone(stored, ids);
    ContactsFit(stored, ids, false);
    ContactsFit(stored, ids, true);
  }

  ghost function Pick<T>(s: set<T>, n: nat): (r: seq<T>)
    requires n <= |s|
    ensures |r| == n && Distinct(r) && forall x | x in r :: x in s
  {
    if n == 0 then []
    else
      var x :| x in s;
      Pick(s - {x}, n - 1) + [x]
  }

  lemma {:induction false} ContactsOfOneFamily(stored: map<PeerID, Entry>, ids: seq<PeerID>, six: bool)
    requires forall i | i in ids :: i in stored && stored[i].ip.Is6() == six
    ensures |Contacts(stored, ids, six)| == |ids| && Contacts(stored, ids, !six) == []
  {
    if ids != [] {
      ContactsOfOneFamily(stored, ids[..|ids| - 1], six);
    }
  }

  /** Without that guard, an order that starts with `limit` peers of one family ends there. */
  lemma PassMayLeaveOut(stored: map<PeerID, Entry>, limit: nat, six: bool) returns (ids: seq<PeerID>)
    requires limit > 0 && |stored| > limit && |OfFamily(stored, six)| >= limit
    ensures Pass(stored, ids, limit) && |ids| < |stored|
  {
    var family := OfFamily(stored, six);
    assert |family| == |family.Keys|;
    ids := Pick(family.Keys, limit);
    ContactsOfOneFamily(stored, ids, six);
    ContactsOfOneFamily(stored, ids[..limit - 1], six);
  }

  /** Every peer is listed, whatever the order, exactly when the swarm has at most
      `limit` peers or each family has fewer than `limit`. */
  lemma ListedWhateverTheOrder(stored: map<PeerID, Entry>, limit: nat)
    requires limit > 0
    ensures (forall ids | Pass(stored, ids, limit) :: |ids| == |stored|) <==> FitsLists(stored, limit)
  {
    forall ids | Pass(stored, ids, limit) && FitsLists(stored, limit) ensures |ids| == |stored| {
      PassIsComplete(stored, ids, limit);
    }
    if !FitsLists(stored, limit) {
      var ids := PassMayLeaveOut(stored, limit, |OfFamily(stored, true)| >= limit);
    }
  }

  // ---------- The compact lists in pooled buffers ----------

  /** A []byte: the first `len` bytes of an array, whose length is the capacity. */
  datatype Slice = Slice(arr: array<Byte>, len: nat)

  /** Overwrites the bytes from `pos` on. */
  method PutBytes(arr: array<Byte>, pos: nat, bs: Text)
    requires pos + |bs| <= arr.Length
    modifies arr
    ensures arr[..pos + |bs|] == old(arr[..pos]) + bs
  {
    forall k | 0 <= k < |bs| {
      arr[pos + k] := bs[k];
    }
  }

  /** One record, at a position within the capacity. */
  method PutRecord(arr: array<Byte>, pos: nat, peer: Peer, ghost cs: seq<Contact>)
    requires pos + |peer.data.ip.AsSlice()| + 2 <= arr.Length && arr[..pos] == Compact(cs)
    modifies arr
    ensures var r := Record(Contact(peer.data.ip, peer.data.port));
            arr[..pos + |r|] == Compact(cs + [Contact(peer.data.ip, peer.data.port)])
  {
    var ip := peer.data.ip.AsSlice();
    PutBytes(arr, pos, ip);
    PutBytes(arr, pos + |ip|, BigEndian(peer.data.port, 2));
    WriteManySnoc(Record, cs, Contact(peer.data.ip, peer.data.port));
  }

  /** The peers of a swarm in an arbitrary order, as compact records in two buffers from
      the pool, whatever their length and contents. An empty result leaves both as they
      came; a capacity for no peer at all is a slice out of range. */
  method PeerListBytes(db: Memory, hash: Hash, numWant: nat, limit: nat, buf4: Slice, buf6: Slice)
    returns (peers4: Slice, peers6: Slice, panicked: bool, ghost ids: seq<PeerID>)
    requires db.Valid() && buf4.arr != buf6.arr
    requires buf4.arr.Length == 6 * limit && buf6.arr.Length == 18 * limit
    requires buf4.len <= buf4.arr.Length && buf6.len <= buf6.arr.Length
    modifies buf4.arr, buf6.arr
    ensures peers4.arr == buf4.arr && peers6.arr == buf6.arr
    ensures peers4.len <= peers4.arr.Length && peers6.len <= peers6.arr.Length
    ensures var some := hash in db.view.swarms && db.view.swarms[hash].peers != map[] && numWant > 0;
            && (panicked <==> some && limit == 0)
            && (!some ==> peers4 == buf4 && peers6 == buf6)
            && (!some ==> peers4.arr[..] == old(buf4.arr[..]) && peers6.arr[..] == old(buf6.arr[..]))
            && (some && limit > 0 ==>
                  var stored := db.view.swarms[hash].peers;
                  && Pass(stored, ids, limit)
                  && Packed(peers4.arr, peers4.len, peers6.arr, peers6.len, stored, ids))
  {
    peers4, peers6, panicked, ids := buf4, buf6, false, [];
    if hash !in db.hashmap {
      return;
    }
    HoldsSwarm(db, hash);
    var swarm := db.hashmap[hash].Peers;
    assert |swarm| == |swarm.Keys| && |db.view.swarms[hash].peers| == |db.view.swarms[hash].peers.Keys|;
    var want := if numWant > |swarm| then |swarm| else numWant;
    if want == 0 {
      return;
    }
    var pos4, pos6;
    pos4, pos6, panicked, ids := PackSwarm(swarm, limit, buf4.arr, buf6.arr, db.view.swarms[hash].peers);
    if panicked {
      return;
    }
    peers4, peers6 := Slice(buf4.arr, pos4), Slice(buf6.arr, pos6);
  }

  /** The buffers hold the contacts of the peers visited so far. */
  ghost predicate Packed(arr4: array<Byte>, pos4: nat, arr6: array<Byte>, pos6: nat,
                         stored: map<PeerID, Entry>, ids: seq<PeerID>)
    requires forall j | 0 <= j < |ids| :: ids[j] in stored
    reads arr4, arr6
  {
    && pos4 == 6 * |Contacts(stored, ids, false)| <= arr4.Length
    && arr4[..pos4] == Compact(Contacts(stored, ids, false))
    && pos6 == 18 * |Contacts(stored, ids, true)| <= arr6.Length && arr6[..pos6] == Compact(Contacts(stored, ids, true))
  }

  method PackSwarm(swarm: map<PeerID, Peer>, limit: nat, arr4: array<Byte>, arr6: array<Byte>,
                   ghost stored: map<PeerID, Entry>)
    returns (pos4: nat, pos6: nat, panicked: bool, ghost ids: seq<PeerID>)
    requires Holds(swarm, stored) && swarm != map[] && arr4 != arr6
    requires arr4.Length == 6 * limit && arr6.Length == 18 * limit
    modifies arr4, arr6
    ensures panicked <==> limit == 0
    ensures !panicked ==> Pass(stored, ids, limit) && Packed(arr4, pos4, arr6, pos6, stored, ids)
  {
    pos4, pos6, panicked, ids := 0, 0, false, [];
    var todo := swarm.Keys;
    PassingStarts(stored, limit);
    while todo != {}
      invariant todo <= swarm.Keys && Passing(stored, ids, todo, limit) && Holds(swarm, stored)
      invariant Packed(arr4, pos4, arr6, pos6, stored, ids)
    {
      var id :| id in todo;
      assert todo - {id} + {id} == todo;
      todo := todo - {id};
      var full;
      pos4, pos6, full, panicked := PackPeer(arr4, pos4, arr6, pos6, swarm[id], limit, stored, ids, todo, id);
      if panicked {
        return;
      }
      ids := ids + [id];
      if full {
        return;
      }
    }
    PassingEnds(stored, ids, limit);
  }

  /** One turn: whether the peer's record did not fit at all, or is the last to fit. */
  method PackPeer(arr4: array<Byte>, pos4: nat, arr6: array<Byte>, pos6: nat, peer: Peer, ghost limit: nat,
                  ghost stored: map<PeerID, Entry>, ghost ids: seq<PeerID>, ghost todo: set<PeerID>, ghost id: PeerID)
    returns (next4: nat, next6: nat, full: bool, panicked: bool)
    requires id in stored && id !in todo && Passing(stored, ids, todo + {id}, limit)
    requires Packed(arr4, pos4, arr6, pos6, stored, ids) && peer.data == stored[id] && arr4 != arr6
    requires arr4.Length == 6 * limit && arr6.Length == 18 * limit
    modifies arr4, arr6
    ensures panicked <==> limit == 0
    ensures !panicked ==> (forall j | 0 <= j < |ids + [id]| :: (ids + [id])[j] in stored)
    ensures !panicked ==> Packed(arr4, next4, arr6, next6, stored, ids + [id])
    ensures !panicked && full ==> Pass(stored, ids + [id], limit)
    ensures !panicked && !full ==> Passing(stored, ids + [id], todo, limit)
  {
    next4, next6, full, panicked := pos4, pos6, false, false;
    ContactsSnoc(stored, ids, id);
    PassingStep(stored, ids, todo, limit, id);
    if peer.data.ip.Is6() {
      next6, full, panicked := PackRecord(arr6, pos6, 18, peer, Contacts(stored, ids, true));
    } else {
      next4, full, panicked := PackRecord(arr4, pos4, 6, peer, Contacts(stored, ids, false));
    }
  }

  /** The same for the peer's own family, whose records have `size` bytes. */
  method PackRecord(arr: array<Byte>, pos: nat, size: nat, peer: Peer, ghost cs: seq<Contact>)
    returns (next: nat, full: bool, panicked: bool)
    requires size == Width(peer.data.ip.Is6()) + 2 && pos <= arr.Length && arr[..pos] == Compact(cs)
    modifies arr
    ensures panicked <==> pos + size > arr.Length
    ensures !panicked ==>
              && next == pos + size <= arr.Length && (full <==> next + size > arr.Length)
              && arr[..next] == Compact(cs + [Contact(peer.data.ip, peer.data.port)])
  {
    next, full, panicked := pos, false, false;
    if pos + size > arr.Length {
      panicked := true;
      return;
    }
    PutRecord(arr, pos, peer, cs);
    next := pos + size;
    full := next + size > arr.Length;
  }

  lemma ContactsSnoc(stored: map<PeerID, Entry>, ids: seq<PeerID>, id: PeerID)
    requires id in stored && forall j | 0 <= j < |ids| :: ids[j] in stored
    ensures var six := stored[id].ip.Is6();
            && Contacts(stored, ids + [id], six) ==
                Contacts(stored, ids, six) + [Contact(stored[id].ip, stored[id].port)]
            && Contacts(stored, ids + [id], !six) == Contacts(stored, ids, !six)
  {
    assert (ids + [id])[..|ids|] == ids;
  }

  /** A pass that has not ended yet. */
  ghost predicate Passing(stored: map<PeerID, Entry>, ids: seq<PeerID>, todo: set<PeerID>, limit: nat) {
    && Visited(ids, todo) && |todo| + |ids| == |stored|
    && (forall j | 0 <= j < |ids| :: ids[j] in stored)
    && (limit == 0 ==> ids == [])
    && (limit > 0 ==> !Full(stored, ids, limit))
  }

  lemma PassingStarts(stored: map<PeerID, Entry>, limit: nat)
    ensures Passing(stored, [], stored.Keys, limit)
  {
    assert |stored| == |stored.Keys|;
  }

  lemma PassingEnds(stored: map<PeerID, Entry>, ids: seq<PeerID>, limit: nat)
    requires Passing(stored, ids, {}, limit) && stored != map[]
    ensures limit > 0 && Pass(stored, ids, limit)
  {
    if ids != [] {
      ContactsSnoc(stored, ids[..|ids| - 1], ids[|ids| - 1]);
      assert ids == ids[..|ids| - 1] + [ids[|ids| - 1]];
    }
  }

  lemma PassingStep(stored: map<PeerID, Entry>, ids: seq<PeerID>, todo: set<PeerID>, limit: nat, id: PeerID)
    requires id in stored && id !in todo && Passing(stored, ids, todo + {id}, limit)
    ensures limit > 0 ==> !Full(stored, ids, limit)
    ensures limit > 0 && Full(stored, ids + [id], limit) ==> Pass(stored, ids + [id], limit)
    ensures limit > 0 && !Full(stored, ids + [id], limit) ==> Passing(stored, ids + [id], todo, limit)
  {
    assert (ids + [id])[..|ids|] == ids;
  }
}
