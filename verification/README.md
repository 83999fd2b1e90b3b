# Verification of the Trakx tracker

Trakx is an in-memory BitTorrent tracker. This Dafny project models its peer database,
its snapshot format, its bencode writer, its HTTP request parser and scrape, and its UDP
side, and proves what these promise about every run and every input. Maps are iterated in
an arbitrary order, a pool hands out any free object or a new one, and clocks, random
connection ids, the interval and the text form of an address are inputs.

`dafny verify dfyconfig.toml` checks everything.

| module | file | what it is about |
|---|---|---|
| Bytes, Storage, Codec | bytes.dfy, storage.dfy, codec.dfy | fixed-width integers and byte orders, addresses, reading from the front of bytes |
| PeerDb, FlatMap, TrimLoop, Agreement, Recount | peerdb.dfy, flat_map.dfy, trim_loop.dfy, agreement.dfy, recount.dfy | one atomic Save, Drop or trim as a function of the whole database; the flat map it refines; why every redundant count agrees |
| GoMap | memory.dfy | the database on the heap, with peers that are recycled through a pool |
| Interleaving, StepInvariant, Serializability | interleaving.dfy, step_invariant.dfy, serializability.dfy | Save, Drop and trim cut into their lock sections and interleaved |
| Snapshot, EncodeBinary, Restart | snapshot.dfy, encode_binary.dfy, restart.dfy | the binary snapshot, its writer and reader on the heap, a restart |
| Bencode, Dictionary, Pools | bencode.dfy, dictionary.dfy, pools.dfy | a decoder for the grammar of BEP 3, the writer over a reused buffer, the pool of writers |
| PeerLists | lists.dfy | full peer lists, and compact ones in buffers of fixed capacity |
| Parser, Scrape | parser.dfy, scrape.dfy | the request parser on one shared buffer, the HTTP scrape from request to reply |
| ConnDb, Wire, UdpTracker | conndb.dfy, wire.dfy, udptracker.dfy | the connection table, the messages of BEP 15, the dispatch |

The main results:

- Every run of Save, Drop and trim refines one flat map of peers, and at its end every
  counter, total and per-address count agrees with that map, with the wrap-around of
  `uint16` and `int16` spelled out (`Agreement.RunRefines`). The methods of
  `GoMap.Memory` do to the heap exactly what these operations say, and no peer object is
  ever in two places.
- Interleaved saves and drops of different peers, of one swarm or of several, and visits of
  a trim to other swarms end exactly as if run one after another, in the order in which
  they came to the address table (`Serializability.Serializable`).
- A snapshot in any iteration order restores the database, and a cut one loads only when
  the cut falls between two hashes (`Snapshot.SnapshotRoundTrip`,
  `Snapshot.TruncatedSnapshot`). A restart changes nothing in the database if and only if `Total` was right;
  else the run after it differs in the address table alone, until each address that was
  missed has changed its number of peers (`Restart.RestartRepairs`,
  `Restart.RunsAfterRestart`).
- What the bencode writer leaves is one whole value exactly when its calls are properly
  nested, and then it is the dictionary of those calls (`Dictionary.Recovery`).
- Decoding escapes in place is a one-pass decoder that takes back every
  percent-encoding; a request of up to 45 parameters comes back unescaped, and a scrape
  of such a request is answered with one entry of counts per infohash
  (`Parser.RequestRoundTrip`, `Scrape.ScrapeEndToEnd`).
- With validation on, a UDP request reaches the peer database if and only if its
  connection id was issued to its address and has not been ended since
  (`UdpTracker.ConnectionSafety`).

Where the code departs from its comments or from the standard, the model follows the code:

- `PeerListBytes` uses `numWant` only to tell zero from the rest; the capacity of its
  buffers is the real cap. It gives up as soon as either family's buffer is full. For an
  unknown hash or `numWant` 0 it returns a recycled buffer as it is.
- `IpStats.Total` misses an address from the moment at which its number of peers falls to
  a positive multiple of 65536, by a drop, a trim or a save that moves a peer to another
  address, until that number changes again. `Recount.OpMisses` and
  `Recount.TotalStaysRight` say so for one operation, `Recount.RunMisses` and
  `Recount.TotalAfterRun` for whole runs, always as an if-and-only-if on the flat map;
  `Recount.TotalCanFallShort` gives a run in which it happens.
- A restart repairs `IpStats.Total`, so `Total` may jump: `Restart.RestartShows` gives a
  run after which it is 0 before a restart and 1 after it.
- The snapshot reader accepts an id or a hash that occurs twice. The counters of a swarm
  then agree with its peers if and only if the number of records that overwrite a complete
  peer is a multiple of 65536 (`Snapshot.RebuiltAgrees`). Of two blocks with one hash the
  last counts, with its own counters. The peer total that the reader returns is exact if
  and only if no block has an id twice or has a peer that a later block of its hash
  replaces, the hash total if and only if the hashes differ (`Snapshot.LastBlockCounts`,
  `Snapshot.PeerTotalExact`, `Snapshot.HashTotalExact`).
- A UDP scrape reply has its fields behind as many zero bytes, so a client finds its
  transaction id only if that is zero (`Wire.ScrapeReplyEcho`).
- `Announce.Unmarshall` never reports an error; `process` checks the length before it.
- The dictionary does not sort its keys, and the decoder here does not ask for it.
- `parse` searches the whole buffer for its landmarks, stale bytes included.
- The binary connection table counts in 32 bits and restores exactly the tables that have
  fewer entries than that (`ConnDb.TableRoundTrip`).

## Model

| member | source | states |
|---|---|---|
| FlatMap.ApplyRefines | tracker/storage/map/peer.go:12-159 | every atomic Save, Drop, trim or visit of a trim to one swarm does to one flat map (hash, id) -> peer just what its name says: set a slot, clear a slot, clear the expired slots (of one hash) and forget the hashes left without a peer |
| FlatMap.KnownAfterTrim | tracker/storage/map/memory.go:95-115 | a trim leaves exactly the peers outside its order, and as hashes exactly those that still have a peer |
| Agreement.ApplyAgrees | tracker/storage/map/peer.go:36-114 | one operation keeps every redundant count in agreement with the peers: swarm counters mod 2^16, seed and leech totals, reference counts per address mod 2^16 |
| Agreement.RunRefines | tracker/storage/map/peer.go:12-159 | after any run the database is the flat map that the run of simple operations gives, and all redundant counts agree with it |
| Agreement.HashStatsExact | tracker/storage/map/hash.go:17-31 | in every reachable state HashStats returns the numbers of complete and incomplete peers mod 2^16, and zeros for an absent hash |
| Agreement.NothingExpiredAfterTrim | tracker/storage/map/memory.go:99-104 | after a trim no peer is older than the expiry at that clock |
| Agreement.TrimIdempotent | tracker/storage/map/memory.go:90-119 | a second trim at the same time meets no peer and changes nothing |
| TrimLoop.SweepStep | tracker/storage/map/memory.go:99-104 | one turn of the inner loop, in any order, keeps it that exactly the expired peers met so far are gone |
| TrimLoop.TrimStep | tracker/storage/map/memory.go:95-115 | one turn of the outer loop, in any order, keeps it that exactly the visited swarms without a peer are gone and the others are untouched |
| PeerDb.SaveInStages | tracker/storage/map/peer.go:32-91 | slot and counters first, then metrics, then the peer's own fields make one Save, whatever a recycled peer object still held |
| Recount.TotalExact | tracker/stats/stats_slow.go:18-40 | Total falls short of the number of live addresses by exactly the lost ones, and only an address with a positive multiple of 65536 peers can be lost |
| Recount.TotalOverRuns | tracker/stats/stats_slow.go:18-40 | in every reachable state where no address has more than 65535 peers, Total is the number of distinct live addresses, although the stored counts wrap past 32767 |
| Recount.OpMisses | tracker/stats/stats_slow.go:18-40 | after any operation Total misses an address if and only if its number of peers in the flat map has fallen to a positive multiple of 65536, or is unchanged and the address was missed before |
| Recount.TotalStaysRight | tracker/stats/stats_slow.go:18-40 | while Total is right, an operation keeps it right if and only if it lets no address fall to a positive multiple of 65536 peers; the flat map before the call decides it |
| Recount.RunMisses | tracker/stats/stats_slow.go:18-40 | after any run Total misses exactly the addresses whose number of peers last changed by such a fall |
| Recount.TotalAfterRun | tracker/stats/stats_slow.go:18-40 | so Total is the number of distinct live addresses at the end of a run if and only if there is no such address |
| Recount.TotalCanFallShort | tracker/stats/stats_slow.go:35-40 | a run of 65537 saves and one drop after which an address with 65536 peers is missing |
| Recount.SyncEstablishes | tracker/storage/map/expvar.go:13-28 | counting all peers into an empty table makes totals and reference counts agree with them |
| Recount.IncrementalEqualsRecount | tracker/storage/map/expvar.go:13-28 | after any run the metrics kept up to date by hand are those that a recount of the final map gives; the address tables differ at most in addresses with a positive multiple of 65536 peers |
| GoMap.PeerPool.Get | pools/pool.go:29-31 | hands out any free peer object, which then is no longer in the pool, or a new one |
| GoMap.PeerPool.Put | pools/pool.go:33-38 | the object is in the pool once more than before |
| GoMap.IpStats.Total | tracker/stats/stats_slow.go:18-20 | the number of entries of the table |
| GoMap.IpStats.Inc | tracker/stats/stats_slow.go:26-28 | the count of the address grows by one in 16 signed bits, a missing one from 0 |
| GoMap.IpStats.Remove | tracker/stats/stats_slow.go:35-40 | the count of the address falls by one in 16 signed bits and its entry goes when that gives 0 |
| GoMap.Memory.constructor | tracker/storage/map/memory.go:37-40 | an empty database over the given pool and statistics, whose pooled objects belong to no slot |
| GoMap.Memory.Make | tracker/storage/map/memory.go:63-65 | no swarm is left; the metrics stay as they are |
| GoMap.Memory.MakePeermap | tracker/storage/map/memory.go:67-73 | the hash has an empty swarm with zero counters, every other swarm is as before |
| GoMap.Memory.Save | tracker/storage/map/peer.go:12-92 | on the heap: the whole database becomes what one Save makes of it, and nothing but its own objects changes |
| GoMap.Memory.SaveInto | tracker/storage/map/peer.go:30-91 | with the peer object at hand, pooled or stored, its stale fields leave no trace |
| GoMap.CountSave | tracker/storage/map/peer.go:37-53 | the swarm's counters lose the peer as it was and gain it as it reports, mod 2^16 |
| GoMap.MeterSave | tracker/storage/map/peer.go:56-85 | the totals lose the peer as it was and gain it as it reports; the count moves from its old address to its new one |
| GoMap.Memory.Drop | tracker/storage/map/peer.go:120-159 | on the heap: one Drop, which changes nothing for an unknown hash or id |
| GoMap.Memory.Delete | tracker/storage/map/peer.go:95-117 | on the heap: removes a stored peer from its swarm, the counters and the metrics, and gives its object to the pool |
| GoMap.Memory.Release | tracker/storage/map/peer.go:116 | the removed object, which no slot holds, joins the pool |
| GoMap.Memory.Ownership | tracker/storage/map/peer.go:32-35 | no peer object is in two slots, in a slot and the pool, or in the pool twice |
| GoMap.Memory.HashStats | tracker/storage/map/hash.go:17-31 | the stored counters of the hash, or zeros |
| GoMap.Memory.TrimSwarm | tracker/storage/map/memory.go:98-106 | the inner loop drops exactly the expired peers of the swarm and returns how many |
| GoMap.Memory.TrimTurn | tracker/storage/map/memory.go:95-113 | one turn of the outer loop, which removes the swarm if no peer is left |
| GoMap.Memory.Trim | tracker/storage/map/memory.go:90-119 | on the heap: exactly the expired peers and then exactly the empty swarms are gone; the results are the exact numbers of both |
| GoMap.Memory.SyncExpvars | tracker/storage/map/expvar.go:8-31 | totals become the numbers of complete and incomplete peers, and each address gains its number of peers |
| GoMap.Memory.CountAll | tracker/storage/map/expvar.go:13-25 | the nested loops count every peer once, in any order |
| StepInvariant.NextKeepsInv | tracker/storage/map/peer.go:12-159 | every lock section or unlocked update of a save, a drop or a trim's visit keeps the invariant that ties shared memory and the operations in progress to the atomic database; each operation accounts for its own slot, so those on different peers of one swarm may overlap |
| Serializability.Serializable | tracker/storage/map/peer.go:12-159 | any interleaving of saves, drops and a trim's visits to single swarms, with at most one of them in progress per peer and a visit or an operation that finds no swarm alone on its infohash, ends with exactly the database, address table included, of the same operations run one after another in the order of their IPStats sections, or of the step that skips that section; a visit counts as its single drops and its end |
| Serializability.AddressesOverRuns | tracker/stats/stats_slow.go:18-40 | in every state on the way, operations in progress or not, the address table is that of the operations that have come to it so far |
| Serializability.VisitIsWhole | tracker/storage/map/memory.go:98-113 | single drops, each of a peer that is expired when the loop meets it, and an end at which none is left are together one visit to the swarm, whose order lists exactly the peers that were expired before |
| Serializability.SweepsMakeTrim | tracker/storage/map/memory.go:95-115 | visits to all swarms, one after another in any order, make up one trim |
| Serializability.OrderKept | tracker/storage/map/peer.go:12-159 | in that order the operations on one peer, and the visits to one swarm, stand as they were asked for; none is lost or repeated, and only one still in progress may be missing |
| Serializability.LinearGrows | tracker/storage/map/peer.go:12-159 | the order only grows at its end, so an operation that ends before another starts stands before it |
| Serializability.OwnershipOverRuns | tracker/storage/map/peer.go:116-158 | in every state of an interleaved run each peer object is in one slot, in the hands of one drop or visit, or in the pool, never in two of these |
| Serializability.TwoSavesOfOnePeer | tracker/storage/map/peer.go:25-54 | outside these bounds: two saves of one peer that both find no peer always leave counters that disagree with the peers |
| Serializability.VisitMeetsUnfilled | tracker/storage/map/memory.go:98-103 | outside these bounds: a visit that removes a peer whose recycled object a save has not filled yet leaves counters that disagree with the peers if the object's completion is not that of the save |
| Snapshot.PeerInverts | tracker/storage/map/encode_binary.go:92-121 | a peer record reads back as written, whatever follows it |
| Snapshot.RebuiltIsStored | tracker/storage/map/encode_binary.go:124-131 | the counters that the reader rebuilds are those of a swarm whose counters agreed with its peers |
| Snapshot.CompletesOfRecords | tracker/storage/map/encode_binary.go:90-127 | the complete records that the reader counts are the complete peers it stores and the records that overwrite a complete peer |
| Snapshot.RebuiltAgrees | tracker/storage/map/encode_binary.go:90-131 | for any list of records, ids repeated or not, the rebuilt counters agree with the peers if and only if the number of records that overwrite a complete peer is a multiple of 65536 |
| Snapshot.SameIdTwice | tracker/storage/map/encode_binary.go:90-131 | two records of one id rebuild counters that agree if and only if the first is not complete |
| Snapshot.PeersCounted | tracker/storage/map/encode_binary.go:90-128 | a block stores as many peers as it has records if and only if their ids differ |
| Snapshot.LastBlockCounts | tracker/storage/map/encode_binary.go:83-132 | of the blocks with one hash the last one is stored, with its own peers and counters |
| Snapshot.PeerTotalExact | tracker/storage/map/encode_binary.go:72-134 | the peer total that the reader returns is never too small, and it is the number of stored peers if and only if no block has an id twice or a peer that a later block of its hash replaces |
| Snapshot.HashTotalExact | tracker/storage/map/encode_binary.go:72-134 | the hash total is never too small, and it is the number of stored hashes if and only if the hashes differ |
| Snapshot.DecodeOfEncode | tracker/storage/map/encode_binary.go:68-137 | a whole snapshot yields its blocks, the totals and no error |
| Snapshot.SnapshotRoundTrip | tracker/storage/map/encode_binary.go:15-137 | whatever the iteration order, the same hashes (empty ones too), peers and counters come back, with the exact peer and hash totals, for fewer than 2^32 peers per hash |
| Snapshot.TruncatedSnapshot | tracker/storage/map/encode_binary.go:72-134 | a prefix of a snapshot loads without an error if and only if the cut falls between two blocks, and then yields exactly the blocks before it |
| EncodeBinary.Encode | tracker/storage/map/encode_binary.go:15-66 | the bytes are the format of a listing of all swarms and their peers, each once |
| EncodeBinary.EncodeSwarm | tracker/storage/map/encode_binary.go:23-54 | one block, with each peer of the swarm once |
| EncodeBinary.EncodePeers | tracker/storage/map/encode_binary.go:33-54 | the peer loop writes each peer of the swarm once, in any order |
| EncodeBinary.ReadEntry | tracker/storage/map/encode_binary.go:98-120 | the fields of a peer in their order, or the first failure |
| EncodeBinary.DecodePeers | tracker/storage/map/encode_binary.go:90-127 | the peer loop fills the swarm with the records before the first failure and counts the complete ones mod 2^16 |
| EncodeBinary.DecodeSwarm | tracker/storage/map/encode_binary.go:83-131 | a whole block gives its swarm with the rebuilt counters; one that breaks off leaves its peers so far and zero counters |
| EncodeBinary.Decode | tracker/storage/map/encode_binary.go:68-137 | on the heap: the table, the totals and the error are those of the format, with every peer in an object of its own |
| Restart.RestartRepairs | tracker/storage/map/expvar.go:8-31 | for fewer than 2^32 peers per hash, a snapshot that is loaded and synchronised restores the swarms with their counters, both totals and every count per address, makes Total right, and is the same database if and only if Total was right before |
| Restart.RestartHappens | tracker/storage/map/encode_binary.go:15-137 | every database whose counts agree and whose swarms stay below 2^32 peers has such a snapshot and such a restart |
| Restart.MissedInBoth | tracker/stats/stats_slow.go:18-40 | of two databases that differ in their address tables, after the same run the one that missed an address misses it if and only if the other does, or the number of its peers never changed |
| Restart.RunsAfterRestart | tracker/storage/map/expvar.go:8-31 | after a restart the same operations are possible as without it and give the same swarms, counters, totals and counts per address; the databases are equal at the end if and only if each address that was missed before the restart has changed its number of peers on the way |
| Restart.RestartShows | tracker/stats/stats_slow.go:18-40 | after 65537 saves from one address and one drop Total is 0, and 1 after any restart there |
| Restart.RestartCanShow | tracker/stats/stats_slow.go:18-40 | and there is such a restart |
| Bencode.DecimalBack | bencoding/dictionary.go:51-53 | the decimal form of a number reads back as that number |
| Bencode.ParseOfEncode | bencoding/dictionary.go:40-93 | a decoder for the grammar of BEP 3 reads every encoded value back, whatever follows it |
| Bencode.ParseSound | bencoding/dictionary.go:40-93 | that decoder accepts nothing but encodings, so it is no laxer than the writer |
| Bencode.PrefixFree | bencoding/dictionary.go:40-93 | no encoding is a proper prefix of another |
| Dictionary.NestedRecovers | bencoding/dictionary.go:40-93 | properly nested writer calls read back as exactly their entries in order, with nothing left over |
| Dictionary.Recovery | bencoding/dictionary.go:60-93 | the closed buffer is one whole value if and only if the calls are properly nested |
| Dictionary.UnclosedFails | bencoding/dictionary.go:60-83 | with a dictionary left open the bytes are no value |
| Dictionary.OverclosedLeavesRest | bencoding/dictionary.go:80-83 | with one EndDictionary too many bytes are left over |
| Dictionary.Dictionary.constructor | bencoding/dictionary.go:18-23 | a new writer holds just the opening byte, in a buffer of its own |
| Dictionary.Dictionary.Write | bencoding/dictionary.go:25-31 | append: the text stands behind what was there, in the old buffer or in a new one |
| Dictionary.Dictionary.Reset | bencoding/dictionary.go:34-37 | nothing of the earlier entries is left |
| Dictionary.Dictionary.String | bencoding/dictionary.go:40-42 | the entry of a key and a string stands behind what was there |
| Dictionary.Dictionary.StringBytes | bencoding/dictionary.go:45-48 | the same entry as String writes |
| Dictionary.Dictionary.Int64 | bencoding/dictionary.go:51-53 | the entry of a key and a number, for every int64 |
| Dictionary.Dictionary.Dictionary | bencoding/dictionary.go:56-58 | a key and any text as its value; if the text is an encoded value, that entry |
| Dictionary.Dictionary.StartDictionary | bencoding/dictionary.go:62-78 | a key and an inner dictionary, still open |
| Dictionary.Dictionary.EndDictionary | bencoding/dictionary.go:81-83 | the end of the innermost dictionary |
| Dictionary.Dictionary.BytesliceSlice | bencoding/dictionary.go:86-93 | the entry of a key and a list of strings |
| Dictionary.Dictionary.GetBytes | bencoding/dictionary.go:151-156 | the closed dictionary, in the writer's own buffer |
| Dictionary.Dictionary.Get | bencoding/dictionary.go:143-148 | the closed dictionary, as a copy |
| Pools.DictionaryPool.Get | pools/pool.go:29-31 | the writer is empty and shares its buffer with no writer in the pool |
| Pools.DictionaryPool.Put | pools/pools.go:35-39 | the writer is emptied before it joins the pool |
| PeerLists.PeerEntryDecodes | tracker/storage/map/hash.go:58-64 | an entry of a full list decodes to the id (unless left out), the address text and the port of its peer |
| PeerLists.ListPeer | tracker/storage/map/hash.go:57-68 | one turn adds the entry of one peer in memory of its own and leaves the earlier entries as they were, although the writer's buffer is reused |
| PeerLists.ListSwarm | tracker/storage/map/hash.go:57-74 | the loop lists as many different peers as wanted, in any order |
| PeerLists.PeerList | tracker/storage/map/hash.go:34-80 | exactly min(numWant, number of peers) entries, for different peers, each with its peer's fields; the writer goes back to the pool empty |
| PeerLists.CompactDecodes | tracker/storage/map/hash.go:106-121 | a client reads the 6- or 18-byte records back as the listed contacts, in order, and nothing else |
| PeerLists.CompactLength | tracker/storage/map/hash.go:106-121 | 6 or 18 bytes per contact |
| PeerLists.PackRecord | tracker/storage/map/hash.go:106-120 | within the capacity, address and big-endian port stand behind the records of the same family |
| PeerLists.PackPeer | tracker/storage/map/hash.go:105-121 | one turn stays within the capacity, puts the record behind the others of its family, and tells whether either buffer is now full |
| PeerLists.PackSwarm | tracker/storage/map/hash.go:104-121 | the loop slices out of range only if the capacity is for no peer at all; else it has packed a pass over the swarm up to its end or a full buffer |
| PeerLists.PeerListBytes | tracker/storage/map/hash.go:83-128 | two compact lists of different stored peers by family, whatever was in the recycled buffers; for an absent hash, an empty swarm or numWant 0 both buffers come back unchanged |
| PeerLists.PassWithinLimit | tracker/storage/map/hash.go:110-120 | at most limit records of each family |
| PeerLists.PassIsComplete | tracker/storage/map/hash.go:104-121 | every peer is listed when the swarm has at most limit peers or each family has fewer than limit |
| PeerLists.PassMayLeaveOut | tracker/storage/map/hash.go:110-120 | in every other case some order of the swarm leaves a peer out |
| PeerLists.ListedWhateverTheOrder | tracker/storage/map/hash.go:104-121 | both directions: no order leaves a peer out if and only if that guard holds |
| Parser.FromHexChar | tracker/http/parser.go:116-127 | the value whose digit, in either case, the byte is; 0 for a byte that is no hex digit |
| Parser.UnescapeAppend | tracker/http/parser.go:131-160 | decoding goes from left to right in one pass: what is decoded is never looked at again |
| Parser.FailsIffCutEscape | tracker/http/parser.go:134-140 | decoding fails if and only if an escape lacks one of its two bytes; where escapes begin is said without the decoder |
| Parser.UnescapeOfEncoding | tracker/http/parser.go:131-160 | decoding takes back every percent-encoding of every byte string |
| Parser.ShiftLeft | tracker/http/parser.go:148-151 | the bytes behind the escape move left by two, all others stay |
| Parser.UnescapeAt | tracker/http/parser.go:142-155 | one escape becomes its byte, followed by the bytes that were behind the escape |
| Parser.UnescapeSlice | tracker/http/parser.go:131-160 | in place, the slice becomes what the one-pass decoder makes of it, or the failure is found; no byte outside changes; the loop ends although its bound shrinks |
| Parser.UnescapeFast | tracker/http/parser.go:131-160 | the same for a slice that may be nil, which stays nil |
| Parser.JoinOfPieces | tracker/http/parser.go:80-89 | the pieces joined by '&' are the query |
| Parser.PiecesArePlain | tracker/http/parser.go:80-89 | no piece holds an '&' |
| Parser.PiecesOfJoin | tracker/http/parser.go:80-89 | there is no other way to split a query |
| Parser.CutsArePieces | tracker/http/parser.go:80-89 | the positions that the loop cuts at hold the pieces |
| Parser.SplitQuery | tracker/http/parser.go:80-93 | the first loop finds the first min(k, 45) pieces of k, with none for a last piece that is empty |
| Parser.DecodedStep | tracker/http/parser.go:95-102 | decoding one parameter changes no other |
| Parser.DecodeParam | tracker/http/parser.go:95-102 | one turn decodes its parameter in place and leaves the others; nil or a bad escape ends the loop |
| Parser.DecodeParams | tracker/http/parser.go:95-102 | the kept pieces are decoded in place and nothing outside the query changes; it fails exactly on a bad escape in a kept piece or an empty last piece that is kept |
| Parser.Index | tracker/http/parser.go:44-50 | the first occurrence, or -1 if there is none |
| Parser.Parse | tracker/http/parser.go:33-112 | no slice is out of bounds for any buffer and size; a request that starts with R0VU is decoded from base64 in place first, with an error of its own; else accepts exactly the texts with landmarks in order and a good query; the slices hold path, method and decoded parameters |
| Parser.ParsePlain | tracker/http/parser.go:44-111 | the same for the first n bytes of the buffer, without the base64 step |
| Parser.ServedPath | tracker/http/parser.go:44-109 | when the method reads GET after parsing, the path is not empty, starts with '/', and is exactly the request target before its first '?' |
| Parser.RequestRoundTrip | tracker/http/parser.go:33-112 | from a request with up to 45 parameters, percent-encoded in any way, come back the path and each parameter as it was |
| Scrape.ScrapeRecovers | tracker/http/scrape.go:14-43 | the reply body decodes to one entry of counts per requested hash, in order, and nothing is left over |
| Scrape.ScrapeTellsTheTruth | tracker/http/scrape.go:26-34 | after any run of the database the decoded counts are the numbers of complete and incomplete peers mod 2^16 |
| Scrape.FailureRecovers | tracker/http/error.go:12-19 | the error body decodes to its failure reason |
| Scrape.Scrape | tracker/http/scrape.go:11-45 | the reply for any parameters, whatever replies the pooled writers served before; the pool stays clean, also when a bad infohash ends the loop |
| Scrape.WriteFiles | tracker/http/scrape.go:15-38 | the open dictionary and one entry per infohash, or false at the first infohash that has not 20 bytes |
| Scrape.WriteErr | tracker/http/error.go:12-19 | the reply holds just the reason |
| Scrape.ServeScrape | tracker/http/worker.go:138-154 | strips the keys of the parameters; an error if there is no infohash among them |
| Scrape.ScrapeEndToEnd | tracker/http/worker.go:138-154 | a client that asks for up to 45 infohashes, percent-encoded in any way, decodes one entry of counts for each, in the order of its request |
| ConnDb.ConnectionDatabase.Add | tracker/udp/conndb.go:46-53 | the address has this id and time, every other entry is as before |
| ConnDb.ConnectionDatabase.Check | tracker/udp/conndb.go:55-64 | true exactly when the table holds the id for the address, with any time |
| ConnDb.ConnectionDatabase.Trim | tracker/udp/conndb.go:67-81 | exactly the entries more than expiry seconds old go, in any order of visits |
| ConnDb.ConnectionDatabase.MarshallBinary | tracker/udp/conndb.go:144-175 | the bytes are the format of a listing of the table, each entry once, in any order |
| ConnDb.ConnectionDatabase.UnmarshallBinary | tracker/udp/conndb.go:177-213 | the table and the error are those of the format; an error leaves the entries before it |
| ConnDb.RecordInverts | tracker/udp/conndb.go:152-167 | a record reads back as written, whatever follows it |
| ConnDb.TableRoundTrip | tracker/udp/conndb.go:144-213 | whatever the iteration order, the table comes back if and only if it has fewer than 2^32 entries |
| ConnDb.TruncatedTable | tracker/udp/conndb.go:181-210 | a table that is cut anywhere does not load |
| Wire.AnnounceRoundTrip | tracker/udp/protocol/announce.go:30-46 | an announce is 98 bytes and reads back for all field values |
| Wire.AnnounceLayout | tracker/udp/protocol/announce.go:12-27 | each field of an announce stands at the offset that BEP 15 gives for it, big-endian |
| Wire.HeadLayout | tracker/udp/protocol/connect.go:15-19 | each field of a connect stands at the offset that BEP 15 gives for it |
| Wire.ReplyLayout | tracker/udp/protocol/announce.go:49-56 | each field of the connect, announce and error replies stands at the offset that BEP 15 gives for it |
| Wire.HeadInverts | tracker/udp/protocol/connect.go:22-38 | a connect reads back for all field values |
| Wire.ConnectReplyRoundTrip | tracker/udp/protocol/connect.go:48-64 | a connect reply reads back for all field values |
| Wire.AnnounceReplyRoundTrip | tracker/udp/protocol/announce.go:59-109 | an announce reply reads back for all field values and any peers |
| Wire.ErrorRoundTrip | tracker/udp/protocol/error.go:18-50 | an error reads back for all field values and any text |
| Wire.HeadFields | tracker/udp/udptracker.go:134-135 | the bytes 12..16 of a request are the encoding of its transaction id, the first 8 that of its connection id |
| Wire.ScrapeReplyEcho | tracker/udp/protocol/scrape.go:55-69 | the bytes 4..8 of a scrape reply are its transaction id if and only if that is zero |
| Wire.Announce.Marshall | tracker/udp/protocol/announce.go:30-37 | 98 bytes that read back as the fields, with nothing left over |
| Wire.Announce.Unmarshall | tracker/udp/protocol/announce.go:40-46 | the fields of the format from 98 bytes or more; less leaves the receiver unchanged |
| Wire.Connect.Marshall | tracker/udp/protocol/connect.go:22-29 | 16 bytes that read back as the fields, with nothing left over |
| Wire.Connect.Unmarshall | tracker/udp/protocol/connect.go:32-38 | the fields from 16 bytes or more; less is an error and leaves the receiver unchanged |
| Wire.ConnectResp.Marshall | tracker/udp/protocol/connect.go:48-55 | 16 bytes that read back as the fields, with nothing left over |
| Wire.ConnectResp.Unmarshall | tracker/udp/protocol/connect.go:58-64 | the fields from 16 bytes or more; less is an error and leaves the receiver unchanged |
| Wire.AnnounceResp.Marshall | tracker/udp/protocol/announce.go:59-82 | the fields written one by one make 20 bytes and the peers, which read back as the fields |
| Wire.AnnounceResp.Unmarshall | tracker/udp/protocol/announce.go:85-109 | the fields read one by one are those of the format; panics exactly below 20 bytes |
| Wire.Error.Marshall | tracker/udp/protocol/error.go:18-32 | the fields written one by one make 8 bytes and the text, which read back as the fields |
| Wire.Error.Unmarshall | tracker/udp/protocol/error.go:35-50 | the fields read one by one are those of the format; panics exactly below 8 bytes |
| UdpTracker.InfohashesOfRequest | tracker/udp/protocol/scrape.go:20-38 | a scrape request reads back as the hashes that were put into it; an incomplete one at the end is ignored |
| UdpTracker.ReplyEchoes | tracker/udp/udptracker.go:131-187 | every reply to a connect or an announce and every error carries the request's bytes 12..16 as its bytes 4..8; a scrape reply only for a zero id |
| UdpTracker.TableIsGranted | tracker/udp/conndb.go:46-81 | over any run the table holds exactly the entries that were issued and that no later connect, loaded table or trim has ended |
| UdpTracker.ConnectionSafety | tracker/udp/udptracker.go:155-170 | with validation on, a request reaches the peer database if and only if it is in order and its id was issued to its address, with no later connect from there and no later trim more than expiry seconds after its time stamp |
| UdpTracker.OthersChangeNothing | tracker/udp/udptracker.go:131-198 | with validation on, a datagram changes the peer database only if it is in order and its connection id was issued to its address and not ended since |
| UdpTracker.RunsThePeerDatabase | tracker/udp/announce.go:29-56 | every run of the tracker, with trims of the peers between its datagrams, does to the flat map of peers what its announces and trims say, and keeps all redundant counts in agreement |
| UdpTracker.UDPTracker.Process | tracker/udp/udptracker.go:131-198 | on the heap: connections, peer database and reply after one datagram; the peers in the reply are different stored peers of the client's own family, or for a numwant of 0 what the recycled buffer held; it panics only on a joining announce with room for no peer |
| UdpTracker.UDPTracker.CheckConnection | tracker/udp/udptracker.go:165-170 | an unknown connection id is refused, and only if ids are validated; the peer database is then as before |
| UdpTracker.UDPTracker.Dispatch | tracker/udp/udptracker.go:172-197 | an announce of less than 98 bytes is refused; an action that is neither announce nor scrape gets no reply |
| UdpTracker.UDPTracker.ServeAnnounce | tracker/udp/announce.go:14-90 | a port of 0 is refused, a stopped event drops the peer, anything else saves it and lists others |
| UdpTracker.UDPTracker.Leave | tracker/udp/announce.go:29-49 | the peer is dropped and the reply has -1 for interval and counts |
| UdpTracker.UDPTracker.Join | tracker/udp/announce.go:51-89 | the peer is saved before the counts and the list of the reply are taken; for a numwant of 0 the list is what the recycled buffer held |
| UdpTracker.UDPTracker.Fail | tracker/udp/error.go:12-37 | the error reply carries the transaction id of the request |
| UdpTracker.UDPTracker.ClampNumWant | tracker/udp/announce.go:23-27 | a wish between 1 and the limit stays; the result is within the limit if and only if the wish is at least 1 or the default is within it; nothing else in the announce changes |
| UdpTracker.UDPTracker.ListFor | tracker/udp/announce.go:59-77 | the compact list of the client's own family; for a numwant of 0 what the recycled buffer held |
| UdpTracker.UDPTracker.DoConnect | tracker/udp/connect.go:12-32 | the new id is stored for the address and sent back |
| UdpTracker.UDPTracker.DoScrape | tracker/udp/scrape.go:10-48 | one entry of counts per hash, or an error above 74 hashes |

## Left out

- GoMap.PeerMap: a value in the table instead of an object that the table points to; the table is its only owner in the source too, but a reader that keeps the pointer across an update is not modelled.
- Locks on the heap: the methods of `GoMap.Memory` are atomic. Their lock sections are the steps of `Interleaving`.
- Serializability.Serializable: not for operations that overlap on one peer, for two operations that overlap on an infohash without a swarm, and for a trim's visit that overlaps with anything on its infohash. There the code does lose agreement: two saves of one peer can both enter it (`Serializability.TwoSavesOfOnePeer`), the second of two saves that make the swarm and the late removal of a swarm that a visit had left empty discard the peers entered since (`Serializability.MakeAndVanishLosePeers`), and a visit can meet a recycled object that a save has not filled yet (`Serializability.VisitMeetsUnfilled`). Which of the other overlaps there are harmless is not said.
- Reads (`HashStats`, peer lists) and snapshots while operations are in progress.
- PeerLists.PeerListBytes: says nothing about a cap by `numWant`, because the code has none.
- The zero `netip.Addr`, IPv6 zones, and the text form of an address, which `PeerLists.PeerList` takes as a function.
- Parser.Parse: base64 decoding itself is a parameter, of which only the length bound is used; what a failed decoding leaves in the buffer is not said.
- UdpTracker.UDPTracker.Process: the branch for a remote address of neither 4 nor 16 bytes, which the socket never delivers and after which the code goes on with the zero address.
- The HTTP announce handler, forwarded addresses, status replies and embedded files.
- `Dictionary.Any` and the helpers behind it, which work by reflection.
- The shared backing array of the HTTP success header, to which replies are appended.
- `sync.Pool` dropping objects in a garbage collection; a pooled object may stay unused here for ever, which covers it.
- gob encoding of the connection table, files, Postgres, configuration, logging, expvar publishing, sockets and goroutines.
- The `fast` and `heroku` build variants.
