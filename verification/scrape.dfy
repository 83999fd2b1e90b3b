/** The HTTP scrape: one dictionary of counts per requested infohash. */
module Scrape {
  import opened Bytes
  import opened Storage
  import opened PeerDb
  import opened FlatMap
  import opened Agreement
  import opened Bencode
  import opened Dictionary
  import opened Pools
  import opened GoMap
  import opened Parser

  const FAILURE := Ascii("failure reason")
  const INVALID := Ascii("invalid infohash")
  const COMPLETE := Ascii("complete")
  const INCOMPLETE := Ascii("incomplete")
  const FILES := Ascii("files")
  const SUCCESS := Ascii("HTTP/1.1 200\r\n\r\n")

  predicate WellFormed(infohashes: seq<Option<Text>>) {
    forall i | 0 <= i < |infohashes| && infohashes[i].Some? :: |infohashes[i].value| == 20
  }

  /** The requested hashes, in order; a parameter without an infohash is None. */
  function Requested(infohashes: seq<Option<Text>>): seq<Hash>
    requires WellFormed(infohashes)
  {
    if infohashes == [] then []
    else
      var n := |infohashes| - 1;
      Requested(infohashes[..n]) + if infohashes[n].Some? then [Hash(infohashes[n].value)] else []
  }

  // ---------- The calls of the writer ----------

  function CountCalls(db: Db, hash: Hash): seq<Call> {
    var (complete, incomplete) := PeerDb.HashStats(db, hash);
    [Open(hash.bytes), Call.Int64(COMPLETE, complete), Call.Int64(INCOMPLETE, incomplete), Close]
  }

  function FileCalls(db: Db, hashes: seq<Hash>): seq<Call> {
    if hashes == [] then [Open(FILES)]
    else FileCalls(db, hashes[..|hashes| - 1]) + CountCalls(db, hashes[|hashes| - 1])
  }

  /** The calls for the first `i` parameters, none of which is bad. */
  ghost predicate Filed(db: Db, infohashes: seq<Option<Text>>, i: nat, calls: seq<Call>) {
    i <= |infohashes| && WellFormed(infohashes[..i]) && calls == FileCalls(db, Requested(infohashes[..i]))
  }

  lemma FiledNothing(db: Db, infohashes: seq<Option<Text>>)
    ensures Filed(db, infohashes, 0, [Open(FILES)])
  {
    assert infohashes[..0] == [];
  }

  lemma FiledAll(db: Db, infohashes: seq<Option<Text>>, calls: seq<Call>)
    requires Filed(db, infohashes, |infohashes|, calls)
    ensures WellFormed(infohashes) && calls == FileCalls(db, Requested(infohashes))
  {
    assert infohashes[..|infohashes|] == infohashes;
  }

  /** One more parameter: its hash, if it has one, comes last. */
  lemma FiledNext(db: Db, infohashes: seq<Option<Text>>, i: nat, calls: seq<Call>)
    requires Filed(db, infohashes, i, calls) && i < |infohashes|
    ensures infohashes[i].None? ==> Filed(db, infohashes, i + 1, calls)
    ensures infohashes[i].Some? && |infohashes[i].value| == 20 ==>
              Filed(db, infohashes, i + 1, calls + CountCalls(db, Hash(infohashes[i].value)))
    ensures infohashes[i].Some? && |infohashes[i].value| != 20 ==> !WellFormed(infohashes)
  {
    assert infohashes[..i + 1][..i] == infohashes[..i];
    var hashes := Requested(infohashes[..i]);
    if infohashes[i].Some? && |infohashes[i].value| == 20 {
      var h := Hash(infohashes[i].value);
      assert (hashes + [h])[..|hashes|] == hashes;
    } else {
      assert hashes + [] == hashes;
    }
  }

  function FailureCalls(): seq<Call> {
    [Call.String(FAILURE, INVALID)]
  }

  // ---------- What a client decodes ----------

  function Counts(db: Db, hash: Hash): Pair {
    var (complete, incomplete) := PeerDb.HashStats(db, hash);
    Pair(hash.bytes, Dict([Pair(COMPLETE, Int(complete)), Pair(INCOMPLETE, Int(incomplete))]))
  }

  function AllCounts(db: Db, hashes: seq<Hash>): seq<Pair> {
    seq(|hashes|, i requires 0 <= i < |hashes| => Counts(db, hashes[i]))
  }

  lemma BuildCounts(db: Db, calls: seq<Call>, hash: Hash)
    requires Build(calls).Some?
    ensures Build(calls + CountCalls(db, hash))
         == Some(Build(calls).value.(entries := Build(calls).value.entries + [Counts(db, hash)]))
  {
    var n := Build(calls).value;
    var plain := CountCalls(db, hash)[1..3];
    BuildOpen(calls, hash.bytes);
    BuildPlain(calls + [Open(hash.bytes)], plain);
    assert [] + PairsOf(plain) == Counts(db, hash).value.entries;
    BuildClose(calls + [Open(hash.bytes)] + plain, n.outer, n.entries, hash.bytes);
    assert calls + CountCalls(db, hash) == calls + [Open(hash.bytes)] + plain + [Close];
  }

  lemma {:induction false} BuildFiles(db: Db, hashes: seq<Hash>)
    ensures Build(FileCalls(db, hashes))
         == Some(Nesting([Pending([], FILES)], AllCounts(db, hashes)))
  {
    if hashes == [] {
      BuildOpen([], FILES);
      assert [] + [Open(FILES)] == FileCalls(db, hashes) && [] + [Pending([], FILES)] == [Pending([], FILES)];
      assert AllCounts(db, hashes) == [];
    } else {
      var n := |hashes| - 1;
      BuildFiles(db, hashes[..n]);
      BuildCounts(db, FileCalls(db, hashes[..n]), hashes[n]);
      assert AllCounts(db, hashes) == AllCounts(db, hashes[..n]) + [Counts(db, hashes[n])];
    }
  }

  /** A client decodes exactly one entry of counts per requested hash, in order, and
      nothing is left over. */
  lemma ScrapeRecovers(db: Db, hashes: seq<Hash>)
    ensures Bencode.Parse(Closed(FileCalls(db, hashes) + [Close]))
         == Some((Dict([Pair(FILES, Dict(AllCounts(db, hashes)))]), []))
  {
    BuildFiles(db, hashes);
    assert [Pending([], FILES)] == [] + [Pending([], FILES)];
    var files := Pair(FILES, Dict(AllCounts(db, hashes)));
    assert [] + [files] == [files];
    BuildClose(FileCalls(db, hashes), [], [], FILES);
    NestedRecovers(FileCalls(db, hashes) + [Close]);
  }

  /** After any run of the database, the decoded counts of every requested hash are the
      numbers of its complete and incomplete peers, in 16 bits. */
  lemma ScrapeTellsTheTruth(db: Db, ops: seq<Op>, hashes: seq<Hash>, k: nat)
    requires Agrees(db) && LegalRun(db, ops)
    requires k < |hashes|
    ensures var peers := PeersOf(SimpleRun(Abs(db), ops).peers, hashes[k]);
            AllCounts(Run(db, ops), hashes)[k] ==
            Pair(hashes[k].bytes, Dict([Pair(COMPLETE, Int(U16(Count(peers, Complete)))),
                                  Pair(INCOMPLETE, Int(U16(Count(peers, Incomplete))))]))
  {
    HashStatsExact(db, ops, hashes[k]);
  }

  lemma FailureRecovers()
    ensures Bencode.Parse(Closed(FailureCalls()))
         == Some((Dict([Pair(FAILURE, Str(INVALID))]), []))
  {
    BuildPlain([], FailureCalls());
    assert [] + FailureCalls() == FailureCalls();
    assert [] + PairsOf(FailureCalls()) == [Pair(FAILURE, Str(INVALID))];
    NestedRecovers(FailureCalls());
  }

  // ---------- The handler ----------

  function ReplyFor(db: Db, infohashes: seq<Option<Text>>): Text {
    SUCCESS + Closed(if WellFormed(infohashes) then FileCalls(db, Requested(infohashes)) + [Close] else FailureCalls())
  }

  /** The reply that goes to the client. A writer given up on an error is not put back. */
  method Scrape(db: Memory, pool: DictionaryPool, infohashes: seq<Option<Text>>) returns (reply: Text)
    requires db.SwarmsValid() && pool.Valid()
    modifies pool, pool.free, pool.Buffers()
    ensures pool.Valid()
    ensures reply == ReplyFor(db.view, infohashes)
  {
    var dictionary := pool.Get();
    var ok := WriteFiles(db, dictionary, infohashes);
    if !ok {
      reply := WriteErr(pool, INVALID);
      return;
    }
    reply := Send(pool, dictionary, FileCalls(db.view, Requested(infohashes)) + [Close]);
  }

  method WriteErr(pool: DictionaryPool, msg: Text) returns (reply: Text)
    requires pool.Valid()
    modifies pool, pool.free, pool.Buffers()
    ensures pool.Valid()
    ensures reply == SUCCESS + Closed([Call.String(FAILURE, msg)])
  {
    var dictionary := pool.Get();
    assert [D] + EmitAll([]) == [D];
    ghost var calls := Next([], Call.String(FAILURE, msg));
    dictionary.String(FAILURE, msg);
    assert calls == [Call.String(FAILURE, msg)];
    reply := Send(pool, dictionary, calls);
  }

  /** Closes and sends the dictionary, and puts it back. */
  method Send(pool: DictionaryPool, dictionary: Dictionary, ghost calls: seq<Call>) returns (reply: Text)
    requires pool.Valid() && pool.Apart(dictionary)
    requires dictionary.Valid() && dictionary.Contents() == [D] + EmitAll(calls)
    modifies pool`free, dictionary, dictionary.buf
    ensures pool.Valid()
    ensures reply == SUCCESS + Closed(calls)
  {
    var b, n := dictionary.GetBytes();
    reply := SUCCESS + b[..n];
    pool.Put(dictionary);
  }

  /** The "files" dictionary, or its entries up to the first bad infohash. */
  method WriteFiles(db: Memory, dictionary: Dictionary, infohashes: seq<Option<Text>>) returns (ok: bool)
    requires db.SwarmsValid() && dictionary.Valid() && dictionary.Contents() == [D]
    modifies dictionary, dictionary.buf
    ensures dictionary.Valid() && (dictionary.buf == old(dictionary.buf) || fresh(dictionary.buf))
    ensures ok == WellFormed(infohashes)
    ensures ok ==> dictionary.Contents() == [D] + EmitAll(FileCalls(db.view, Requested(infohashes)) + [Close])
  {
    assert [D] + EmitAll([]) == [D];
    ghost var calls := Next([], Open(FILES));
    dictionary.StartDictionary(FILES);
    assert calls == [Open(FILES)];
    FiledNothing(db.view, infohashes);
    for i := 0 to |infohashes|
      invariant dictionary.Valid() && (dictionary.buf == old(dictionary.buf) || fresh(dictionary.buf))
      invariant Filed(db.view, infohashes, i, calls) && dictionary.Contents() == [D] + EmitAll(calls)
    {
      FiledNext(db.view, infohashes, i, calls);
      if infohashes[i].None? {
        continue;
      }
      var infohash := infohashes[i].value;
      if |infohash| != 20 {
        return false;
      }
      WriteCounts(db, dictionary, Hash(infohash), calls);
      calls := calls + CountCalls(db.view, Hash(infohash));
    }
    FiledAll(db.view, infohashes, calls);
    calls := Next(calls, Close);
    dictionary.EndDictionary();
    return true;
  }

  method WriteCounts(db: Memory, dictionary: Dictionary, hash: Hash, ghost calls: seq<Call>)
    requires db.SwarmsValid() && dictionary.Valid() && dictionary.Contents() == [D] + EmitAll(calls)
    modifies dictionary, dictionary.buf
    ensures dictionary.Valid() && (dictionary.buf == old(dictionary.buf) || fresh(dictionary.buf))
    ensures dictionary.Contents() == [D] + EmitAll(calls + CountCalls(db.view, hash))
  {
    var complete, incomplete := db.HashStats(hash);
    ghost var started := Next(calls, Open(hash.bytes));
    dictionary.StartDictionary(hash.bytes);
    ghost var counted := WriteBoth(dictionary, complete, incomplete, started);
    ghost var closed := Next(counted, Close);
    dictionary.EndDictionary();
    assert closed == calls + CountCalls(db.view, hash);
  }

  method WriteBoth(dictionary: Dictionary, complete: uint16, incomplete: uint16, ghost calls: seq<Call>)
    returns (ghost more: seq<Call>)
    requires dictionary.Valid() && dictionary.Contents() == [D] + EmitAll(calls)
    modifies dictionary, dictionary.buf
    ensures dictionary.Valid() && (dictionary.buf == old(dictionary.buf) || fresh(dictionary.buf))
    ensures dictionary.Contents() == [D] + EmitAll(more)
    ensures more == calls + [Call.Int64(COMPLETE, complete)] + [Call.Int64(INCOMPLETE, incomplete)]
  {
    more := Next(calls, Call.Int64(COMPLETE, complete));
    dictionary.Int64(COMPLETE, complete);
    more := Next(more, Call.Int64(INCOMPLETE, incomplete));
    dictionary.Int64(INCOMPLETE, incomplete);
  }

  // ---------- From the request to the reply ----------

  const INFO_HASH := [105, 110, 102, 111, 95, 104, 97, 115, 104, 61]  // "info_hash="
  const SCRAPE_PATH := [47, 115, 99, 114, 97, 112, 101]              // "/scrape"
  const NO_INFOHASHES := Ascii("no infohashes")

  /** What is left of a parameter for the scrape: the infohash behind its key, or nil. */
  function InfohashOf(param: Option<Text>): Option<Text> {
    if param.Some? && |param.value| >= 10 && param.value[..10] == INFO_HASH then Some(param.value[10..]) else None
  }

  function InfohashesOf(params: seq<Option<Text>>): seq<Option<Text>> {
    seq(|params|, i requires 0 <= i < |params| => InfohashOf(params[i]))
  }

  /** The worker's part: it strips the parameters in place and counts the infohashes. */
  method ServeScrape(db: Memory, pool: DictionaryPool, params: seq<Option<Text>>) returns (reply: Text)
    requires db.SwarmsValid() && pool.Valid()
    modifies pool, pool.free, pool.Buffers()
    ensures pool.Valid()
    ensures var infohashes := InfohashesOf(params);
            if forall i | 0 <= i < |params| :: infohashes[i] == None
            then reply == SUCCESS + Closed([Call.String(FAILURE, NO_INFOHASHES)])
            else reply == ReplyFor(db.view, infohashes)
  {
    var infohashes := params;
    var count := 0;
    for i := 0 to |params|
      invariant |infohashes| == |params|
      invariant forall k | 0 <= k < i :: infohashes[k] == InfohashOf(params[k])
      invariant forall k | i <= k < |params| :: infohashes[k] == params[k]
      invariant count == 0 <==> forall k | 0 <= k < i :: InfohashOf(params[k]) == None
      invariant count >= 0
    {
      var stripped := InfohashOf(infohashes[i]);
      if stripped.Some? {
        count := count + 1;
      }
      infohashes := infohashes[i := stripped];
    }
    assert infohashes == InfohashesOf(params);
    if count == 0 {
      reply := WriteErr(pool, NO_INFOHASHES);
      return;
    }
    reply := Scrape(db, pool, infohashes);
  }

  /** The parameters of a parsed request. */
  function ParamTexts(p: Parsed, bs: Text): seq<Option<Text>>
    requires forall k | 0 <= k < MAX_PARAMS && p.Params[k].Some? :: p.Params[k].value.Within(0, |bs|)
  {
    seq(MAX_PARAMS, k requires 0 <= k < MAX_PARAMS =>
      if p.Params[k].Some? then Some(p.Params[k].value.In(bs)) else None)
  }

  lemma {:induction false} RequestedAre(infohashes: seq<Option<Text>>, hashes: seq<Hash>)
    requires |hashes| <= |infohashes|
    requires forall k | 0 <= k < |hashes| :: infohashes[k] == Some(hashes[k].bytes)
    requires forall k | |hashes| <= k < |infohashes| :: infohashes[k] == None
    ensures WellFormed(infohashes) && Requested(infohashes) == hashes
  {
    if infohashes != [] {
      var n := |infohashes| - 1;
      if |hashes| <= n {
        RequestedAre(infohashes[..n], hashes);
      } else {
        RequestedAre(infohashes[..n], hashes[..n]);
        assert hashes == hashes[..n] + [hashes[n]];
      }
    }
  }

  lemma KeyStripped(text: Text)
    ensures InfohashOf(Some(INFO_HASH + text)) == Some(text)
  {
    assert (INFO_HASH + text)[..10] == INFO_HASH && (INFO_HASH + text)[10..] == text;
  }

  /** The parameters arrive as the infohashes that the client asked for. */
  lemma ParamsAreHashes(es: seq<Text>, plain: seq<Text>, hashes: seq<Hash>, rest: Text, p: Parsed, after: Text)
    requires Written(SCRAPE_PATH, es, plain) && |hashes| == |plain|
    requires forall k | 0 <= k < |hashes| :: plain[k] == INFO_HASH + hashes[k].bytes
    requires Describes(p, Request(SCRAPE_PATH, Join(es), rest), after)
    ensures p.Path.In(after) == SCRAPE_PATH
    ensures forall k | 0 <= k < MAX_PARAMS && p.Params[k].Some? :: p.Params[k].value.Within(0, |after|)
    ensures var infohashes := InfohashesOf(ParamTexts(p, after));
            && (forall k | 0 <= k < |hashes| :: infohashes[k] == Some(hashes[k].bytes))
            && (forall k | |hashes| <= k < MAX_PARAMS :: infohashes[k] == None)
  {
    RequestRoundTrip(SCRAPE_PATH, es, plain, rest, p, after);
    ParamTextsAre(p, after, plain);
    InfohashesOfKeyed(ParamTexts(p, after), plain, hashes);
  }

  lemma ParamTextsAre(p: Parsed, bs: Text, plain: seq<Text>)
    requires forall k | 0 <= k < MAX_PARAMS && p.Params[k].Some? :: p.Params[k].value.Within(0, |bs|)
    requires |plain| <= MAX_PARAMS
    requires forall k | 0 <= k < |plain| :: p.Params[k].Some? && p.Params[k].value.In(bs) == plain[k]
    requires forall k | |plain| <= k < MAX_PARAMS :: p.Params[k] == None
    ensures forall k | 0 <= k < MAX_PARAMS :: ParamTexts(p, bs)[k] == if k < |plain| then Some(plain[k]) else None
  {
  }

  lemma InfohashesOfKeyed(texts: seq<Option<Text>>, plain: seq<Text>, hashes: seq<Hash>)
    requires |hashes| == |plain| <= |texts|
    requires forall k | 0 <= k < |hashes| :: plain[k] == INFO_HASH + hashes[k].bytes
    requires forall k | 0 <= k < |texts| :: texts[k] == if k < |hashes| then Some(plain[k]) else None
    ensures forall k | 0 <= k < |hashes| :: InfohashesOf(texts)[k] == Some(hashes[k].bytes)
    ensures forall k | |hashes| <= k < |texts| :: InfohashesOf(texts)[k] == None
  {
    forall k | 0 <= k < |hashes| ensures InfohashOf(texts[k]) == Some(hashes[k].bytes) {
      KeyStripped(hashes[k].bytes);
    }
  }

  /** From end to end: a client that asks for up to 45 infohashes, percent-encoded in any
      way, decodes one entry of counts for each of them, in the order of its request. */
  lemma ScrapeEndToEnd(db: Db, es: seq<Text>, plain: seq<Text>, hashes: seq<Hash>, rest: Text, p: Parsed, after: Text)
    requires Written(SCRAPE_PATH, es, plain) && |hashes| == |plain|
    requires forall k | 0 <= k < |hashes| :: plain[k] == INFO_HASH + hashes[k].bytes
    requires Describes(p, Request(SCRAPE_PATH, Join(es), rest), after)
    ensures p.Path.In(after) == SCRAPE_PATH
    ensures forall k | 0 <= k < MAX_PARAMS && p.Params[k].Some? :: p.Params[k].value.Within(0, |after|)
    ensures var infohashes := InfohashesOf(ParamTexts(p, after));
            && infohashes[0].Some?
            && Bencode.Parse(ReplyFor(db, infohashes)[|SUCCESS|..])
               == Some((Dict([Pair(FILES, Dict(AllCounts(db, hashes)))]), []))
  {
    ParamsAreHashes(es, plain, hashes, rest, p, after);
    ReplyRecovers(db, InfohashesOf(ParamTexts(p, after)), hashes);
  }

  lemma ReplyRecovers(db: Db, infohashes: seq<Option<Text>>, hashes: seq<Hash>)
    requires |hashes| <= |infohashes|
    requires forall k | 0 <= k < |hashes| :: infohashes[k] == Some(hashes[k].bytes)
    requires forall k | |hashes| <= k < |infohashes| :: infohashes[k] == None
    ensures Bencode.Parse(ReplyFor(db, infohashes)[|SUCCESS|..])
         == Some((Dict([Pair(FILES, Dict(AllCounts(db, hashes)))]), []))
  {
    RequestedAre(infohashes, hashes);
    ScrapeRecovers(db, hashes);
    var body := Closed(FileCalls(db, hashes) + [Close]);
    assert (SUCCESS + body)[|SUCCESS|..] == body;
  }
}
