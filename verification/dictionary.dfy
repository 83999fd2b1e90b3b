/** The bencode writer: an append-only buffer that is reused, and what any sequence of
    its calls leaves in it. */
module Dictionary {
  import opened Bytes
  import opened Storage
  import opened Codec
  import opened Bencode

  // ---------- Calls and the entries they stand for ----------

  /** The writer's calls. `Raw` is Dictionary(key, v) with an already encoded value. */
  datatype Call =
    | String(key: Text, text: Text)
    | Int64(key: Text, i: int64)
    | Raw(key: Text, value: Value)
    | Slices(key: Text, slices: seq<Text>)
    | Open(key: Text)
    | Close

  function Emit(c: Call): Text {
    match c
    case String(key, text) => EncodeText(key) + EncodeText(text)
    case Int64(key, i) => EncodeText(key) + ([I] + Decimal(i) + [E])
    case Raw(key, v) => EncodeText(key) + Encode(v)
    case Slices(key, slices) => EncodeText(key) + ([L] + WriteMany(EncodeText, slices) + [E])
    case Open(key) => EncodeText(key) + [D]
    case Close => [E]
  }

  function EmitAll(calls: seq<Call>): Text {
    WriteMany(Emit, calls)
  }

  function Texts(slices: seq<Text>): seq<Value> {
    if slices == [] then [] else [Str(slices[0])] + Texts(slices[1..])
  }

  /** The open dictionaries around the innermost one, and the entries of each so far. */
  datatype Nesting = Nesting(outer: seq<Pending>, entries: seq<Pair>)

  /** The entries before an open inner dictionary, and its key. */
  datatype Pending = Pending(entries: seq<Pair>, key: Text)

  /** One call, or None when it closes a dictionary that was never opened. */
  function Apply(n: Nesting, c: Call): Option<Nesting> {
    match c
    case String(key, text) => Some(n.(entries := n.entries + [Pair(key, Str(text))]))
    case Int64(key, i) => Some(n.(entries := n.entries + [Pair(key, Int(i))]))
    case Raw(key, v) => Some(n.(entries := n.entries + [Pair(key, v)]))
    case Slices(key, slices) => Some(n.(entries := n.entries + [Pair(key, List(Texts(slices)))]))
    case Open(key) => Some(Nesting(n.outer + [Pending(n.entries, key)], []))
    case Close =>
      if n.outer == [] then None
      else
        var last := n.outer[|n.outer| - 1];
        Some(Nesting(n.outer[..|n.outer| - 1], last.entries + [Pair(last.key, Dict(n.entries))]))
  }

  function Build(calls: seq<Call>): Option<Nesting> {
    if calls == [] then Some(Nesting([], []))
    else
      match Build(calls[..|calls| - 1])
      case None => None
      case Some(n) => Apply(n, calls[|calls| - 1])
  }

  /** Every Open has its Close, and no Close comes first. */
  predicate Nested(calls: seq<Call>) {
    Build(calls).Some? && Build(calls).value.outer == []
  }

  /** The buffer after the calls, closed by Get or GetBytes. */
  function Closed(calls: seq<Call>): Text {
    [D] + EmitAll(calls) + [E]
  }

  // ---------- The bytes of a nesting ----------

  function OpenBytes(outer: seq<Pending>): Text {
    if outer == [] then []
    else
      var last := outer[|outer| - 1];
      OpenBytes(outer[..|outer| - 1]) + ([D] + EncodeEntries(last.entries) + EncodeText(last.key))
  }

  function BytesOf(n: Nesting): Text {
    OpenBytes(n.outer) + ([D] + EncodeEntries(n.entries))
  }

  lemma {:induction false} EncodeEntriesSnoc(es: seq<Pair>, e: Pair)
    ensures EncodeEntries(es + [e]) == EncodeEntries(es) + (EncodeText(e.key) + Encode(e.value))
  {
    if es == [] {
      assert es + [e] == [e] && [e][1..] == [];
    } else {
      assert (es + [e])[1..] == es[1..] + [e];
      EncodeEntriesSnoc(es[1..], e);
    }
  }

  lemma {:induction false} SlicesAreValues(slices: seq<Text>)
    ensures WriteMany(EncodeText, slices) == EncodeValues(Texts(slices))
  {
    if slices != [] {
      SlicesAreValues(slices[1..]);
      assert Texts(slices)[1..] == Texts(slices[1..]);
    }
  }

  /** Adding one finished entry appends its bytes. */
  lemma EntryBytes(n: Nesting, e: Pair)
    ensures BytesOf(n.(entries := n.entries + [e])) == BytesOf(n) + (EncodeText(e.key) + Encode(e.value))
  {
    EncodeEntriesSnoc(n.entries, e);
  }

  lemma StartBytes(n: Nesting, key: Text)
    ensures BytesOf(Nesting(n.outer + [Pending(n.entries, key)], [])) == BytesOf(n) + (EncodeText(key) + [D])
  {
    var outer := n.outer + [Pending(n.entries, key)];
    assert outer[..|outer| - 1] == n.outer;
    assert EncodeEntries([]) == [];
  }

  lemma EndBytes(n: Nesting)
    requires n.outer != []
    ensures BytesOf(Apply(n, Close).value) == BytesOf(n) + [E]
  {
    var k := |n.outer| - 1;
    var last := n.outer[k];
    EntryBytes(Nesting(n.outer[..k], last.entries), Pair(last.key, Dict(n.entries)));
  }

  lemma ApplyBytes(n: Nesting, c: Call)
    requires Apply(n, c).Some?
    ensures BytesOf(Apply(n, c).value) == BytesOf(n) + Emit(c)
  {
    match c
    case String(key, text) => EntryBytes(n, Pair(key, Str(text)));
    case Int64(key, i) => EntryBytes(n, Pair(key, Int(i)));
    case Raw(key, v) => EntryBytes(n, Pair(key, v));
    case Slices(key, slices) =>
      SlicesAreValues(slices);
      EntryBytes(n, Pair(key, List(Texts(slices))));
    case Open(key) => StartBytes(n, key);
    case Close => EndBytes(n);
  }

  lemma EmitAllInit(calls: seq<Call>)
    requires calls != []
    ensures EmitAll(calls) == EmitAll(calls[..|calls| - 1]) + Emit(calls[|calls| - 1])
  {
    WriteManySnoc(Emit, calls[..|calls| - 1], calls[|calls| - 1]);
    assert calls == calls[..|calls| - 1] + [calls[|calls| - 1]];
  }

  lemma {:induction false} BuildBytes(calls: seq<Call>)
    requires Build(calls).Some?
    ensures [D] + EmitAll(calls) == BytesOf(Build(calls).value)
  {
    if calls == [] {
      assert EncodeEntries([]) == [];
    } else {
      var n := |calls| - 1;
      BuildBytes(calls[..n]);
      ApplyBytes(Build(calls[..n]).value, calls[n]);
      EmitAllInit(calls);
      Regroup([D], EmitAll(calls[..n]), Emit(calls[n]));
    }
  }

  // ---------- Recovery ----------

  /** Properly nested calls read back as exactly their entries, in order. */
  lemma NestedRecovers(calls: seq<Call>)
    requires Nested(calls)
    ensures Parse(Closed(calls)) == Some((Dict(Build(calls).value.entries), []))
  {
    BuildBytes(calls);
    var v := Dict(Build(calls).value.entries);
    assert Closed(calls) == Encode(v) + [];
    ParseOfEncode(v, []);
  }

  /** With one Close too many, the buffer holds a whole value already before it is closed. */
  lemma {:induction false} OverclosedIsWhole(calls: seq<Call>)
    requires Build(calls).None?
    ensures Parse([D] + EmitAll(calls)).Some?
  {
    var n := |calls| - 1;
    EmitAllInit(calls);
    Regroup([D], EmitAll(calls[..n]), Emit(calls[n]));
    if Build(calls[..n]).None? {
      OverclosedIsWhole(calls[..n]);
      ParseStable([D] + EmitAll(calls[..n]), Emit(calls[n]));
    } else {
      assert Nested(calls[..n]) && calls[n] == Close;
      NestedRecovers(calls[..n]);
    }
  }

  lemma OverclosedLeavesRest(calls: seq<Call>)
    requires Build(calls).None?
    ensures Parse(Closed(calls)).Some? && Parse(Closed(calls)).value.1 != []
  {
    OverclosedIsWhole(calls);
    ParseStable([D] + EmitAll(calls), [E]);
  }

  function Ends(k: nat): seq<Call> {
    seq(k, _ => Close)
  }

  lemma {:induction false} ClosingAll(calls: seq<Call>, k: nat)
    requires Build(calls).Some? && k <= |Build(calls).value.outer|
    ensures Build(calls + Ends(k)).Some? && |Build(calls + Ends(k)).value.outer| == |Build(calls).value.outer| - k
  {
    if k == 0 {
      assert calls + Ends(0) == calls;
    } else {
      ClosingAll(calls, k - 1);
      BuildSnoc(calls + Ends(k - 1), Close);
      assert calls + Ends(k) == calls + Ends(k - 1) + [Close];
    }
  }

  lemma BuildSnoc(calls: seq<Call>, c: Call)
    requires Build(calls).Some?
    ensures Build(calls + [c]) == Apply(Build(calls).value, c)
  {
    assert (calls + [c])[..|calls|] == calls;
  }

  lemma {:induction false} EndsEmit(k: nat)
    ensures EmitAll(Ends(k)) == seq(k, _ => E)
  {
    if k > 0 {
      EndsEmit(k - 1);
      assert Ends(k)[1..] == Ends(k - 1);
    }
  }

  /** With a dictionary still open the bytes are no whole value. */
  lemma UnclosedFails(calls: seq<Call>)
    requires Build(calls).Some? && Build(calls).value.outer != []
    ensures Parse(Closed(calls)).None?
  {
    var depth := |Build(calls).value.outer|;
    var tail := EmitAll(Ends(depth));
    ClosingAll(calls, depth);
    NestedRecovers(calls + Ends(depth));
    WriteManyAppend(Emit, calls, Ends(depth));
    EndsEmit(depth);
    assert Closed(calls + Ends(depth)) == Closed(calls) + tail by {
      assert tail + [E] == [E] + tail;
    }
    if Parse(Closed(calls)).Some? {
      ParseStable(Closed(calls), tail);
    }
  }

  /** Recovery, both ways: the closed buffer is one whole value, with nothing left over,
      exactly when the calls are properly nested; and then it is the dictionary of the
      entries that were written, in order. */
  lemma Recovery(calls: seq<Call>, v: Value)
    ensures Parse(Closed(calls)) == Some((v, [])) <==> Nested(calls) && v == Dict(Build(calls).value.entries)
  {
    if Nested(calls) {
      NestedRecovers(calls);
    } else if Build(calls).None? {
      OverclosedLeavesRest(calls);
    } else {
      UnclosedFails(calls);
    }
  }

  // ---------- Calls that open and close nothing ----------

  predicate Plain(c: Call) {
    !c.Open? && !c.Close?
  }

  function PairOf(c: Call): Pair
    requires Plain(c)
  {
    match c
    case String(key, text) => Pair(key, Str(text))
    case Int64(key, i) => Pair(key, Int(i))
    case Raw(key, v) => Pair(key, v)
    case Slices(key, slices) => Pair(key, List(Texts(slices)))
  }

  function PairsOf(calls: seq<Call>): seq<Pair>
    requires forall i | 0 <= i < |calls| :: Plain(calls[i])
  {
    seq(|calls|, i requires 0 <= i < |calls| => PairOf(calls[i]))
  }

  lemma ApplyPlain(n: Nesting, c: Call)
    requires Plain(c)
    ensures Apply(n, c) == Some(n.(entries := n.entries + [PairOf(c)]))
  {
  }

  lemma BuildOpen(calls: seq<Call>, key: Text)
    requires Build(calls).Some?
    ensures var n := Build(calls).value;
            Build(calls + [Open(key)]) == Some(Nesting(n.outer + [Pending(n.entries, key)], []))
  {
    BuildSnoc(calls, Open(key));
  }

  lemma BuildClose(calls: seq<Call>, outer: seq<Pending>, before: seq<Pair>, key: Text)
    requires Build(calls).Some? && Build(calls).value.outer == outer + [Pending(before, key)]
    ensures Build(calls + [Close]) == Some(Nesting(outer, before + [Pair(key, Dict(Build(calls).value.entries))]))
  {
    BuildSnoc(calls, Close);
    assert (outer + [Pending(before, key)])[..|outer|] == outer;
  }

  /** Plain calls add their entries to the innermost open dictionary. */
  lemma {:induction false} BuildPlain(calls: seq<Call>, more: seq<Call>)
    requires Build(calls).Some? && forall i | 0 <= i < |more| :: Plain(more[i])
    ensures Build(calls + more)
         == Some(Build(calls).value.(entries := Build(calls).value.entries + PairsOf(more)))
  {
    var b := Build(calls).value;
    if more == [] {
      assert calls + more == calls && PairsOf(more) == [];
      assert b.entries + [] == b.entries;
    } else {
      var n := |more| - 1;
      BuildPlain(calls, more[..n]);
      BuildSnoc(calls + more[..n], more[n]);
      ApplyPlain(Build(calls + more[..n]).value, more[n]);
      assert calls + more == calls + more[..n] + [more[n]];
      assert b.entries + PairsOf(more) == b.entries + PairsOf(more[..n]) + [PairOf(more[n])];
    }
  }

  /** One more call, and the buffer after it. */
  ghost function Next(calls: seq<Call>, c: Call): (r: seq<Call>)
    ensures r == calls + [c] && [D] + EmitAll(calls) + Emit(c) == [D] + EmitAll(r)
  {
    WriteManySnoc(Emit, calls, c);
    Regroup([D], EmitAll(calls), Emit(c));
    calls + [c]
  }

  // ---------- The writer ----------

  class Dictionary {
    var buf: array<Byte>  // the slice d.buf is buf[..len], its capacity buf.Length
    var len: nat

    ghost predicate Valid()
      reads this
    {
      len <= buf.Length
    }

    ghost function Contents(): Text
      requires Valid()
      reads this, buf
    {
      buf[..len]
    }

    constructor ()
      ensures Valid() && fresh(buf) && Contents() == [D]
    {
      buf := new Byte[32];
      len := 0;
      new;
      Write([D]);
    }

    /** append: in place when the capacity suffices, else into a new array. */
    method Write(s: Text)
      requires Valid()
      modifies this, buf
      ensures Valid() && (buf == old(buf) || fresh(buf))
      ensures Contents() == old(Contents()) + s
    {
      var n := len + |s|;
      if n > buf.Length {
        var grown := new Byte[2 * n];
        forall i | 0 <= i < len {
          grown[i] := buf[i];
        }
        buf := grown;
      }
      forall i | 0 <= i < |s| {
        buf[len + i] := s[i];
      }
      len := n;
    }

    method Reset()
      requires Valid()
      modifies this, buf
      ensures Valid() && (buf == old(buf) || fresh(buf)) && Contents() == [D]
    {
      len := 0;
      Write([D]);
    }

    method String(key: Text, v: Text)
      requires Valid()
      modifies this, buf
      ensures Valid() && (buf == old(buf) || fresh(buf)) && Contents() == old(Contents()) + Emit(Call.String(key, v))
    {
      Write(Decimal(|key|) + [COLON] + key + Decimal(|v|) + [COLON] + v);
      assert Decimal(|key|) + [COLON] + key + Decimal(|v|) + [COLON] + v == EncodeText(key) + EncodeText(v);
    }

    method StringBytes(key: Text, v: Text)
      requires Valid()
      modifies this, buf
      ensures Valid() && (buf == old(buf) || fresh(buf)) && Contents() == old(Contents()) + Emit(Call.String(key, v))
    {
      Write(Decimal(|key|) + [COLON] + key + Decimal(|v|) + [COLON]);
      Write(v);
      assert Decimal(|key|) + [COLON] + key + Decimal(|v|) + [COLON] + v == EncodeText(key) + EncodeText(v);
    }

    method Int64(key: Text, v: int64)
      requires Valid()
      modifies this, buf
      ensures Valid() && (buf == old(buf) || fresh(buf)) && Contents() == old(Contents()) + Emit(Call.Int64(key, v))
    {
      Write(Decimal(|key|) + [COLON] + key + [I] + Decimal(v) + [E]);
      assert Decimal(|key|) + [COLON] + key + [I] + Decimal(v) + [E] == EncodeText(key) + ([I] + Decimal(v) + [E]);
    }

    /** Writes any text as a value. If it is an encoded value, that is the call Raw. */
    method Dictionary(key: Text, v: Text)
      requires Valid()
      modifies this, buf
      ensures Valid() && (buf == old(buf) || fresh(buf)) && Contents() == old(Contents()) + (EncodeText(key) + v)
      ensures forall value :: v == Encode(value) ==> Contents() == old(Contents()) + Emit(Raw(key, value))
    {
      Write(Decimal(|key|) + [COLON] + key + v);
      assert Decimal(|key|) + [COLON] + key + v == EncodeText(key) + v;
    }

    method StartDictionary(key: Text)
      requires Valid()
      modifies this, buf
      ensures Valid() && (buf == old(buf) || fresh(buf)) && Contents() == old(Contents()) + Emit(Open(key))
    {
      Write(Decimal(|key|) + [COLON]);
      Write(key);
      Write([D]);
    }

    method EndDictionary()
      requires Valid()
      modifies this, buf
      ensures Valid() && (buf == old(buf) || fresh(buf)) && Contents() == old(Contents()) + Emit(Close)
    {
      Write([E]);
    }

    method BytesliceSlice(key: Text, slices: seq<Text>)
      requires Valid()
      modifies this, buf
      ensures Valid() && (buf == old(buf) || fresh(buf)) && Contents() == old(Contents()) + Emit(Slices(key, slices))
    {
      Write(Decimal(|key|) + [COLON] + key + [L]);
      ghost var start, body := old(Contents()) + (EncodeText(key) + [L]), [];
      var i := 0;
      while i < |slices|
        invariant Valid() && (buf == old(buf) || fresh(buf)) && 0 <= i <= |slices|
        invariant body == WriteMany(EncodeText, slices[..i]) && Contents() == start + body
      {
        WriteManySnoc(EncodeText, slices[..i], slices[i]);
        assert slices[..i + 1] == slices[..i] + [slices[i]];
        WriteText(slices[i]);
        Regroup(start, body, EncodeText(slices[i]));
        i, body := i + 1, body + EncodeText(slices[i]);
      }
      assert slices[..i] == slices;
      Write([E]);
      SlicesInParts(old(Contents()), key, slices);
    }

    lemma SlicesInParts(before: Text, key: Text, slices: seq<Text>)
      ensures before + (EncodeText(key) + [L]) + WriteMany(EncodeText, slices) + [E] ==
          before + Emit(Slices(key, slices))
    {
    }

    method WriteText(s: Text)
      requires Valid()
      modifies this, buf
      ensures Valid() && (buf == old(buf) || fresh(buf)) && Contents() == old(Contents()) + EncodeText(s)
    {
      Write(Decimal(|s|) + [COLON]);
      Write(s);
      Regroup(old(Contents()), Decimal(|s|) + [COLON], s);
    }

    /** Closes the dictionary and returns a copy. */
    method Get() returns (s: Text)
      requires Valid()
      modifies this, buf
      ensures Valid() && (buf == old(buf) || fresh(buf))
      ensures s == Contents() == old(Contents()) + [E]
    {
      Write([E]);
      s := buf[..len];
    }

    /** Closes the dictionary and returns its own buffer. */
    method GetBytes() returns (b: array<Byte>, n: nat)
      requires Valid()
      modifies this, buf
      ensures Valid() && (buf == old(buf) || fresh(buf)) && b == buf && n == len
      ensures b[..n] == old(Contents()) + [E]
    {
      Write([E]);
      b, n := buf, len;
    }
  }
}
