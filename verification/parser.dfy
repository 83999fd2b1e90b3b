/** The HTTP request parser. It works on one buffer: method, path and parameters are
    sub-slices of it, and percent-escapes (section 2.1 of RFC 3986) are decoded in place. */
module Parser {
  import opened Bytes
  import opened Storage
  import opened Bencode

  const MAX_PARAMS: nat := 45
  const PERCENT: Byte := 37   // '%'
  const AMPERSAND: Byte := 38 // '&'
  const SLASH: Byte := 47     // '/'
  const QUESTION: Byte := 63  // '?'

  // ---------- Percent-decoding ----------

  predicate IsHex(c: Byte) {
    48 <= c <= 57 || 97 <= c <= 102 || 65 <= c <= 70
  }

  /** The character for a digit: '0' to '9', then 'A' to 'F' or 'a' to 'f'. */
  function HexDigit(v: nat, upper: bool): (c: Byte)
    requires v < 16
  {
    if v < 10 then 48 + v else (if upper then 65 else 97) + (v - 10)
  }

  predicate IsDigitOf(c: Byte, v: nat)
    requires v < 16
  {
    c == HexDigit(v, true) || c == HexDigit(v, false)
  }

  /** The value of a hex digit in either case; any other byte counts as 0. */
  function FromHexChar(c: Byte): (v: Byte)
    ensures v < 16
    ensures IsHex(c) <==> IsDigitOf(c, v)
    ensures !IsHex(c) ==> v == 0
  {
    if 48 <= c <= 57 then c - 48
    else if 97 <= c <= 102 then c - 97 + 10
    else if 65 <= c <= 70 then c - 65 + 10
    else 0
  }

  /** No other value has that digit. */
  lemma DigitOfOne(c: Byte, v: nat)
    requires v < 16 && IsDigitOf(c, v)
    ensures FromHexChar(c) == v
  {
  }

  function Escaped(a: Byte, b: Byte): Byte {
    FromHexChar(a) * 16 + FromHexChar(b)
  }

  function Prepend(a: Text, o: Option<Text>): Option<Text> {
    match o
    case None => None
    case Some(b) => Some(a + b)
  }

  /** One pass from left to right; what is decoded is not looked at again. */
  function Unescape(s: Text): Option<Text> {
    if s == [] then Some([])
    else if s[0] != PERCENT then Prepend([s[0]], Unescape(s[1..]))
    else if |s| < 3 then None
    else Prepend([Escaped(s[1], s[2])], Unescape(s[3..]))
  }

  lemma {:induction false} UnescapeAppend(a: Text, b: Text)
    requires Unescape(a).Some?
    ensures Unescape(a + b) == Prepend(Unescape(a).value, Unescape(b))
  {
    if a == [] {
      assert a + b == b;
      PrependNothing(Unescape(b));
    } else {
      var w := if a[0] != PERCENT then 1 else 3;
      UnescapeAppend(a[w..], b);
      HeadOfAppend(a, b, w);
      PrependTwice([if w == 1 then a[0] else Escaped(a[1], a[2])], Unescape(a[w..]).value, Unescape(b));
    }
  }

  lemma HeadOfAppend(a: Text, b: Text, w: nat)
    requires 0 < w <= |a|
    ensures (a + b)[..w] == a[..w] && (a + b)[w..] == a[w..] + b && forall k | 0 <= k < w :: (a + b)[k] == a[k]
  {
  }

  lemma PrependTwice(a: Text, b: Text, o: Option<Text>)
    ensures Prepend(a, Prepend(b, o)) == Prepend(a + b, o)
  {
    if o.Some? {
      assert a + (b + o.value) == a + b + o.value;
    }
  }

  lemma PrependNothing(o: Option<Text>)
    ensures Prepend([], o) == o
  {
    if o.Some? {
      assert [] + o.value == o.value;
    }
  }

  /** A byte or an escape begins at `k`: it does so at 0, and behind each single byte
      other than '%' and each three bytes of an escape that begin so themselves. */
  predicate Begins(s: Text, k: nat)
    requires k <= |s|
  {
    || k == 0
    || (s[k - 1] != PERCENT && Begins(s, k - 1))
    || (k >= 3 && s[k - 3] == PERCENT && Begins(s, k - 3))
  }

  /** A '%' that begins an escape, with less than two bytes behind it. */
  predicate CutEscape(s: Text, k: nat) {
    k < |s| && s[k] == PERCENT && k + 2 >= |s| && Begins(s, k)
  }

  lemma {:induction false} BeginsAfterWhole(s: Text, k: nat)
    requires k <= |s| && Begins(s, k)
    ensures Unescape(s[..k]).Some?
  {
    if k > 0 {
      if s[k - 1] != PERCENT && Begins(s, k - 1) {
        BeginsAfterWhole(s, k - 1);
        UnescapeAppend(s[..k - 1], [s[k - 1]]);
        assert s[..k] == s[..k - 1] + [s[k - 1]] && [s[k - 1]][1..] == [];
      } else {
        BeginsAfterWhole(s, k - 3);
        UnescapeAppend(s[..k - 3], s[k - 3..k]);
        assert s[..k] == s[..k - 3] + s[k - 3..k] && s[k - 3..k][3..] == [];
      }
    }
  }

  /** A whole encoding ends with a single byte or an escape, and is whole before it. */
  lemma {:induction false} LastToken(t: Text)
    requires t != [] && Unescape(t).Some?
    ensures var n := |t|;
            || (t[n - 1] != PERCENT && Unescape(t[..n - 1]).Some?)
            || (n >= 3 && t[n - 3] == PERCENT && Unescape(t[..n - 3]).Some?)
  {
    var n, w := |t|, if t[0] == PERCENT then 3 else 1;
    if n > w {
      var u := t[w..];
      LastToken(u);
      assert t[..n - 1][w..] == u[..|u| - 1];
      if |u| >= 3 {
        assert t[..n - 3][w..] == u[..|u| - 3];
      }
    }
  }

  lemma {:induction false} WholeThenBegins(s: Text, k: nat)
    requires k <= |s| && Unescape(s[..k]).Some?
    ensures Begins(s, k)
  {
    if k > 0 {
      LastToken(s[..k]);
      assert s[..k][..k - 1] == s[..k - 1];
      if s[k - 1] != PERCENT && Unescape(s[..k - 1]).Some? {
        WholeThenBegins(s, k - 1);
      } else {
        assert s[..k][..k - 3] == s[..k - 3];
        WholeThenBegins(s, k - 3);
      }
    }
  }

  lemma {:induction false} FindCut(s: Text) returns (k: nat)
    requires Unescape(s).None?
    ensures k < |s| && s[k] == PERCENT && k + 2 >= |s| && Unescape(s[..k]).Some?
  {
    if s[0] != PERCENT {
      k := FindCut(s[1..]);
      k := k + 1;
      assert s[..k][1..] == s[1..][..k - 1];
    } else if |s| < 3 {
      k := 0;
    } else {
      k := FindCut(s[3..]);
      k := k + 3;
      assert s[..k][3..] == s[3..][..k - 3];
    }
  }

  /** Decoding fails exactly when an escape lacks one of its two digits. */
  lemma FailsIffCutEscape(s: Text)
    ensures Unescape(s).None? <==> exists k: nat :: CutEscape(s, k)
  {
    if Unescape(s).None? {
      var k := FindCut(s);
      WholeThenBegins(s, k);
      assert CutEscape(s, k);
    }
    forall k: nat | CutEscape(s, k) ensures Unescape(s).None? {
      BeginsAfterWhole(s, k);
      UnescapeAppend(s[..k], s[k..]);
      assert s == s[..k] + s[k..];
    }
  }

  /** Some percent-encoding of a byte string: each byte is escaped, with digits of either
      case, or stands for itself; '%' is always escaped. */
  predicate Encodes(e: Text, plain: Text) {
    if plain == [] then e == []
    else
      || (|e| >= 1 && e[0] == plain[0] != PERCENT && Encodes(e[1..], plain[1..]))
      || (|e| >= 3 && e[0] == PERCENT && IsDigitOf(e[1], plain[0] / 16) && IsDigitOf(e[2], plain[0] % 16)
          && Encodes(e[3..], plain[1..]))
  }

  /** Decoding takes back every percent-encoding. */
  lemma {:induction false} UnescapeOfEncoding(e: Text, plain: Text)
    requires Encodes(e, plain)
    ensures Unescape(e) == Some(plain)
  {
    if plain != [] {
      assert plain == [plain[0]] + plain[1..];
      if e[0] == PERCENT {
        DigitOfOne(e[1], plain[0] / 16);
        DigitOfOne(e[2], plain[0] % 16);
        UnescapeOfEncoding(e[3..], plain[1..]);
      } else {
        UnescapeOfEncoding(e[1..], plain[1..]);
      }
    }
  }

  // ---------- Splitting ----------

  /** The pieces between the '&'s. */
  function Pieces(s: Text): (ps: seq<Text>)
    ensures |ps| >= 1
  {
    if s == [] then [[]]
    else
      var n := |s| - 1;
      var ps := Pieces(s[..n]);
      if s[n] == AMPERSAND then ps + [[]] else ps[|ps| - 1 := ps[|ps| - 1] + [s[n]]]
  }

  function Join(ps: seq<Text>): Text
    requires ps != []
  {
    if |ps| == 1 then ps[0] else Join(ps[..|ps| - 1]) + [AMPERSAND] + ps[|ps| - 1]
  }

  lemma {:induction false} JoinOfPieces(s: Text)
    ensures Join(Pieces(s)) == s
  {
    if s != [] {
      var n := |s| - 1;
      JoinOfPieces(s[..n]);
      var ps := Pieces(s[..n]);
      assert s == s[..n] + [s[n]];
      if s[n] == AMPERSAND {
        assert (ps + [[]])[..|ps|] == ps;
      } else {
        JoinGrows(ps, s[n]);
      }
    }
  }

  lemma JoinGrows(ps: seq<Text>, b: Byte)
    requires ps != []
    ensures var last := |ps| - 1;
            Join(ps[last := ps[last] + [b]]) == Join(ps) + [b]
  {
    var last := |ps| - 1;
    assert ps[last := ps[last] + [b]][..last] == ps[..last];
  }

  lemma {:induction false} PiecesArePlain(s: Text)
    ensures forall p | p in Pieces(s) :: AMPERSAND !in p
  {
    if s != [] {
      PiecesArePlain(s[..|s| - 1]);
    }
  }

  lemma {:induction false} PiecesOfPlain(s: Text, p: Text)
    requires AMPERSAND !in p
    ensures var last := |Pieces(s)| - 1;
            Pieces(s + p) == Pieces(s)[last := Pieces(s)[last] + p]
  {
    if p == [] {
      assert s + p == s && Pieces(s)[|Pieces(s)| - 1] + p == Pieces(s)[|Pieces(s)| - 1];
    } else {
      var n := |p| - 1;
      PiecesOfPlain(s, p[..n]);
      assert (s + p)[..|s + p| - 1] == s + p[..n];
      var ps := Pieces(s);
      assert ps[|ps| - 1] + p[..n] + [p[n]] == ps[|ps| - 1] + p;
      assert Pieces(s + p[..n])[..|ps| - 1] == ps[..|ps| - 1];
    }
  }

  /** The pieces are the only way to split a query at its '&'s. */
  lemma {:induction false} PiecesOfJoin(ps: seq<Text>)
    requires ps != [] && forall p | p in ps :: AMPERSAND !in p
    ensures Pieces(Join(ps)) == ps
  {
    var n := |ps| - 1;
    if n == 0 {
      PiecesOfOne(ps[0]);
    } else {
      forall p | p in ps[..n] ensures AMPERSAND !in p {
        assert p in ps;
      }
      PiecesOfJoin(ps[..n]);
      PiecesAfterAmpersand(Join(ps[..n]), ps[n]);
      assert ps == ps[..n] + [ps[n]];
    }
  }

  lemma PiecesOfOne(p: Text)
    requires AMPERSAND !in p
    ensures Pieces(p) == [p]
  {
    PiecesOfPlain([], p);
    assert [] + p == p;
  }

  lemma PiecesAfterAmpersand(q: Text, p: Text)
    requires AMPERSAND !in p
    ensures Pieces(q + [AMPERSAND] + p) == Pieces(q) + [p]
  {
    var s, ps := q + [AMPERSAND], Pieces(q);
    assert s[..|s| - 1] == q && s[|s| - 1] == AMPERSAND;
    assert Pieces(s) == ps + [[]];
    PiecesOfPlain(s, p);
    UpdateLast(ps, p);
  }

  lemma UpdateLast(ps: seq<Text>, p: Text)
    ensures (ps + [[]])[|ps| := [] + p] == ps + [p]
  {
    assert [] + p == p;
  }

  /** All pieces but the last stay when more follows. */
  lemma {:induction false} FinishedStay(s: Text, t: Text)
    ensures |Pieces(s + t)| >= |Pieces(s)|
    ensures forall k | 0 <= k < |Pieces(s)| - 1 :: Pieces(s + t)[k] == Pieces(s)[k]
  {
    if t == [] {
      assert s + t == s;
    } else {
      var n := |t| - 1;
      FinishedStay(s, t[..n]);
      assert (s + t)[..|s + t| - 1] == s + t[..n];
    }
  }

  lemma SliceOfPrefix(a: Text, n: nat, lo: nat, hi: nat)
    requires lo <= hi <= n <= |a|
    ensures a[..n][lo..hi] == a[lo..hi]
  {
    forall k | 0 <= k < hi - lo ensures a[..n][lo..hi][k] == a[lo..hi][k] {
    }
  }

  lemma SliceOfSuffix(a: Text, n: nat, lo: nat, hi: nat)
    requires n + lo <= n + hi <= |a|
    ensures a[n..][lo..hi] == a[n + lo..n + hi]
  {
    forall k | 0 <= k < hi - lo ensures a[n..][lo..hi][k] == a[n + lo..n + hi][k] {
    }
  }

  lemma SliceOfSlice(a: Text, lo: nat, hi: nat, from: nat, to: nat)
    requires lo <= hi <= |a| && from <= to <= hi - lo
    ensures a[lo..hi][from..to] == a[lo + from..lo + to]
  {
    forall k | 0 <= k < to - from ensures a[lo..hi][from..to][k] == a[lo + from..lo + to][k] {
    }
  }

  lemma SamePart(a: Text, b: Text, n: nat, lo: nat, hi: nat)
    requires n <= |a| == |b| && a[..n] == b[..n] && lo <= hi <= n
    ensures a[lo..hi] == b[lo..hi]
  {
    SliceOfPrefix(a, n, lo, hi);
    SliceOfPrefix(b, n, lo, hi);
  }

  /** The part of a buffer that a slice covers. */
  datatype Range = Range(lo: nat, hi: nat) {
    predicate Within(lo': nat, hi': nat) {
      lo' <= lo <= hi <= hi'
    }

    function In(bs: Text): Text
      requires Within(0, |bs|)
    {
      bs[lo..hi]
    }
  }

  /** What stands behind the two digits moves left by two; the last two bytes remain. */
  method ShiftLeft(data: array<Byte>, lo: nat, n: nat, i: nat)
    requires i + 2 < n && lo + n <= data.Length
    modifies data
    ensures Shifted(old(data[..]), data[..], lo + i + 1, lo + n)
  {
    for x := i to n - 3
      invariant forall k | 0 <= k <= lo + x :: data[k] == old(data[if lo + i < k then k + 2 else k])
      invariant forall k | lo + x < k < data.Length :: data[k] == old(data[k])
    {
      data[lo + x + 1] := data[lo + x + 3];
    }
  }

  /** Nothing outside [lo, hi) differs. */
  ghost predicate SameOutside(was: Text, now: Text, lo: nat, hi: nat) {
    lo <= hi <= |was| == |now| && now[..lo] == was[..lo] && now[hi..] == was[hi..]
  }

  /** The bytes [from + 2, to) have moved to `from`, all others are where they were. */
  ghost predicate Shifted(was: Text, now: Text, from: nat, to: nat) {
    && from + 2 <= to <= |was| == |now|
    && now[..from] == was[..from] && now[from..to - 2] == was[from + 2..to] && now[to - 2..] == was[to - 2..]
  }

  /** Replaces the escape at `i` by its byte; the rest of the first `l` bytes follows. */
  method UnescapeAt(data: array<Byte>, lo: nat, n: nat, i: nat, ghost l: nat)
    requires i + 2 < l <= n && lo + n <= data.Length
    modifies data
    ensures data[lo..lo + i + 1] == old(data[lo..lo + i] + [Escaped(data[lo + i + 1], data[lo + i + 2])])
    ensures data[lo + i + 1..lo + l - 2] == old(data[lo + i + 3..lo + l])
    ensures SameOutside(old(data[..]), data[..], lo, lo + n)
  {
    ghost var was := data[..];
    var a := FromHexChar(data[lo + i + 1]);
    var b := FromHexChar(data[lo + i + 2]);
    data[lo + i] := a * 16 + b;
    assert data[..] == was[lo + i := a * 16 + b];
    ShiftLeft(data, lo, n, i);
    EscapeReplaced(was, data[..], a * 16 + b, lo, n, i, l);
    WholeSlices(data, lo, i, n, l);
  }

  /** Slices of an array are slices of its contents. */
  lemma WholeSlices(data: array<Byte>, lo: nat, i: nat, n: nat, l: nat)
    requires i + 2 < l <= n && lo + n <= data.Length
    ensures data[lo..lo + i + 1] == data[..][lo..lo + i + 1]
    ensures data[lo + i + 1..lo + l - 2] == data[..][lo + i + 1..lo + l - 2]
  {
  }

  lemma EscapeReplaced(was: Text, now: Text, v: Byte, lo: nat, n: nat, i: nat, l: nat)
    requires i + 2 < l <= n && lo + n <= |was|
    requires Shifted(was[lo + i := v], now, lo + i + 1, lo + n)
    ensures now[lo..lo + i + 1] == was[lo..lo + i] + [v] && now[lo + i + 1..lo + l - 2] == was[lo + i + 3..lo + l]
    ensures SameOutside(was, now, lo, lo + n)
  {
    var mid, from := was[lo + i := v], lo + i + 1;
    SamePart(now, mid, from, lo, from);
    SamePart(now, mid, from, 0, lo);
    assert mid[lo..from] == was[lo..lo + i] + [v] && mid[..lo] == was[..lo];
    ShiftedParts(mid, now, from, lo + n, l - 3 - i);
    assert mid[lo + i + 3..lo + l] == was[lo + i + 3..lo + l];
    assert mid[lo + n..] == was[lo + n..];
  }

  /** The first `m` of the moved bytes, and what stands behind all of them. */
  lemma ShiftedParts(was: Text, now: Text, from: nat, to: nat, m: nat)
    requires Shifted(was, now, from, to) && from + 2 + m <= to
    ensures now[from..from + m] == was[from + 2..from + 2 + m] && now[to..] == was[to..]
  {
    SliceOfSlice(now, from, to - 2, 0, m);
    SliceOfSlice(was, from + 2, to, 0, m);
    SliceOfSuffix(now, to - 2, 2, |was| - (to - 2));
    SliceOfSuffix(was, to - 2, 2, |was| - (to - 2));
  }

  /** Decodes a slice of the buffer in place, or finds an invalid escape; nil stays nil.
      No byte outside the slice changes. */
  method UnescapeFast(data: array<Byte>, bs: Option<Range>) returns (r: Option<Range>)
    requires bs.Some? ==> bs.value.Within(0, data.Length)
    modifies data
    ensures bs == None ==> r == None && data[..] == old(data[..])
    ensures bs.Some? ==> Unescaped(bs.value, r, old(data[..]), data[..])
  {
    if bs == None {
      return None;
    }
    var ok, l := UnescapeSlice(data, bs.value.lo, bs.value.hi - bs.value.lo);
    return if ok then Some(Range(bs.value.lo, bs.value.lo + l)) else None;
  }

  /** The slice `bs` of the buffer is decoded in place, or has an invalid escape. */
  ghost predicate Unescaped(bs: Range, r: Option<Range>, was: Text, now: Text) {
    && SameOutside(was, now, bs.lo, bs.hi)
    && match r
       case None => Unescape(bs.In(was)) == None
       case Some(x) => x.lo == bs.lo && x.Within(bs.lo, bs.hi) && Unescape(bs.In(was)) == Some(x.In(now))
  }

  method UnescapeSlice(data: array<Byte>, lo: nat, n: nat) returns (ok: bool, l: nat)
    requires lo + n <= data.Length
    modifies data
    ensures l <= n
    ensures Unescape(old(data[lo..lo + n])) == if ok then Some(data[lo..lo + l]) else None
    ensures SameOutside(old(data[..]), data[..], lo, lo + n)
  {
    ghost var was := data[lo..lo + n];
    DecodingStarts(was, data[..], lo, n);
    ok, l := UnescapeLoop(data, lo, n, was);
    if ok {
      DecodingEnds(was, data[..], lo, l);
    }
  }

  method UnescapeLoop(data: array<Byte>, lo: nat, n: nat, ghost was: Text) returns (ok: bool, l: nat)
    requires lo + n <= data.Length && DecodingAt(was, data[..], lo, 0, n)
    modifies data
    ensures l <= n && SameOutside(old(data[..]), data[..], lo, lo + n)
    ensures if ok then DecodingAt(was, data[..], lo, l, l) else Unescape(was) == None
  {
    l := n;
    var i := 0;
    while i < l
      invariant i <= l <= n && DecodingAt(was, data[..], lo, i, l)
      invariant SameOutside(old(data[..]), data[..], lo, lo + n)
      decreases l - i
    {
      ok, l := UnescapeTurn(data, lo, n, i, l, was);
      if !ok {
        return false, 0;
      }
      i := i + 1;
    }
    return true, l;
  }

  /** One turn of the loop, which may find that the slice has become shorter. */
  method UnescapeTurn(data: array<Byte>, lo: nat, n: nat, i: nat, l: nat, ghost was: Text) returns (ok: bool, next: nat)
    requires i < l <= n && lo + n <= data.Length && DecodingAt(was, data[..], lo, i, l)
    modifies data
    ensures ok ==> i < next <= l && DecodingAt(was, data[..], lo, i + 1, next)
    ensures !ok ==> Unescape(was) == None && next <= l
    ensures SameOutside(old(data[..]), data[..], lo, lo + n)
  {
    ghost var done, rest := data[lo..lo + i], data[lo + i..lo + l];
    DecodingStep(was, done, rest);
    assert rest[0] == data[lo + i];
    if data[lo + i] != PERCENT {
      SliceOfSlice(data[..], lo + i, lo + l, 1, l - i);
      assert data[lo..lo + i + 1] == done + [rest[0]];
      return true, l;
    }
    if i + 2 >= l {
      return false, l;
    }
    SliceOfSlice(data[..], lo + i, lo + l, 3, l - i);
    assert rest[1] == data[lo + i + 1] && rest[2] == data[lo + i + 2];
    UnescapeAt(data, lo, n, i, l);
    return true, l - 2;
  }

  /** `done` is decoded, and what is left of `was` is `rest`. */
  ghost predicate Decoding(was: Text, done: Text, rest: Text) {
    Unescape(was) == Prepend(done, Unescape(rest))
  }

  /** The loop at `i`, with `l` bytes of the slice left. */
  ghost predicate DecodingAt(was: Text, bs: Text, lo: nat, i: nat, l: nat)
    requires i <= l && lo + l <= |bs|
  {
    Decoding(was, bs[lo..lo + i], bs[lo + i..lo + l])
  }

  lemma DecodingStarts(was: Text, bs: Text, lo: nat, n: nat)
    requires lo + n <= |bs| && was == bs[lo..lo + n]
    ensures DecodingAt(was, bs, lo, 0, n)
  {
    PrependNothing(Unescape(was));
    assert bs[lo..lo] == [];
  }

  lemma DecodingEnds(was: Text, bs: Text, lo: nat, l: nat)
    requires lo + l <= |bs| && DecodingAt(was, bs, lo, l, l)
    ensures Unescape(was) == Some(bs[lo..lo + l])
  {
    assert bs[lo + l..lo + l] == [] && bs[lo..lo + l] + [] == bs[lo..lo + l];
  }

  lemma DecodingStep(was: Text, done: Text, rest: Text)
    requires Decoding(was, done, rest) && rest != []
    ensures rest[0] != PERCENT ==> Decoding(was, done + [rest[0]], rest[1..])
    ensures rest[0] == PERCENT && |rest| < 3 ==> Unescape(was).None?
    ensures rest[0] == PERCENT && |rest| >= 3 ==> Decoding(was, done + [Escaped(rest[1], rest[2])], rest[3..])
  {
    if rest[0] != PERCENT {
      PrependTwice(done, [rest[0]], Unescape(rest[1..]));
    } else if |rest| >= 3 {
      PrependTwice(done, [Escaped(rest[1], rest[2])], Unescape(rest[3..]));
    }
  }

  // ---------- The query ----------

  function Kept(pieces: seq<Text>): nat {
    if |pieces| < MAX_PARAMS then |pieces| else MAX_PARAMS
  }

  /** What the parser accepts as a query: the pieces that it keeps have no bad escape,
      and the last piece of all, if it is kept, is not empty. */
  predicate GoodPieces(ps: seq<Text>)
    requires ps != []
  {
    && (forall k | 0 <= k < Kept(ps) :: Unescape(ps[k]).Some?)
    && (|ps| <= MAX_PARAMS ==> ps[|ps| - 1] != [])
  }

  type Params = ps: seq<Option<Range>> | |ps| == MAX_PARAMS witness seq(MAX_PARAMS, _ => None)

  /** The slices lie one behind the other in [lo, hi). */
  ghost predicate Ordered(params: Params, lo: nat, hi: nat) {
    && (forall k | 0 <= k < MAX_PARAMS && params[k].Some? :: params[k].value.Within(lo, hi))
    && (forall j, k | 0 <= j < k < MAX_PARAMS && params[j].Some? && params[k].Some? ::
          params[j].value.hi <= params[k].value.lo)
  }

  /** Where the pieces are. */
  function Cuts(q: Text): (cs: seq<Range>)
    ensures |cs| >= 1 && cs[|cs| - 1].Within(0, |q|) && cs[|cs| - 1].hi == |q|
  {
    if q == [] then [Range(0, 0)]
    else
      var n := |q| - 1;
      var cs := Cuts(q[..n]);
      if q[n] == AMPERSAND then cs + [Range(|q|, |q|)] else cs[|cs| - 1 := Range(cs[|cs| - 1].lo, |q|)]
  }

  lemma {:induction false} CutsInOrder(q: Text)
    ensures forall k | 0 <= k < |Cuts(q)| :: Cuts(q)[k].Within(0, |q|)
    ensures forall j, k | 0 <= j < k < |Cuts(q)| :: Cuts(q)[j].hi < Cuts(q)[k].lo
  {
    if q != [] {
      CutsInOrder(q[..|q| - 1]);
    }
  }

  /** The k-th cut holds the k-th piece. */
  ghost predicate Cut(q: Text, k: nat)
    requires k < |Cuts(q)|
  {
    var c := Cuts(q)[k];
    c.Within(0, |q|) && k < |Pieces(q)| && q[c.lo..c.hi] == Pieces(q)[k]
  }

  lemma CutStays(q: Text, k: nat)
    requires q != [] && var before := q[..|q| - 1]; k < |Cuts(before)| && Cut(before, k)
    ensures var c := Cuts(q[..|q| - 1])[k];
            c.hi < |q| && q[c.lo..c.hi] == Pieces(q[..|q| - 1])[k]
  {
    var n := |q| - 1;
    SliceOfPrefix(q, n, Cuts(q[..n])[k].lo, Cuts(q[..n])[k].hi);
  }

  lemma {:induction false} CutsHold(q: Text)
    ensures |Cuts(q)| == |Pieces(q)| && forall k | 0 <= k < |Cuts(q)| :: Cut(q, k)
  {
    if q != [] {
      var n := |q| - 1;
      CutsHold(q[..n]);
      var cs, ps := Cuts(q[..n]), Pieces(q[..n]);
      var last := cs[|cs| - 1];
      forall k | 0 <= k < |Cuts(q)| ensures Cut(q, k) {
        if k < |cs| {
          CutStays(q, k);
        }
        if k == |cs| - 1 && q[n] != AMPERSAND {
          assert q[last.lo..|q|] == q[last.lo..n] + [q[n]];
        }
      }
    }
  }

  lemma CutsArePieces(q: Text)
    ensures |Cuts(q)| == |Pieces(q)|
    ensures forall k | 0 <= k < |Cuts(q)| :: Cuts(q)[k].Within(0, |q|) && Cuts(q)[k].In(q) == Pieces(q)[k]
  {
    CutsHold(q);
    forall k | 0 <= k < |Cuts(q)| ensures Cuts(q)[k].Within(0, |q|) && Cuts(q)[k].In(q) == Pieces(q)[k] {
      assert Cut(q, k);
    }
  }

  lemma {:induction false} FinishedCutsStay(q: Text, i: nat)
    requires i <= |q|
    ensures |Cuts(q[..i])| <= |Cuts(q)|
    ensures forall k | 0 <= k < |Cuts(q[..i])| - 1 :: Cuts(q)[k] == Cuts(q[..i])[k]
  {
    if i == |q| {
      assert q[..i] == q;
    } else {
      var n := |q| - 1;
      FinishedCutsStay(q[..n], i);
      assert q[..n][..i] == q[..i];
    }
  }

  /** The slice of the buffer for a piece of the query that starts at `lo`. */
  function Slice(c: Range, lo: nat): Option<Range>
    requires c.lo <= c.hi
  {
    Some(Range(lo + c.lo, lo + c.hi))
  }

  /** The first loop has cut q[..i] except for the piece from `pos` on. */
  ghost predicate Splitting(q: Text, lo: nat, params: Params, pos: nat, i: nat, pIndex: nat) {
    && pos <= i <= |q| && pIndex <= MAX_PARAMS
    && |Cuts(q[..i])| == pIndex + 1 && Cuts(q[..i])[pIndex] == Range(pos, i)
    && (forall k | 0 <= k < pIndex ::
          Cuts(q[..i])[k].lo <= Cuts(q[..i])[k].hi && params[k] == Slice(Cuts(q[..i])[k], lo))
    && (pIndex < MAX_PARAMS ==> params[pIndex] == if i == |q| && pos < i then Slice(Range(pos, i), lo) else None)
    && (forall k | pIndex < k < MAX_PARAMS :: params[k] == None)
  }

  lemma SplittingAtAmpersand(q: Text, lo: nat, params: Params, pos: nat, i: nat, pIndex: nat)
    requires Splitting(q, lo, params, pos, i, pIndex) && i < |q| && pIndex < MAX_PARAMS && q[i] == AMPERSAND
    ensures Splitting(q, lo, params[pIndex := Some(Range(lo + pos, lo + i))], i + 1, i + 1, pIndex + 1)
  {
    CutsNext(q, i);
  }

  lemma SplittingElsewhere(q: Text, lo: nat, params: Params, pos: nat, i: nat, pIndex: nat)
    requires Splitting(q, lo, params, pos, i, pIndex) && i < |q| && pIndex < MAX_PARAMS && q[i] != AMPERSAND
    ensures i + 1 < |q| ==> Splitting(q, lo, params, pos, i + 1, pIndex)
    ensures i + 1 == |q| ==> Splitting(q, lo, params[pIndex := Some(Range(lo + pos, lo + i + 1))], pos, i + 1, pIndex)
  {
    CutsNext(q, i);
    var cs, more := Cuts(q[..i]), Cuts(q[..i + 1]);
    assert more[pIndex] == Range(pos, i + 1) && forall k | 0 <= k < pIndex :: more[k] == cs[k];
  }

  lemma CutsNext(q: Text, i: nat)
    requires i < |q|
    ensures var cs, last := Cuts(q[..i]), |Cuts(q[..i])| - 1;
            && (q[i] == AMPERSAND ==> Cuts(q[..i + 1]) == cs + [Range(i + 1, i + 1)])
            && (q[i] != AMPERSAND ==> Cuts(q[..i + 1]) == cs[last := Range(cs[last].lo, i + 1)])
  {
    assert q[..i + 1][..i] == q[..i];
  }

  lemma SplittingDone(q: Text, lo: nat, params: Params, pos: nat, i: nat, pIndex: nat)
    requires Splitting(q, lo, params, pos, i, pIndex) && (i == |q| || pIndex == MAX_PARAMS)
    ensures Kept(Pieces(q)) == if pIndex == MAX_PARAMS then MAX_PARAMS else pIndex + 1
    ensures SplitAt(params, q, lo)
  {
    CutsArePieces(q);
    FinishedCutsStay(q, i);
    if pIndex == MAX_PARAMS {
      FilledDone(q, lo, params, pos, i);
    } else {
      assert q[..i] == q;
      EndedDone(q, lo, params, pos, pIndex);
    }
  }

  lemma FilledDone(q: Text, lo: nat, params: Params, pos: nat, i: nat)
    requires Splitting(q, lo, params, pos, i, MAX_PARAMS)
    ensures SplitAt(params, q, lo)
  {
    FinishedCutsStay(q, i);
    forall k | 0 <= k < MAX_PARAMS ensures SliceFor(params[k], Cuts(q), k, |q|, lo) {
      assert Cuts(q)[k] == Cuts(q[..i])[k];
    }
  }

  lemma EndedDone(q: Text, lo: nat, params: Params, pos: nat, pIndex: nat)
    requires q[..|q|] == q && Splitting(q, lo, params, pos, |q|, pIndex) && pIndex < MAX_PARAMS
    ensures SplitAt(params, q, lo)
  {
  }

  /** The slice for the k-th piece, but none for a last piece that is empty. */
  predicate SliceFor(param: Option<Range>, cs: seq<Range>, k: nat, size: nat, lo: nat) {
    if k < |cs| && !(k == |cs| - 1 && cs[k].lo == size)
    then cs[k].lo <= cs[k].hi && param == Slice(cs[k], lo)
    else param == None
  }

  ghost predicate SplitAt(params: Params, q: Text, lo: nat) {
    forall k | 0 <= k < MAX_PARAMS :: SliceFor(params[k], Cuts(q), k, |q|, lo)
  }

  /** The first loop: cuts the query data[lo..hi] at its '&'s, without touching it. */
  method SplitQuery(data: array<Byte>, lo: nat, hi: nat) returns (params: Params, pIndex: nat)
    requires lo <= hi <= data.Length
    ensures pIndex + 1 == Kept(Pieces(data[lo..hi]))
    ensures SplitAt(params, data[lo..hi], lo)
  {
    params := seq(MAX_PARAMS, _ => None);
    ghost var q := data[lo..hi];
    var pos, i := 0, 0;
    pIndex := 0;
    while i < hi - lo && pIndex < MAX_PARAMS
      invariant Splitting(q, lo, params, pos, i, pIndex)
    {
      if data[lo + i] == AMPERSAND {
        SplittingAtAmpersand(q, lo, params, pos, i, pIndex);
        params := params[pIndex := Some(Range(lo + pos, lo + i))];
        pos := i + 1;
        pIndex := pIndex + 1;
      } else if i == hi - lo - 1 {
        SplittingElsewhere(q, lo, params, pos, i, pIndex);
        params := params[pIndex := Some(Range(lo + pos, lo + i + 1))];
      } else {
        SplittingElsewhere(q, lo, params, pos, i, pIndex);
      }
      i := i + 1;
    }
    SplittingDone(q, lo, params, pos, i, pIndex);
    if pIndex == MAX_PARAMS {
      pIndex := pIndex - 1;
    }
  }

  /** There is a k-th piece, and it is not an empty one at the end. */
  predicate Whole(ps: seq<Text>, k: nat) {
    k < |ps| && !(k == |ps| - 1 && ps[k] == [])
  }

  /** The second loop has decoded the first `i` pieces; the others are as they were cut. */
  ghost predicate Decoded(params: Params, bs: Text, ps: seq<Text>, i: nat, lo: nat, hi: nat) {
    && hi <= |bs| && Ordered(params, lo, hi) && i <= Kept(ps)
    && (forall k | 0 <= k < i :: params[k].Some? && Unescape(ps[k]) == Some(params[k].value.In(bs)))
    && (forall k | i <= k < MAX_PARAMS && params[k].Some? :: Whole(ps, k) && params[k].value.In(bs) == ps[k])
    && (forall k | i <= k < MAX_PARAMS && params[k].None? :: !Whole(ps, k))
  }

  lemma InFrame(other: Range, r: Range, bs: Text, after: Text)
    requires r.Within(0, |bs|) && other.Within(0, |bs|) && (other.hi <= r.lo || r.hi <= other.lo)
    requires SameOutside(bs, after, r.lo, r.hi)
    ensures other.In(after) == other.In(bs)
  {
    if other.hi <= r.lo {
      SliceOfPrefix(bs, r.lo, other.lo, other.hi);
      SliceOfPrefix(after, r.lo, other.lo, other.hi);
    } else {
      SliceOfSuffix(bs, r.hi, other.lo - r.hi, other.hi - r.hi);
      SliceOfSuffix(after, r.hi, other.lo - r.hi, other.hi - r.hi);
    }
  }

  /** Decoding one piece leaves every other piece as it is. */
  lemma DecodedStep(params: Params, bs: Text, after: Text, piece: Range, ps: seq<Text>, i: nat, lo: nat, hi: nat)
    requires Decoded(params, bs, ps, i, lo, hi) && i < Kept(ps) && params[i].Some?
    requires Unescaped(params[i].value, Some(piece), bs, after)
    ensures Decoded(params[i := Some(piece)], after, ps, i + 1, lo, hi)
  {
    forall k | 0 <= k < MAX_PARAMS && k != i && params[k].Some?
      ensures params[k].value.In(after) == params[k].value.In(bs)
    {
      InFrame(params[k].value, params[i].value, bs, after);
    }
  }

  lemma SliceIsPiece(param: Option<Range>, bs: Text, lo: nat, hi: nat, k: nat)
    requires lo <= hi <= |bs| && SliceFor(param, Cuts(bs[lo..hi]), k, hi - lo, lo)
    ensures var ps := Pieces(bs[lo..hi]);
            && (param.Some? <==> Whole(ps, k))
            && (param.Some? ==> param.value.Within(lo, hi) && param.value.In(bs) == ps[k])
  {
    var q := bs[lo..hi];
    CutsArePieces(q);
    if k < |Cuts(q)| {
      var c := Cuts(q)[k];
      assert c.In(q) == Pieces(q)[k] && |c.In(q)| == c.hi - c.lo;
      SliceOfSlice(bs, lo, hi, c.lo, c.hi);
    }
  }

  lemma DecodedAtStart(params: Params, bs: Text, lo: nat, hi: nat)
    requires lo <= hi <= |bs| && SplitAt(params, bs[lo..hi], lo)
    ensures Decoded(params, bs, Pieces(bs[lo..hi]), 0, lo, hi)
  {
    var cs, ps := Cuts(bs[lo..hi]), Pieces(bs[lo..hi]);
    CutsInOrder(bs[lo..hi]);
    forall k | 0 <= k < MAX_PARAMS
      ensures SliceFor(params[k], cs, k, hi - lo, lo)
      ensures params[k].Some? <==> Whole(ps, k)
      ensures params[k].Some? ==> params[k].value.Within(lo, hi) && params[k].value.In(bs) == ps[k]
    {
      assert SliceFor(params[k], cs, k, |bs[lo..hi]|, lo);
      SliceIsPiece(params[k], bs, lo, hi, k);
    }
  }

  /** The second loop: decodes the kept pieces in place. Nothing outside the query
      changes. */
  method DecodeParams(data: array<Byte>, split: Params, pIndex: nat, lo: nat, hi: nat, ghost ps: seq<Text>)
    returns (params: Params, ok: bool)
    requires lo <= hi <= data.Length && Decoded(split, data[..], ps, 0, lo, hi) && pIndex + 1 == Kept(ps)
    modifies data
    ensures SameOutside(old(data[..]), data[..], lo, hi)
    ensures ok <==> GoodPieces(ps)
    ensures ok ==> Decoded(params, data[..], ps, Kept(ps), lo, hi)
  {
    params := split;
    for i := 0 to pIndex + 1
      invariant SameOutside(old(data[..]), data[..], lo, hi)
      invariant Decoded(params, data[..], ps, i, lo, hi) && AllWhole(ps, i)
    {
      params, ok := DecodeParam(data, params, i, lo, hi, ps);
      if !ok {
        return;
      }
    }
    DecodedAll(params, data[..], ps, lo, hi);
    return params, true;
  }

  /** One turn of that loop. */
  method DecodeParam(data: array<Byte>, params: Params, i: nat, lo: nat, hi: nat, ghost ps: seq<Text>)
    returns (next: Params, ok: bool)
    requires lo <= hi <= data.Length && Decoded(params, data[..], ps, i, lo, hi) && i < Kept(ps) && AllWhole(ps, i)
    modifies data
    ensures SameOutside(old(data[..]), data[..], lo, hi)
    ensures ok ==> Decoded(next, data[..], ps, i + 1, lo, hi) && AllWhole(ps, i + 1)
    ensures !ok ==> !GoodPieces(ps)
  {
    ghost var was := data[..];
    var piece := UnescapeFast(data, params[i]);
    if piece == None {
      return params, false;
    }
    KeepsOutside(was, data[..], params[i].value, lo, hi);
    DecodedStep(params, was, data[..], piece.value, ps, i, lo, hi);
    return params[i := piece], true;
  }

  ghost predicate AllWhole(ps: seq<Text>, i: nat) {
    forall k | 0 <= k < i :: Whole(ps, k)
  }

  lemma DecodedAll(params: Params, bs: Text, ps: seq<Text>, lo: nat, hi: nat)
    requires ps != [] && Decoded(params, bs, ps, Kept(ps), lo, hi) && AllWhole(ps, Kept(ps))
    ensures GoodPieces(ps)
  {
    assert |ps| <= MAX_PARAMS ==> Whole(ps, |ps| - 1);
  }

  lemma KeepsOutside(bs: Text, after: Text, r: Range, lo: nat, hi: nat)
    requires lo <= hi <= |bs| && r.Within(lo, hi) && SameOutside(bs, after, r.lo, r.hi)
    ensures SameOutside(bs, after, lo, hi)
  {
    SliceOfPrefix(after, r.lo, 0, lo);
    SliceOfPrefix(bs, r.lo, 0, lo);
    SliceOfSuffix(after, r.hi, hi - r.hi, |bs| - r.hi);
    SliceOfSuffix(bs, r.hi, hi - r.hi, |bs| - r.hi);
  }

  // ---------- The request ----------

  predicate At(s: Text, pat: Text, k: int) {
    0 <= k && k + |pat| <= |s| && s[k..k + |pat|] == pat
  }

  /** bytes.Index: the first occurrence, or -1. */
  function Index(s: Text, pat: Text): (r: int)
    ensures r == -1 || At(s, pat, r)
    ensures forall k | 0 <= k && (r == -1 || k < r) :: !At(s, pat, k)
    decreases |s|
  {
    if At(s, pat, 0) then 0
    else if |s| == 0 then -1
    else
      var r := Index(s[1..], pat);
      assert forall k | k > 0 :: At(s, pat, k) ==> At(s[1..], pat, k - 1);
      if r == -1 then -1 else r + 1
  }

  const GET := [71, 69, 84]
  const HTTP := [32, 72, 84, 84, 80, 47]  // " HTTP/"
  const GET_SLASH := [71, 69, 84, 32, 47] // "GET /"
  const SPACE_SLASH := [32, 47]           // " /"

  /** The landmarks of a request, found anywhere in the buffer. */
  datatype Marks = Marks(urlEnd: int, pathStart: int, question: int, methodEnd: int) {
    predicate HasQuery() {
      question != -1 && question < urlEnd
    }
  }

  function MarksOf(s: Text): (m: Marks)
    ensures m.HasQuery() ==> 0 <= m.question && m.urlEnd <= |s|
    ensures 3 <= m.pathStart && -1 <= m.urlEnd <= |s| && -1 <= m.methodEnd <= |s|
  {
    Marks(Index(s, HTTP), Index(s, GET_SLASH) + 4, Index(s, [QUESTION]), Index(s, SPACE_SLASH))
  }

  function Query(s: Text): Text
    requires MarksOf(s).HasQuery()
  {
    s[MarksOf(s).question + 1..MarksOf(s).urlEnd]
  }

  predicate Accepted(s: Text) {
    var m := MarksOf(s);
    && m.methodEnd != -1 && m.urlEnd >= 5 && m.pathStart <= m.urlEnd
    && (m.HasQuery() ==> m.pathStart <= m.question && GoodPieces(Pieces(Query(s))))
  }

  datatype Parsed = Parsed(Path: Range, Params: Params, URLend: int, Method: Range)

  /** The slices that parse returns for the buffer `s`, which it leaves as `after`. */
  ghost predicate Describes(p: Parsed, s: Text, after: Text) {
    var m := MarksOf(s);
    && |after| == |s| && p.URLend == m.urlEnd
    && p.Method.lo == 0 && p.Method.hi == m.methodEnd
    && p.Path.lo == m.pathStart && p.Path.hi == (if m.HasQuery() then m.question else m.urlEnd) && p.Path.Within(0, |s|)
    && (m.HasQuery() ==>
          && SameOutside(s, after, m.question + 1, m.urlEnd)
          && Decoded(p.Params, after, Pieces(Query(s)), Kept(Pieces(Query(s))), m.question + 1, m.urlEnd))
    && (!m.HasQuery() ==> after == s && forall k | 0 <= k < MAX_PARAMS :: p.Params[k] == None)
  }

  /** What parse does with the whole buffer: a failed base64 decoding is an error of its
      own; else it parses the buffer, or the decoded request at its front. */
  datatype ParseResult = Success(p: Parsed) | Invalid | NotBase64

  const BASE64_GET := [82, 48, 86, 85]  // "R0VU"

  predicate IsBase64(s: Text) {
    |s| >= 4 && s[..4] == BASE64_GET
  }

  /** The bytes that are parsed; `base64` is the standard decoding, None for bad input. */
  function Plain(s: Text, size: nat, base64: Text -> Option<Text>): Option<Text>
    requires size <= |s|
  {
    if IsBase64(s) then base64(s[..size]) else Some(s)
  }

  /** Parses the `size` bytes read into the buffer, with what stands behind them. Base64
      is decoded in place; its decoding is never longer than its text. */
  method Parse(data: array<Byte>, size: nat, base64: Text -> Option<Text>) returns (r: ParseResult)
    requires size <= data.Length
    requires forall t, plain :: base64(t) == Some(plain) ==> |plain| <= |t|
    modifies data
    ensures r.NotBase64? <==> Plain(old(data[..]), size, base64) == None
    ensures var plain := Plain(old(data[..]), size, base64);
            && (r.Success? <==> plain.Some? && Accepted(plain.value))
            && (r.Success? ==> |plain.value| <= data.Length && Describes(r.p, plain.value, data[..|plain.value|]))
  {
    var n := data.Length;
    if data.Length >= 4 && data[..4] == BASE64_GET {
      var decoded := base64(data[..size]);
      if decoded == None {
        return NotBase64;
      }
      n := |decoded.value|;
      forall k | 0 <= k < n {
        data[k] := decoded.value[k];
      }
      assert data[..n] == decoded.value;
    }
    assert data[..data.Length] == data[..];
    var p := ParsePlain(data, n);
    r := if p.Some? then Success(p.value) else Invalid;
  }

  lemma DescribesWithQuery(s: Text, after: Text, params: Params)
    requires Accepted(s) && MarksOf(s).HasQuery()
    requires var m, ps := MarksOf(s), Pieces(Query(s));
             SameOutside(s, after, m.question + 1, m.urlEnd) &&
             Decoded(params, after, ps, Kept(ps), m.question + 1, m.urlEnd)
    ensures var m := MarksOf(s);
            Describes(Parsed(Range(m.pathStart, m.question), params, m.urlEnd, Range(0, m.methodEnd)), s, after)
  {
  }

  lemma DescribesWithout(s: Text, params: Params)
    requires Accepted(s) && !MarksOf(s).HasQuery() && forall k | 0 <= k < MAX_PARAMS :: params[k] == None
    ensures var m := MarksOf(s);
            Describes(Parsed(Range(m.pathStart, m.urlEnd), params, m.urlEnd, Range(0, m.methodEnd)), s, s)
  {
  }

  /** Parses the first `n` bytes of the buffer. */
  method ParsePlain(data: array<Byte>, n: nat) returns (r: Option<Parsed>)
    requires n <= data.Length
    modifies data
    ensures r.Some? <==> Accepted(old(data[..n]))
    ensures r.Some? ==> Describes(r.value, old(data[..n]), data[..n])
  {
    ghost var s := data[..n];
    ghost var m := MarksOf(s);
    var urlEnd := Index(data[..n], HTTP);
    var pathStart := Index(data[..n], GET_SLASH) + 4;
    var pathEnd := Index(data[..n], [QUESTION]);
    var methodEnd := Index(data[..n], SPACE_SLASH);
    if methodEnd == -1 {
      return None;
    }
    if urlEnd == -1 {
      return None;
    }
    if urlEnd < 5 {
      return None;
    }
    if pathStart > urlEnd {
      return None;
    }
    if pathEnd != -1 && pathEnd < urlEnd {
      if pathEnd < pathStart {
        return None;
      }
      var params, ok := ParseQuery(data, n, pathEnd + 1, urlEnd);
      if !ok {
        return None;
      }
      DescribesWithQuery(s, data[..n], params);
      return Some(Parsed(Range(pathStart, pathEnd), params, urlEnd, Range(0, methodEnd)));
    } else {
      var params := seq(MAX_PARAMS, _ => None);
      DescribesWithout(s, params);
      return Some(Parsed(Range(pathStart, urlEnd), params, urlEnd, Range(0, methodEnd)));
    }
  }

  /** Both loops over the query data[lo..hi]. */
  method ParseQuery(data: array<Byte>, n: nat, lo: nat, hi: nat) returns (params: Params, ok: bool)
    requires lo <= hi <= n <= data.Length
    modifies data
    ensures var ps := Pieces(old(data[..n])[lo..hi]);
            && (ok <==> GoodPieces(ps))
            && (ok ==> Decoded(params, data[..n], ps, Kept(ps), lo, hi))
    ensures SameOutside(old(data[..n]), data[..n], lo, hi)
  {
    ghost var was, ps := data[..], Pieces(data[..n][lo..hi]);
    SliceOfPrefix(was, n, lo, hi);
    var pIndex;
    params, pIndex := SplitQuery(data, lo, hi);
    DecodedAtStart(params, was, lo, hi);
    params, ok := DecodeParams(data, params, pIndex, lo, hi, ps);
    PrefixSameOutside(was, data[..], n, lo, hi);
    if ok {
      DecodedInPrefix(params, data[..], n, ps, lo, hi);
    }
  }

  lemma PrefixSameOutside(was: Text, now: Text, n: nat, lo: nat, hi: nat)
    requires SameOutside(was, now, lo, hi) && hi <= n <= |was|
    ensures SameOutside(was[..n], now[..n], lo, hi)
  {
    SliceOfPrefix(was, n, 0, lo);
    SliceOfPrefix(now, n, 0, lo);
    SliceOfPrefix(was, n, hi, n);
    SliceOfPrefix(now, n, hi, n);
    SliceOfSuffix(was, hi, 0, n - hi);
    SliceOfSuffix(now, hi, 0, n - hi);
  }

  lemma DecodedInPrefix(params: Params, bs: Text, n: nat, ps: seq<Text>, lo: nat, hi: nat)
    requires Decoded(params, bs, ps, Kept(ps), lo, hi) && hi <= n <= |bs|
    ensures Decoded(params, bs[..n], ps, Kept(ps), lo, hi)
  {
    forall k | 0 <= k < MAX_PARAMS && params[k].Some? ensures params[k].value.In(bs[..n]) == params[k].value.In(bs) {
      SliceOfPrefix(bs, n, params[k].value.lo, params[k].value.hi);
    }
  }

  /** A request that the worker serves: its method, read after parsing, is GET. */
  ghost predicate Served(p: Parsed, s: Text, after: Text) {
    Accepted(s) && Describes(p, s, after) && p.Method.In(after) == GET
  }

  /** The path of a served request is not empty, starts with '/', is exactly the request
      target before its first '?', and decoding the query has not touched it. */
  lemma ServedPath(p: Parsed, s: Text, after: Text)
    requires Served(p, s, after)
    ensures var m := MarksOf(s);
            && s[..5] == GET_SLASH && m.pathStart == 4 && At(s, HTTP, m.urlEnd)
            && var target := s[4..m.urlEnd];
               var path := p.Path.In(after);
               && path != [] && path[0] == SLASH && path <= target && QUESTION !in path
               && (path == target || target[|path|] == QUESTION)
  {
    var m := MarksOf(s);
    HeadStaysAny(p, s, after);
    assert s[..5] == s[..3] + s[3..5];
    assert At(s, GET_SLASH, 0);
    assert s[4] == s[..5][4] == SLASH;
    forall i | 0 <= i < p.Path.hi - 4 ensures s[4..p.Path.hi][i] != QUESTION {
      assert m.HasQuery() || m.question == -1 || m.question >= m.urlEnd;
      assert !At(s, [QUESTION], 4 + i);
      assert s[4 + i..4 + i + 1] == [s[4 + i]];
    }
  }

  /** Method and path are as they were before the query was decoded. */
  lemma HeadStaysAny(p: Parsed, s: Text, after: Text)
    requires Served(p, s, after)
    ensures s[..3] == GET && p.Path.In(after) == s[MarksOf(s).pathStart..p.Path.hi]
  {
    var m := MarksOf(s);
    if m.HasQuery() {
      SamePart(after, s, m.question + 1, 0, 3);
      SamePart(after, s, m.question + 1, m.pathStart, m.question);
    }
  }

  // ---------- Requests that clients write ----------

  const SPACE: Byte := 32

  function Request(path: Text, q: Text, rest: Text): Text {
    GET + [SPACE] + path + [QUESTION] + q + HTTP + rest
  }

  /** Where the parts of a request stand. */
  predicate HasParts(s: Text, path: Text, q: Text) {
    var n := 4 + |path|;
    var end := n + 1 + |q|;
    && |s| >= end + 6 && path != [] && path[0] == SLASH
    && s[..3] == GET && s[3] == SPACE && s[4] == SLASH && s[n] == QUESTION && s[4..n] == path && s[n + 1..end] == q
    && At(s, GET_SLASH, 0) && At(s, SPACE_SLASH, 3) && At(s, [QUESTION], n) && At(s, HTTP, end)
  }

  lemma RequestParts(path: Text, q: Text, rest: Text)
    requires path != [] && path[0] == SLASH
    ensures HasParts(Request(path, q, rest), path, q)
  {
    var s, n := Request(path, q, rest), 4 + |path|;
    var end := n + 1 + |q|;
    assert s[..4] == GET + [SPACE] && s[4..n] == path && s[n] == QUESTION && s[n + 1..end] == q;
    assert s[end..end + 6] == HTTP && s[..5] == GET_SLASH && s[3..5] == SPACE_SLASH && s[n..n + 1] == [QUESTION];
  }

  lemma RequestMarks(s: Text, path: Text, q: Text)
    requires HasParts(s, path, q) && SPACE !in path && QUESTION !in path && SPACE !in q
    ensures MarksOf(s) == Marks(5 + |path| + |q|, 4, 4 + |path|, 3) && Query(s) == q
  {
    var n := 4 + |path|;
    var end := n + 1 + |q|;
    forall j | 0 <= j < end ensures !At(s, HTTP, j) {
      assert (j < 3 ==> s[j] == s[..3][j]) && (4 <= j < n ==> s[j] == path[j - 4]) && (n < j ==> s[j] == q[j - n - 1]);
      NotAt(s, HTTP, j, if j == 3 then 1 else 0);
    }
    forall j | 0 <= j < n ensures !At(s, [QUESTION], j) {
      assert (j < 3 ==> s[j] == s[..3][j]) && (4 <= j ==> s[j] == path[j - 4]);
      NotAt(s, [QUESTION], j, 0);
    }
    forall j | 0 <= j < 3 ensures !At(s, SPACE_SLASH, j) {
      assert s[j] == s[..3][j];
      NotAt(s, SPACE_SLASH, j, 0);
    }
  }

  lemma NotAt(s: Text, pat: Text, j: nat, i: nat)
    requires i < |pat| && j + i < |s| && s[j + i] != pat[i]
    ensures !At(s, pat, j)
  {
    assert j + |pat| <= |s| ==> s[j..j + |pat|][i] == s[j + i];
  }

  lemma {:induction false} JoinLacks(ps: seq<Text>, b: Byte)
    requires ps != [] && b != AMPERSAND && forall p | p in ps :: b !in p
    ensures b !in Join(ps)
  {
    if |ps| > 1 {
      JoinLacks(ps[..|ps| - 1], b);
    }
  }

  /** Up to 45 parameters, percent-encoded in any way; the last one is not empty. */
  predicate Written(path: Text, es: seq<Text>, plain: seq<Text>) {
    && path != [] && path[0] == SLASH && SPACE !in path && QUESTION !in path
    && 0 < |es| == |plain| <= MAX_PARAMS && es[|es| - 1] != []
    && forall k | 0 <= k < |es| :: Encodes(es[k], plain[k]) && SPACE !in es[k] && AMPERSAND !in es[k]
  }

  lemma RequestAccepted(path: Text, es: seq<Text>, plain: seq<Text>, rest: Text)
    requires Written(path, es, plain)
    ensures var s, n := Request(path, Join(es), rest), 4 + |path|;
            && MarksOf(s).HasQuery() && MarksOf(s).question == n
            && MarksOf(s).methodEnd == 3 && MarksOf(s).pathStart == 4
            && s[..3] == GET && s[4..n] == path && Pieces(Query(s)) == es && Accepted(s)
  {
    var s := Request(path, Join(es), rest);
    JoinLacks(es, SPACE);
    RequestParts(path, Join(es), rest);
    RequestMarks(s, path, Join(es));
    PiecesOfJoin(es);
    forall k | 0 <= k < |es| ensures Unescape(es[k]).Some? {
      UnescapeOfEncoding(es[k], plain[k]);
    }
  }

  /** From such a request the worker gets back the path and each parameter as it was
      before the encoding. */
  lemma RequestRoundTrip(path: Text, es: seq<Text>, plain: seq<Text>, rest: Text, p: Parsed, after: Text)
    requires Written(path, es, plain)
    ensures var s := Request(path, Join(es), rest);
            && Accepted(s)
            && (Describes(p, s, after) ==>
                  && Served(p, s, after) && p.Path.In(after) == path
                  && (forall k | 0 <= k < |es| :: p.Params[k].Some? && p.Params[k].value.In(after) == plain[k])
                  && (forall k | |es| <= k < MAX_PARAMS :: p.Params[k] == None))
  {
    var s := Request(path, Join(es), rest);
    RequestAccepted(path, es, plain, rest);
    if Describes(p, s, after) {
      HeadStays(p, s, after, 4 + |path|);
      DescribedParams(p, s, after, es);
      forall k | 0 <= k < |es| ensures p.Params[k].value.In(after) == plain[k] {
        UnescapeOfEncoding(es[k], plain[k]);
      }
    }
  }

  /** What stands before the query is as it was. */
  lemma HeadStays(p: Parsed, s: Text, after: Text, n: nat)
    requires Describes(p, s, after) && MarksOf(s).HasQuery() && MarksOf(s).question == n && n >= 4
    ensures after[..3] == s[..3] && after[4..n] == s[4..n]
  {
    SamePart(after, s, n + 1, 0, 3);
    SamePart(after, s, n + 1, 4, n);
  }

  lemma DescribedParams(p: Parsed, s: Text, after: Text, es: seq<Text>)
    requires Describes(p, s, after) && MarksOf(s).HasQuery() && Pieces(Query(s)) == es && |es| <= MAX_PARAMS
    ensures forall k | 0 <= k < |es| :: p.Params[k].Some? && p.Params[k].value.Within(0, |after|)
                                        && Unescape(es[k]) == Some(p.Params[k].value.In(after))
    ensures forall k | |es| <= k < MAX_PARAMS :: p.Params[k] == None
  {
  }
}
