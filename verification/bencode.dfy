/** Bencoding (the section "bencoding" of BEP 3): values, their encoding, and a
    decoder for the grammar. Dictionary keys need not be sorted, as the writer does
    not sort them. */
module Bencode {
  import opened Bytes
  import opened Storage

  type Text = seq<Byte>

  datatype Value =
    | Str(text: Text)
    | Int(i: int)
    | List(values: seq<Value>)
    | Dict(entries: seq<Pair>)

  datatype Pair = Pair(key: Text, value: Value)

  const D: Byte := 100      // 'd'
  const E: Byte := 101      // 'e'
  const I: Byte := 105      // 'i'
  const L: Byte := 108      // 'l'
  const COLON: Byte := 58   // ':'
  const MINUS: Byte := 45   // '-'
  const ZERO: Byte := 48    // '0'

  predicate IsDigit(b: Byte) {
    ZERO <= b < ZERO + 10
  }

  // ---------- Decimal numbers ----------

  function DecimalNat(n: nat): (s: Text)
    ensures s != [] && forall i | 0 <= i < |s| :: IsDigit(s[i])
    ensures s[0] == ZERO ==> n == 0 && s == [ZERO]
  {
    if n < 10 then [ZERO + n] else DecimalNat(n / 10) + [ZERO + n % 10]
  }

  /** strconv.FormatInt in base 10. */
  function Decimal(n: int): Text {
    if n < 0 then [MINUS] + DecimalNat(-n) else DecimalNat(n)
  }

  function FromDecimal(s: Text): nat
    requires forall i | 0 <= i < |s| :: IsDigit(s[i])
  {
    if s == [] then 0
    else
      assert IsDigit(s[|s| - 1]);
      FromDecimal(s[..|s| - 1]) * 10 + (s[|s| - 1] - ZERO)
  }

  lemma {:induction false} DecimalBack(n: nat)
    ensures FromDecimal(DecimalNat(n)) == n
  {
    if n >= 10 {
      DecimalBack(n / 10);
      assert DecimalNat(n)[..|DecimalNat(n)| - 1] == DecimalNat(n / 10);
    } else {
      assert FromDecimal([ZERO + n]) == FromDecimal([]) * 10 + n;
    }
  }

  /** The number of digits at the front of `s`. */
  function Digits(s: Text): (k: nat)
    ensures k <= |s| && forall i | 0 <= i < k :: IsDigit(s[i])
    ensures k < |s| ==> !IsDigit(s[k])
  {
    if s == [] || !IsDigit(s[0]) then 0 else 1 + Digits(s[1..])
  }

  /** A number without leading zeros, and what follows it. */
  function ParseNat(s: Text): (r: Option<(nat, Text)>)
    ensures r.Some? ==> |r.value.1| < |s|
  {
    var k := Digits(s);
    if k == 0 || (s[0] == ZERO && k > 1) then None else Some((FromDecimal(s[..k]), s[k..]))
  }

  lemma {:induction false} DigitsOf(a: Text, t: Text)
    requires forall i | 0 <= i < |a| :: IsDigit(a[i])
    requires t != [] && !IsDigit(t[0])
    ensures Digits(a + t) == |a|
  {
    if a == [] {
      assert a + t == t;
    } else {
      assert (a + t)[1..] == a[1..] + t;
      DigitsOf(a[1..], t);
    }
  }

  lemma ParseNatOfDecimal(n: nat, t: Text)
    requires t != [] && !IsDigit(t[0])
    ensures ParseNat(DecimalNat(n) + t) == Some((n, t))
  {
    var a := DecimalNat(n);
    DigitsOf(a, t);
    DecimalBack(n);
    assert (a + t)[..|a|] == a && (a + t)[|a|..] == t;
  }

  // ---------- Encoding ----------

  function EncodeText(s: Text): Text {
    DecimalNat(|s|) + [COLON] + s
  }

  function Encode(v: Value): Text
    decreases v, 1
  {
    match v
    case Str(s) => EncodeText(s)
    case Int(i) => [I] + Decimal(i) + [E]
    case List(vs) => [L] + EncodeValues(vs) + [E]
    case Dict(es) => [D] + EncodeEntries(es) + [E]
  }

  function EncodeValues(vs: seq<Value>): Text
    decreases vs, 0
  {
    if vs == [] then [] else Encode(vs[0]) + EncodeValues(vs[1..])
  }

  function EncodeEntries(es: seq<Pair>): Text
    decreases es, 0
  {
    if es == [] then [] else EncodeText(es[0].key) + Encode(es[0].value) + EncodeEntries(es[1..])
  }

  // ---------- Decoding ----------

  function ParseText(s: Text): (r: Option<(Text, Text)>)
    ensures r.Some? ==> |r.value.1| < |s|
  {
    match ParseNat(s)
    case None => None
    case Some((n, rest)) =>
      if rest != [] && rest[0] == COLON && n < |rest| then Some((rest[1..1 + n], rest[1 + n..])) else None
  }

  /** The digits and the end of an integer; "-0" and leading zeros are refused. */
  function ParseInt(s: Text): (r: Option<(int, Text)>)
    ensures r.Some? ==> |r.value.1| < |s|
  {
    if s != [] && s[0] == MINUS then Signed(true, s[1..]) else Signed(false, s)
  }

  function Signed(negative: bool, s: Text): (r: Option<(int, Text)>)
    ensures r.Some? ==> |r.value.1| < |s|
  {
    match ParseNat(s)
    case None => None
    case Some((n, rest)) =>
      if rest == [] || rest[0] != E || (negative && n == 0) then None
      else
        var i: int := n;
        Some((if negative then -i else i, rest[1..]))
  }

  function Parse(s: Text): (r: Option<(Value, Text)>)
    ensures r.Some? ==> |r.value.1| < |s|
    decreases |s|, 0
  {
    if s == [] then None
    else if s[0] == I then
      match ParseInt(s[1..])
      case None => None
      case Some((i, rest)) => Some((Int(i), rest))
    else if s[0] == L then
      match ParseValues(s[1..])
      case None => None
      case Some((vs, rest)) => Some((List(vs), rest))
    else if s[0] == D then
      match ParseEntries(s[1..])
      case None => None
      case Some((es, rest)) => Some((Dict(es), rest))
    else
      match ParseText(s)
      case None => None
      case Some((t, rest)) => Some((Str(t), rest))
  }

  /** Values up to the closing 'e'. */
  function ParseValues(s: Text): (r: Option<(seq<Value>, Text)>)
    ensures r.Some? ==> |r.value.1| < |s|
    decreases |s|, 1
  {
    if s == [] then None
    else if s[0] == E then Some(([], s[1..]))
    else
      match Parse(s)
      case None => None
      case Some((v, rest)) =>
        match ParseValues(rest)
        case None => None
        case Some((vs, end)) => Some(([v] + vs, end))
  }

  /** Keys and values up to the closing 'e'. */
  function ParseEntries(s: Text): (r: Option<(seq<Pair>, Text)>)
    ensures r.Some? ==> |r.value.1| < |s|
    decreases |s|, 1
  {
    if s == [] then None
    else if s[0] == E then Some(([], s[1..]))
    else
      match ParseText(s)
      case None => None
      case Some((key, s1)) =>
        match Parse(s1)
        case None => None
        case Some((v, s2)) =>
          match ParseEntries(s2)
          case None => None
          case Some((es, end)) => Some(([Pair(key, v)] + es, end))
  }

  // ---------- Decoding inverts encoding ----------

  lemma ParseTextOfEncode(s: Text, t: Text)
    ensures ParseText(EncodeText(s) + t) == Some((s, t))
  {
    var rest := [COLON] + s + t;
    assert EncodeText(s) + t == DecimalNat(|s|) + rest;
    ParseNatOfDecimal(|s|, rest);
    assert rest[1..1 + |s|] == s && rest[1 + |s|..] == t;
  }

  lemma SignedOfEncode(negative: bool, n: nat, t: Text)
    requires negative ==> n > 0
    ensures Signed(negative, DecimalNat(n) + ([E] + t)) == Some((if negative then -(n as int) else n, t))
  {
    ParseNatOfDecimal(n, [E] + t);
    assert ([E] + t)[1..] == t;
  }

  lemma NegativeStart(n: nat, t: Text)
    ensures var s := [MINUS] + DecimalNat(n) + [E] + t;
            s[0] == MINUS && s[1..] == DecimalNat(n) + ([E] + t)
  {
  }

  lemma NaturalStart(n: nat, t: Text)
    ensures var s := DecimalNat(n) + [E] + t;
            s == DecimalNat(n) + ([E] + t) && s[0] != MINUS
  {
    var s := DecimalNat(n) + [E] + t;
    assert s[0] == DecimalNat(n)[0] && IsDigit(s[0]);
  }

  lemma ParseIntOfEncode(i: int, t: Text)
    ensures ParseInt(Decimal(i) + [E] + t) == Some((i, t))
  {
    if i < 0 {
      NegativeStart(-i, t);
      SignedOfEncode(true, -i, t);
    } else {
      NaturalStart(i, t);
      SignedOfEncode(false, i, t);
    }
  }

  lemma ParseStr(s: Text, t: Text)
    ensures Parse(EncodeText(s) + t) == Some((Str(s), t))
  {
    ParseTextOfEncode(s, t);
    var whole := EncodeText(s) + t;
    assert whole[0] == DecimalNat(|s|)[0] && IsDigit(whole[0]);
  }

  lemma ParseNumber(i: int, t: Text)
    ensures Parse([I] + Decimal(i) + [E] + t) == Some((Int(i), t))
  {
    var s := [I] + Decimal(i) + [E] + t;
    assert s[0] == I && s[1..] == Decimal(i) + [E] + t;
    ParseIntOfEncode(i, t);
  }

  lemma ParseList(vs: seq<Value>, body: Text, t: Text)
    requires ParseValues(body + ([E] + t)) == Some((vs, t))
    ensures Parse([L] + body + [E] + t) == Some((List(vs), t))
  {
    var s := [L] + body + [E] + t;
    assert s[0] == L && s[1..] == body + ([E] + t);
  }

  lemma ParseDict(es: seq<Pair>, body: Text, t: Text)
    requires ParseEntries(body + ([E] + t)) == Some((es, t))
    ensures Parse([D] + body + [E] + t) == Some((Dict(es), t))
  {
    var s := [D] + body + [E] + t;
    assert s[0] == D && s[1..] == body + ([E] + t);
  }

  /** Every encoded value is read back, with whatever follows it left over. */
  lemma {:induction false} ParseOfEncode(v: Value, t: Text)
    ensures Parse(Encode(v) + t) == Some((v, t))
    decreases v, 1
  {
    match v
    case Str(s) => ParseStr(s, t);
    case Int(i) => ParseNumber(i, t);
    case List(vs) =>
      ParseValuesOfEncode(vs, t);
      ParseList(vs, EncodeValues(vs), t);
    case Dict(es) =>
      ParseEntriesOfEncode(es, t);
      ParseDict(es, EncodeEntries(es), t);
  }

  lemma EncodeStart(v: Value)
    ensures Encode(v) != [] && Encode(v)[0] != E
  {
  }

  lemma {:induction false} ParseValuesOfEncode(vs: seq<Value>, t: Text)
    ensures ParseValues(EncodeValues(vs) + ([E] + t)) == Some((vs, t))
    decreases vs, 0
  {
    var s := EncodeValues(vs) + ([E] + t);
    if vs == [] {
      assert s == [E] + t && s[1..] == t;
    } else {
      var rest := EncodeValues(vs[1..]) + ([E] + t);
      assert s == Encode(vs[0]) + rest;
      EncodeStart(vs[0]);
      assert s[0] == Encode(vs[0])[0] && [vs[0]] + vs[1..] == vs;
      ParseOfEncode(vs[0], rest);
      ParseValuesOfEncode(vs[1..], t);
    }
  }

  lemma {:induction false} ParseEntriesOfEncode(es: seq<Pair>, t: Text)
    ensures ParseEntries(EncodeEntries(es) + ([E] + t)) == Some((es, t))
    decreases es, 0
  {
    var s := EncodeEntries(es) + ([E] + t);
    if es == [] {
      assert s == [E] + t && s[1..] == t;
    } else {
      var rest := EncodeEntries(es[1..]) + ([E] + t);
      var s1 := Encode(es[0].value) + rest;
      assert s == EncodeText(es[0].key) + s1;
      assert s[0] == EncodeText(es[0].key)[0] != E && [es[0]] + es[1..] == es;
      ParseTextOfEncode(es[0].key, s1);
      ParseOfEncode(es[0].value, rest);
      ParseEntriesOfEncode(es[1..], t);
    }
  }

  /** No encoding is a prefix of another: two encodings with anything behind them are
      equal only if they are the same value followed by the same bytes. */
  lemma PrefixFree(v: Value, w: Value, t: Text, u: Text)
    requires Encode(v) + t == Encode(w) + u
    ensures v == w && t == u
  {
    ParseOfEncode(v, t);
    ParseOfEncode(w, u);
  }

  // ---------- More input changes nothing ----------

  lemma {:induction false} DigitsStable(s: Text, t: Text)
    requires Digits(s) < |s|
    ensures Digits(s + t) == Digits(s)
  {
    if IsDigit(s[0]) {
      assert (s + t)[1..] == s[1..] + t;
      DigitsStable(s[1..], t);
    }
  }

  lemma ParseNatStable(s: Text, t: Text)
    requires ParseNat(s).Some? && ParseNat(s).value.1 != []
    ensures ParseNat(s + t) == Some((ParseNat(s).value.0, ParseNat(s).value.1 + t))
  {
    DigitsStable(s, t);
    var k := Digits(s);
    assert (s + t)[..k] == s[..k] && (s + t)[k..] == s[k..] + t;
  }

  lemma ParseTextStable(s: Text, t: Text)
    requires ParseText(s).Some?
    ensures ParseText(s + t) == Some((ParseText(s).value.0, ParseText(s).value.1 + t))
  {
    ParseNatStable(s, t);
    var Some((n, rest)) := ParseNat(s);
    assert (rest + t)[1..1 + n] == rest[1..1 + n] && (rest + t)[1 + n..] == rest[1 + n..] + t;
  }

  lemma SignedStable(negative: bool, s: Text, t: Text)
    requires Signed(negative, s).Some?
    ensures Signed(negative, s + t) == Some((Signed(negative, s).value.0, Signed(negative, s).value.1 + t))
  {
    ParseNatStable(s, t);
    var rest := ParseNat(s).value.1;
    assert (rest + t)[0] == rest[0] && (rest + t)[1..] == rest[1..] + t;
  }

  lemma ParseIntStable(s: Text, t: Text)
    requires ParseInt(s).Some?
    ensures ParseInt(s + t) == Some((ParseInt(s).value.0, ParseInt(s).value.1 + t))
  {
    assert (s + t)[0] == s[0] && (s + t)[1..] == s[1..] + t;
    if s[0] == MINUS {
      SignedStable(true, s[1..], t);
    } else {
      SignedStable(false, s, t);
    }
  }

  lemma {:induction false} ParseStable(s: Text, t: Text)
    requires Parse(s).Some?
    ensures Parse(s + t) == Some((Parse(s).value.0, Parse(s).value.1 + t))
    decreases |s|, 0
  {
    assert (s + t)[1..] == s[1..] + t;
    if s[0] == I {
      ParseIntStable(s[1..], t);
    } else if s[0] == L {
      ParseValuesStable(s[1..], t);
    } else if s[0] == D {
      ParseEntriesStable(s[1..], t);
    } else {
      ParseTextStable(s, t);
    }
  }

  lemma {:induction false} ParseValuesStable(s: Text, t: Text)
    requires ParseValues(s).Some?
    ensures ParseValues(s + t) == Some((ParseValues(s).value.0, ParseValues(s).value.1 + t))
    decreases |s|, 1
  {
    if s[0] == E {
      assert (s + t)[1..] == s[1..] + t;
    } else {
      ParseStable(s, t);
      ParseValuesStable(Parse(s).value.1, t);
    }
  }

  lemma {:induction false} ParseEntriesStable(s: Text, t: Text)
    requires ParseEntries(s).Some?
    ensures ParseEntries(s + t) == Some((ParseEntries(s).value.0, ParseEntries(s).value.1 + t))
    decreases |s|, 1
  {
    if s[0] == E {
      assert (s + t)[1..] == s[1..] + t;
    } else {
      ParseTextStable(s, t);
      ParseStable(ParseText(s).value.1, t);
      ParseEntriesStable(Parse(ParseText(s).value.1).value.1, t);
    }
  }

  // ---------- The decoder accepts nothing but encodings ----------

  lemma {:induction false} DecimalOnto(s: Text)
    requires s != [] && (forall i | 0 <= i < |s| :: IsDigit(s[i])) && (s[0] == ZERO ==> |s| == 1)
    ensures DecimalNat(FromDecimal(s)) == s
  {
    var n := |s| - 1;
    assert IsDigit(s[n]);
    if n == 0 {
      assert s[..n] == [] && FromDecimal(s) == s[0] - ZERO;
    } else {
      assert s[..n][0] == s[0];
      DecimalOnto(s[..n]);
      assert FromDecimal(s[..n]) != 0;
      assert FromDecimal(s) / 10 == FromDecimal(s[..n]);
    }
  }

  lemma ParseNatSound(s: Text)
    requires ParseNat(s).Some?
    ensures s == DecimalNat(ParseNat(s).value.0) + ParseNat(s).value.1
  {
    DecimalOnto(s[..Digits(s)]);
  }

  lemma ParseTextSound(s: Text)
    requires ParseText(s).Some?
    ensures s == EncodeText(ParseText(s).value.0) + ParseText(s).value.1
  {
    ParseNatSound(s);
    var Some((n, rest)) := ParseNat(s);
    TextInParts(DecimalNat(n), rest, n);
    assert |rest[1..1 + n]| == n;
  }

  lemma TextInParts(digits: Text, rest: Text, n: nat)
    requires n < |rest| && rest[0] == COLON
    ensures digits + rest == digits + [COLON] + rest[1..1 + n] + rest[1 + n..]
  {
  }

  lemma ParseIntSound(s: Text)
    requires ParseInt(s).Some?
    ensures s == Decimal(ParseInt(s).value.0) + [E] + ParseInt(s).value.1
  {
    if s[0] == MINUS {
      NumberAndEnd(s[1..]);
      assert s == [MINUS] + s[1..];
    } else {
      NumberAndEnd(s);
    }
  }

  lemma NumberAndEnd(s: Text)
    requires ParseNat(s).Some? && ParseNat(s).value.1 != [] && ParseNat(s).value.1[0] == E
    ensures s == DecimalNat(ParseNat(s).value.0) + [E] + ParseNat(s).value.1[1..]
  {
    ParseNatSound(s);
  }

  /** What is read is exactly what its value encodes to. */
  lemma {:induction false} ParseSound(s: Text)
    requires Parse(s).Some?
    ensures s == Encode(Parse(s).value.0) + Parse(s).value.1
    decreases |s|, 0
  {
    assert s == [s[0]] + s[1..];
    if s[0] == I {
      ParseIntSound(s[1..]);
    } else if s[0] == L {
      ParseValuesSound(s[1..]);
    } else if s[0] == D {
      ParseEntriesSound(s[1..]);
    } else {
      ParseTextSound(s);
    }
  }

  lemma {:induction false} ParseValuesSound(s: Text)
    requires ParseValues(s).Some?
    ensures s == EncodeValues(ParseValues(s).value.0) + [E] + ParseValues(s).value.1
    decreases |s|, 1
  {
    if s[0] == E {
      assert s == [] + [E] + s[1..];
    } else {
      ParseSound(s);
      var Some((v, rest)) := Parse(s);
      ParseValuesSound(rest);
      var Some((vs, end)) := ParseValues(rest);
      assert ([v] + vs)[1..] == vs;
    }
  }

  lemma ConsEntries(key: Text, v: Value, es: seq<Pair>, end: Text)
    ensures EncodeEntries([Pair(key, v)] + es) + [E] + end
         == EncodeText(key) + (Encode(v) + (EncodeEntries(es) + [E] + end))
  {
    assert ([Pair(key, v)] + es)[1..] == es;
  }

  lemma {:induction false} ParseEntriesSound(s: Text)
    requires ParseEntries(s).Some?
    ensures s == EncodeEntries(ParseEntries(s).value.0) + [E] + ParseEntries(s).value.1
    decreases |s|, 1
  {
    if s[0] == E {
      assert s == [] + [E] + s[1..];
    } else {
      ParseTextSound(s);
      var Some((key, s1)) := ParseText(s);
      ParseSound(s1);
      var Some((v, s2)) := Parse(s1);
      ParseEntriesSound(s2);
      var Some((es, end)) := ParseEntries(s2);
      ConsEntries(key, v, es, end);
    }
  }
}
