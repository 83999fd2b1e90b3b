/** Reading from the front of a byte sequence, as encoding/binary does, and what it
    means that a reader inverts a writer. */
module Codec {
  import opened Bytes
  import opened Storage

  datatype Error = Eof | UnexpectedEof | BadAddress | Panic

  /** What a read yields, with the bytes that remain. */
  datatype Read<T> = Got(value: T, rest: seq<Byte>) | Failed(error: Error) {
    predicate IsFailure() {
      Failed?
    }

    function PropagateFailure<U>(): Read<U>
      requires Failed?
    {
      Failed(error)
    }

    function Extract(): (T, seq<Byte>)
      requires Got?
    {
      (value, rest)
    }
  }

  /** binary.Read of `n` bytes: nothing left is EOF, too little left is an
      unexpected EOF, and no bytes can always be read. */
  function Take(n: nat, s: seq<Byte>): Read<seq<Byte>> {
    if n <= |s| then Got(s[..n], s[n..]) else Failed(if s == [] then Eof else UnexpectedEof)
  }

  function TakeInt(n: nat, s: seq<Byte>): Read<nat> {
    var (bs, rest) :- Take(n, s);
    Got(FromLittleEndian(bs), rest)
  }

  /** The items read before the first failure, what remains, and that failure. */
  datatype Many<T> = Many(items: seq<T>, rest: seq<Byte>, error: Option<Error>)

  function ReadMany<T>(read: seq<Byte> -> Read<T>, s: seq<Byte>, n: nat): (r: Many<T>)
    ensures |r.items| <= n && (r.error.None? <==> |r.items| == n)
    decreases n
  {
    if n == 0 then Many([], s, None)
    else
      match read(s)
      case Failed(e) => Many([], s, Some(e))
      case Got(x, rest) =>
        var r := ReadMany(read, rest, n - 1);
        Many([x] + r.items, r.rest, r.error)
  }

  function WriteMany<T>(write: T -> seq<Byte>, xs: seq<T>): seq<Byte> {
    if xs == [] then [] else write(xs[0]) + WriteMany(write, xs[1..])
  }

  /** `read` takes back exactly what `write` wrote, whatever follows. */
  ghost predicate Inverts<T(!new)>(read: seq<Byte> -> Read<T>, write: T -> seq<Byte>) {
    forall x, t :: read(write(x) + t) == Got(x, t)
  }

  /** More input behind what a read consumed changes nothing. */
  ghost predicate Stable<T(!new)>(read: seq<Byte> -> Read<T>) {
    forall s, t :: read(s).Got? ==> read(s + t) == Got(read(s).value, read(s).rest + t)
  }

  lemma TakePrefix(a: seq<Byte>, t: seq<Byte>)
    ensures Take(|a|, a + t) == Got(a, t)
  {
    assert (a + t)[..|a|] == a && (a + t)[|a|..] == t;
  }

  lemma TakeIntOfWrite(x: nat, n: nat, t: seq<Byte>)
    requires x < Pow256(n)
    ensures TakeInt(n, LittleEndian(x, n) + t) == Got(x, t)
  {
    TakePrefix(LittleEndian(x, n), t);
    LittleEndianRoundTrip(x, n);
  }

  lemma TakeStable(n: nat, s: seq<Byte>, t: seq<Byte>)
    requires Take(n, s).Got?
    ensures Take(n, s + t) == Got(Take(n, s).value, Take(n, s).rest + t)
  {
    assert (s + t)[..n] == s[..n] && (s + t)[n..] == s[n..] + t;
  }

  lemma Regroup(a: seq<Byte>, b: seq<Byte>, c: seq<Byte>)
    ensures a + b + c == a + (b + c)
  {
  }

  lemma {:induction false} WriteManyAppend<T>(write: T -> seq<Byte>, xs: seq<T>, ys: seq<T>)
    ensures WriteMany(write, xs + ys) == WriteMany(write, xs) + WriteMany(write, ys)
  {
    if xs == [] {
      assert xs + ys == ys && WriteMany(write, xs) + WriteMany(write, ys) == WriteMany(write, ys);
    } else {
      WriteManyAppend(write, xs[1..], ys);
      assert (xs + ys)[0] == xs[0] && (xs + ys)[1..] == xs[1..] + ys;
      Regroup(write(xs[0]), WriteMany(write, xs[1..]), WriteMany(write, ys));
    }
  }

  lemma WriteManySnoc<T>(write: T -> seq<Byte>, xs: seq<T>, x: T)
    ensures WriteMany(write, xs + [x]) == WriteMany(write, xs) + write(x)
  {
    WriteManyAppend(write, xs, [x]);
    assert [x][1..] == [] && WriteMany(write, [x]) == write(x) + [];
    assert write(x) + [] == write(x);
  }

  lemma {:induction false} ReadManyOfWrite<T(!new)>(
    read: seq<Byte> -> Read<T>, write: T -> seq<Byte>, xs: seq<T>, t: seq<Byte>)
    requires Inverts(read, write)
    ensures ReadMany(read, WriteMany(write, xs) + t, |xs|) == Many(xs, t, None)
  {
    if xs == [] {
      assert WriteMany(write, xs) + t == t;
    } else {
      ReadManyOfWrite(read, write, xs[1..], t);
      assert WriteMany(write, xs) + t == write(xs[0]) + (WriteMany(write, xs[1..]) + t);
    }
  }

  lemma {:induction false} ReadManyStable<T(!new)>(read: seq<Byte> -> Read<T>, s: seq<Byte>, n: nat, t: seq<Byte>)
    requires Stable(read) && ReadMany(read, s, n).error == None
    ensures ReadMany(read, s + t, n) == ReadMany(read, s, n).(rest := ReadMany(read, s, n).rest + t)
    decreases n
  {
    if n > 0 {
      ReadManyStable(read, read(s).rest, n - 1, t);
    }
  }

  /** A strict prefix of what was written cannot be read. */
  lemma PrefixOfManyFails<T(!new)>(read: seq<Byte> -> Read<T>, write: T -> seq<Byte>, xs: seq<T>, p: seq<Byte>)
    requires Inverts(read, write) && Stable(read) && p < WriteMany(write, xs)
    ensures ReadMany(read, p, |xs|).error.Some?
  {
    var t := WriteMany(write, xs)[|p|..];
    assert WriteMany(write, xs) == p + t && WriteMany(write, xs) + [] == p + t;
    ReadManyOfWrite(read, write, xs, []);
    if ReadMany(read, p, |xs|).error == None {
      ReadManyStable(read, p, |xs|, t);
    }
  }

  lemma {:induction false} ReadManyShortens<T(!new)>(read: seq<Byte> -> Read<T>, s: seq<Byte>, n: nat)
    requires forall u :: read(u).Got? ==> |read(u).rest| <= |u|
    ensures |ReadMany(read, s, n).rest| <= |s|
    decreases n
  {
    if n > 0 && read(s).Got? {
      ReadManyShortens(read, read(s).rest, n - 1);
    }
  }

  /** A loop that has read `items` and has `n` more to read from `s` is on the way to `all`. */
  ghost predicate Resumes<T(!new)>(read: seq<Byte> -> Read<T>, all: Many<T>, items: seq<T>, s: seq<Byte>, n: nat) {
    var r := ReadMany(read, s, n);
    all == Many(items + r.items, r.rest, r.error)
  }

  lemma ResumesStep<T(!new)>(read: seq<Byte> -> Read<T>, all: Many<T>, items: seq<T>, s: seq<Byte>, n: nat)
    requires Resumes(read, all, items, s, n) && n > 0
    ensures match read(s)
            case Got(x, rest) => Resumes(read, all, items + [x], rest, n - 1)
            case Failed(e) => all == Many(items, s, Some(e))
  {
    if read(s).Got? {
      var r := ReadMany(read, read(s).rest, n - 1);
      assert items + ([read(s).value] + r.items) == items + [read(s).value] + r.items;
    } else {
      assert items + [] == items;
    }
  }

  // A loop proof need not see how one item is read. `Same` equates two readers, but
  // the equation is only used on input that is marked with `Shown`.

  predicate Shown(s: seq<Byte>) {
    true
  }

  ghost predicate Same<T(!new)>(read: seq<Byte> -> Read<T>, given: seq<Byte> -> Read<T>) {
    forall s {:trigger Shown(s)} :: Shown(s) ==> read(s) == given(s)
  }

  // ---------- Reading until a clean end ----------

  /** One item, the end of the input, or a failure with what was read before it. */
  datatype Step<T, P> = End | Broken(part: P) | Whole(item: T, rest: seq<Byte>)

  datatype All<T, P> = All(items: seq<T>, broken: Option<P>)

  ghost predicate Proceeds<T(!new), P(!new)>(step: seq<Byte> -> Step<T, P>) {
    forall s :: step(s).Whole? ==> |step(s).rest| < |s|
  }

  ghost function ReadAll<T(!new), P(!new)>(step: seq<Byte> -> Step<T, P>, s: seq<Byte>): All<T, P>
    requires Proceeds(step)
    decreases |s|
  {
    match step(s)
    case End => All([], None)
    case Broken(p) => All([], Some(p))
    case Whole(x, rest) =>
      var r := ReadAll(step, rest);
      All([x] + r.items, r.broken)
  }

  ghost predicate TakesBack<T(!new), P(!new)>(step: seq<Byte> -> Step<T, P>, write: T -> seq<Byte>, ok: T -> bool) {
    forall x, t | ok(x) :: step(write(x) + t) == Whole(x, t)
  }

  /** `step` takes back what `write` wrote; it ends exactly on empty input; more
      input behind a whole item changes nothing. */
  ghost predicate StepInverts<T(!new), P(!new)>(step: seq<Byte> -> Step<T, P>, write: T -> seq<Byte>, ok: T -> bool) {
    && TakesBack(step, write, ok)
    && (forall s :: step(s).End? <==> s == [])
    && (forall s, t :: step(s).Whole? ==> step(s + t) == Whole(step(s).item, step(s).rest + t))
  }

  lemma ReadAllStep<T(!new), P(!new)>(step: seq<Byte> -> Step<T, P>, s: seq<Byte>, x: T, rest: seq<Byte>)
    requires Proceeds(step) && step(s) == Whole(x, rest)
    ensures ReadAll(step, s) == All([x] + ReadAll(step, rest).items, ReadAll(step, rest).broken)
  {
  }

  lemma {:induction false} ReadAllOfWrite<T(!new), P(!new)>(
    step: seq<Byte> -> Step<T, P>, write: T -> seq<Byte>, ok: T -> bool, xs: seq<T>, t: seq<Byte>)
    requires Proceeds(step) && TakesBack(step, write, ok) && forall x | x in xs :: ok(x)
    ensures ReadAll(step, WriteMany(write, xs) + t) == All(xs + ReadAll(step, t).items, ReadAll(step, t).broken)
  {
    var items := ReadAll(step, t).items;
    if xs == [] {
      assert WriteMany(write, xs) + t == t && xs + items == items;
    } else {
      var rest := WriteMany(write, xs[1..]) + t;
      Regroup(write(xs[0]), WriteMany(write, xs[1..]), t);
      ReadAllOfWrite(step, write, ok, xs[1..], t);
      ReadAllStep(step, write(xs[0]) + rest, xs[0], rest);
      assert [xs[0]] + (xs[1..] + items) == xs + items;
    }
  }

  lemma ReadAllBack<T(!new), P(!new)>(step: seq<Byte> -> Step<T, P>, write: T -> seq<Byte>, ok: T -> bool, xs: seq<T>)
    requires Proceeds(step) && StepInverts(step, write, ok) && forall x | x in xs :: ok(x)
    ensures ReadAll(step, WriteMany(write, xs)) == All(xs, None)
  {
    ReadAllOfWrite(step, write, ok, xs, []);
    assert WriteMany(write, xs) + [] == WriteMany(write, xs);
    assert xs + [] == xs;
  }

  ghost predicate SameStep<T(!new), P(!new)>(step: seq<Byte> -> Step<T, P>, given: seq<Byte> -> Step<T, P>) {
    forall s {:trigger Shown(s)} :: Shown(s) ==> step(s) == given(s)
  }

  ghost predicate ResumesAll<T(!new), P(!new)>(
    step: seq<Byte> -> Step<T, P>, all: All<T, P>, items: seq<T>, s: seq<Byte>)
    requires Proceeds(step)
  {
    var r := ReadAll(step, s);
    all == All(items + r.items, r.broken)
  }

  lemma ResumesAllStep<T(!new), P(!new)>(step: seq<Byte> -> Step<T, P>, all: All<T, P>, items: seq<T>, s: seq<Byte>)
    requires Proceeds(step) && ResumesAll(step, all, items, s)
    ensures match step(s)
            case Whole(x, rest) => ResumesAll(step, all, items + [x], rest)
            case Broken(p) => all == All(items, Some(p))
            case End => all == All(items, None)
  {
    match step(s)
    case Whole(x, rest) =>
      var r := ReadAll(step, rest);
      assert items + ([x] + r.items) == items + [x] + r.items;
    case Broken(p) => assert items + [] == items;
    case End => assert items + [] == items;
  }

  predicate Between<T>(write: T -> seq<Byte>, xs: seq<T>, n: nat) {
    exists k :: 0 <= k <= |xs| && n == |WriteMany(write, xs[..k])|
  }

  lemma BetweenStep<T>(write: T -> seq<Byte>, xs: seq<T>, n: nat)
    requires xs != []
    ensures var size := |write(xs[0])|;
            Between(write, xs, n) <==> n == 0 || (n >= size && Between(write, xs[1..], n - size))
  {
    var size := |write(xs[0])|;
    forall k | 1 <= k <= |xs|
      ensures |WriteMany(write, xs[..k])| == size + |WriteMany(write, xs[1..][..k - 1])|
    {
      assert xs[..k][1..] == xs[1..][..k - 1];
    }
    assert WriteMany(write, xs[..0]) == [];
    if n >= size && Between(write, xs[1..], n - size) {
      var k :| 0 <= k <= |xs[1..]| && n - size == |WriteMany(write, xs[1..][..k])|;
      assert n == |WriteMany(write, xs[..k + 1])|;
    }
  }

  /** A cut input ends cleanly exactly when the cut falls between two items. */
  lemma {:induction false} CutBetween<T(!new), P(!new)>(
    step: seq<Byte> -> Step<T, P>, write: T -> seq<Byte>, ok: T -> bool, xs: seq<T>, n: nat)
    requires Proceeds(step) && StepInverts(step, write, ok) && forall x | x in xs :: ok(x)
    requires n <= |WriteMany(write, xs)|
    ensures ReadAll(step, WriteMany(write, xs)[..n]).broken == None <==> Between(write, xs, n)
  {
    var data := WriteMany(write, xs);
    if xs == [] {
      assert WriteMany(write, xs[..0]) == [];
    } else {
      var size := |write(xs[0])|;
      BetweenStep(write, xs, n);
      if n == 0 {
        assert data[..0] == [];
      } else if n < size {
        var p, t := write(xs[0])[..n], write(xs[0])[n..];
        assert data[..n] == p && write(xs[0]) + [] == p + t;
        assert step(write(xs[0]) + []) == Whole(xs[0], []);
      } else {
        var t := WriteMany(write, xs[1..])[..n - size];
        assert data[..n] == write(xs[0]) + t;
        CutBetween(step, write, ok, xs[1..], n - size);
      }
    }
  }

  // ---------- A reader that moves ----------

  /** A reader over bytes in memory. A read that fails leaves nothing to read. */
  class Reader {
    const data: seq<Byte>
    var pos: nat

    ghost predicate Valid()
      reads this
    {
      pos <= |data|
    }

    ghost function Rest(): seq<Byte>
      requires Valid()
      reads this
    {
      data[pos..]
    }

    constructor (data: seq<Byte>)
      ensures Valid() && Rest() == data
    {
      this.data, pos := data, 0;
    }

    method Read(n: nat) returns (r: Read<seq<Byte>>)
      requires Valid()
      modifies this
      ensures Valid() && r == Take(n, old(Rest()))
      ensures r.Got? ==> Rest() == r.rest
    {
      if n <= |data| - pos {
        assert data[pos..][..n] == data[pos..pos + n] && data[pos..][n..] == data[pos + n..];
        r := Got(data[pos..pos + n], data[pos + n..]);
        pos := pos + n;
      } else {
        r := Failed(if pos == |data| then Eof else UnexpectedEof);
        pos := |data|;
      }
    }

    method ReadInt(n: nat) returns (r: Read<nat>)
      requires Valid()
      modifies this
      ensures Valid() && r == TakeInt(n, old(Rest()))
      ensures r.Got? ==> Rest() == r.rest
    {
      var bs := Read(n);
      r := if bs.Failed? then Failed(bs.error) else Got(FromLittleEndian(bs.value), bs.rest);
    }
  }
}
