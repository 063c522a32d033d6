/** The wire rule every collection codec follows: the element count as a
    variable-length integer, then one element encoding per element in
    iteration order. Decoding reads the count `n`, then `n` elements; a count
    of zero or less gives an empty collection, as `range(n)` is then empty. */
module CollectionWire {
  import opened Results
  import opened Wire

  /** The element encodings of `xs`, one after the other. */
  function EncodeElems<T>(io: Codec<T>, xs: seq<T>): seq<Token>
    decreases |xs|
  {
    if xs == [] then [] else EncodeElems(io, xs[..|xs| - 1]) + io.write(xs[|xs| - 1])
  }

  /** Writing one more element appends its encoding. */
  lemma EncodeElemsSnoc<T>(io: Codec<T>, xs: seq<T>, x: T)
    ensures EncodeElems(io, xs + [x]) == EncodeElems(io, xs) + io.write(x)
  {
    assert (xs + [x])[..|xs|] == xs;
  }

  /** `VInt(len(xs))` followed by the elements. */
  function EncodeCollection<T>(io: Codec<T>, xs: seq<T>): seq<Token> {
    [VInt(|xs|)] + EncodeElems(io, xs)
  }

  /** What a collection writer emits: nothing for `None`. */
  function EncodeOptional<T>(io: Codec<T>, vals: Option<seq<T>>): seq<Token> {
    if vals.None? then [] else EncodeCollection(io, vals.value)
  }

  /** `k` element reads from the front of `ts`: the elements in order and the
      tokens consumed; the first failing read fails the whole. */
  function DecodeElems<T>(io: Codec<T>, ts: seq<Token>, k: int): (r: Result<(seq<T>, nat)>)
    ensures r.Ok? ==> r.value.1 <= |ts|
    ensures r.Ok? ==> |r.value.0| == if k < 0 then 0 else k
    decreases if k < 0 then 0 else k
  {
    if k <= 0 then Ok(([], 0))
    else
      match DecodeElems(io, ts, k - 1)
      case Fail => Fail
      case Ok((xs, c)) =>
        match ReadOne(io, ts[c..])
        case Fail => Fail
        case Ok((x, d)) => Ok((xs + [x], c + d))
  }

  /** One read after `k` successful ones: it fails the run or extends it. */
  lemma DecodeElemsNext<T>(io: Codec<T>, ts: seq<Token>, k: nat, xs: seq<T>, c: nat)
    requires DecodeElems(io, ts, k) == Ok((xs, c))
    ensures ReadOne(io, ts[c..]).Fail? ==> DecodeElems(io, ts, k + 1).Fail?
    ensures ReadOne(io, ts[c..]).Ok? ==>
      var (x, d) := ReadOne(io, ts[c..]).value;
      DecodeElems(io, ts, k + 1) == Ok((xs + [x], c + d))
  {
  }

  /** A collection read: the count, then that many elements. */
  function DecodeCollection<T>(io: Codec<T>, ts: seq<Token>): (r: Result<(seq<T>, nat)>)
    ensures r.Ok? ==> 1 <= r.value.1 <= |ts|
  {
    match ReadOne(VIntCodec, ts)
    case Fail => Fail
    case Ok((n, c)) =>
      match DecodeElems(io, ts[c..], n)
      case Fail => Fail
      case Ok((xs, d)) => Ok((xs, c + d))
  }

  function ToSet<T>(xs: seq<T>): set<T> {
    set x | x in xs
  }

  /** A set read: the elements of the collection read, gathered into a set. */
  function DecodeSet<T>(io: Codec<T>, ts: seq<Token>): Result<(set<T>, nat)> {
    match DecodeCollection(io, ts)
    case Fail => Fail
    case Ok((xs, c)) => Ok((ToSet(xs), c))
  }

  /** `order` lists every element of `s` exactly once: one iteration order of the set. */
  ghost predicate IsEnumeration<T>(order: seq<T>, s: set<T>) {
    && (forall i, j :: 0 <= i < j < |order| ==> order[i] != order[j])
    && ToSet(order) == s
  }

  /** Listing one more element not yet listed extends an enumeration. */
  lemma EnumerationExtend<T>(order: seq<T>, done: set<T>, e: T)
    requires IsEnumeration(order, done) && e !in done
    ensures IsEnumeration(order + [e], done + {e})
  {
    assert ToSet(order + [e]) == ToSet(order) + {e};
  }

  /** An enumeration of a set is as long as the set is large. */
  lemma {:induction false} EnumerationSize<T>(order: seq<T>, s: set<T>)
    requires IsEnumeration(order, s)
    ensures |order| == |s|
    decreases |order|
  {
    if order != [] {
      var a := order[0];
      assert a !in order[1..] by {
        forall i | 0 <= i < |order[1..]| ensures order[1..][i] != a {
          assert order[1..][i] == order[i + 1];
        }
      }
      assert ToSet(order[1..]) == s - {a} by {
        assert order == [a] + order[1..];
      }
      EnumerationSize(order[1..], s - {a});
    }
  }

  /** Reading back the element encodings gives the elements and consumes
      exactly their tokens, whatever follows. */
  lemma {:induction false} ElemsRoundTrip<T(!new)>(io: Codec<T>, xs: seq<T>, rest: seq<Token>)
    requires Inverts(io)
    ensures DecodeElems(io, EncodeElems(io, xs) + rest, |xs|) == Ok((xs, |EncodeElems(io, xs)|))
    decreases |xs|
  {
    if xs != [] {
      var ys, y := xs[..|xs| - 1], xs[|xs| - 1];
      var ts := EncodeElems(io, xs) + rest;
      var c := |EncodeElems(io, ys)|;
      assert ts == EncodeElems(io, ys) + (io.write(y) + rest);
      ElemsRoundTrip(io, ys, io.write(y) + rest);
      assert ts[c..] == io.write(y) + rest;
      ReadOneOfWrite(io, y, rest);
      DecodeElemsNext(io, ts, |ys|, ys, c);
      assert ys + [y] == xs;
    }
  }

  /** `read(write(xs)) == xs` for ordered collections (lists and deques), and the
      read stops exactly where the encoding ends. */
  lemma CollectionRoundTrip<T(!new)>(io: Codec<T>, xs: seq<T>, rest: seq<Token>)
    requires Inverts(io)
    ensures DecodeCollection(io, EncodeCollection(io, xs) + rest) == Ok((xs, |EncodeCollection(io, xs)|))
  {
    var ts := EncodeCollection(io, xs) + rest;
    assert ts[1..] == EncodeElems(io, xs) + rest;
    ElemsRoundTrip(io, xs, rest);
  }

  /** A value written after a collection still decodes intact after it is read. */
  lemma NextValueIntact<T(!new), U(!new)>(io: Codec<T>, next: Codec<U>, xs: seq<T>, y: U, rest: seq<Token>)
    requires Inverts(io) && Inverts(next)
    ensures
      var ts := EncodeCollection(io, xs) + next.write(y) + rest;
      var c := |EncodeCollection(io, xs)|;
      DecodeCollection(io, ts) == Ok((xs, c)) &&
      ReadOne(next, ts[c..]) == Ok((y, |next.write(y)|))
  {
    var ts := EncodeCollection(io, xs) + next.write(y) + rest;
    assert ts == EncodeCollection(io, xs) + (next.write(y) + rest);
    CollectionRoundTrip(io, xs, next.write(y) + rest);
    assert ts[|EncodeCollection(io, xs)|..] == next.write(y) + rest;
    ReadOneOfWrite(next, y, rest);
  }

  /** A count of zero or less yields an empty collection after consuming only
      the count: no error is raised. */
  lemma NonPositiveCountIsEmpty<T>(io: Codec<T>, n: int, rest: seq<Token>)
    requires n <= 0
    ensures DecodeCollection(io, [VInt(n)] + rest) == Ok(([], 1))
  {
  }

  /** Failure of one element read fails every longer run of reads. */
  lemma {:induction false} DecodeElemsFailsOnward<T>(io: Codec<T>, ts: seq<Token>, i: int, k: int)
    requires i <= k
    requires DecodeElems(io, ts, i).Fail?
    ensures DecodeElems(io, ts, k).Fail?
    decreases k - i
  {
    if i < k {
      DecodeElemsFailsOnward(io, ts, i, k - 1);
    }
  }

  lemma {:induction false} TruncatedElemsFail<T(!new)>(io: Codec<T>, xs: seq<T>, k: nat)
    requires Inverts(io) && FailsWhenTruncated(io)
    requires k < |EncodeElems(io, xs)|
    ensures DecodeElems(io, EncodeElems(io, xs)[..k], |xs|).Fail?
    decreases |xs|
  {
    var ys, y := xs[..|xs| - 1], xs[|xs| - 1];
    var e := EncodeElems(io, ys);
    var ts := EncodeElems(io, xs)[..k];
    if k < |e| {
      assert ts == e[..k];
      TruncatedElemsFail(io, ys, k);
    } else {
      assert ts == e + io.write(y)[..k - |e|];
      ElemsRoundTrip(io, ys, io.write(y)[..k - |e|]);
      assert ts[|e|..] == io.write(y)[..k - |e|];
      assert io.read(io.write(y)[..k - |e|]).Fail?;
    }
  }

  /** A collection whose encoding was cut short cannot be read. */
  lemma TruncatedCollectionFails<T(!new)>(io: Codec<T>, xs: seq<T>, k: nat)
    requires Inverts(io) && FailsWhenTruncated(io)
    requires k < |EncodeCollection(io, xs)|
    ensures DecodeCollection(io, EncodeCollection(io, xs)[..k]).Fail?
  {
    var ts := EncodeCollection(io, xs)[..k];
    if k > 0 {
      assert ts[1..] == EncodeElems(io, xs)[..k - 1];
      TruncatedElemsFail(io, xs, k - 1);
    }
  }

  /** `readSet(writeSet(s)) == s`, whatever order the writer enumerated the
      set in; the count written is the size of the set. */
  lemma SetRoundTrip<T(!new)>(io: Codec<T>, s: set<T>, order: seq<T>, rest: seq<Token>)
    requires Inverts(io) && IsEnumeration(order, s)
    ensures EncodeCollection(io, order)[0] == VInt(|s|)
    ensures DecodeSet(io, EncodeCollection(io, order) + rest) == Ok((s, |EncodeCollection(io, order)|))
  {
    EnumerationSize(order, s);
    CollectionRoundTrip(io, order, rest);
  }
}
