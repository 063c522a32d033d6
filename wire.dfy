/** The stream the codecs read and write. The Hadoop primitives (`WritableUtils`
    variable-length integers, `Text` strings, `DataInput`/`DataOutput` booleans
    and floats) are not modelled at the byte level: a stream is a sequence of
    tokens, one per primitive write, and each primitive read consumes exactly
    the token its write produced, or fails. */
module Wire {
  import opened Results

  /** What one primitive write leaves on the stream. Floating-point values are
      carried as their bit patterns and never interpreted. */
  datatype Token =
    | VInt(i: int)
    | VLong(l: int)
    | Bool(b: bool)
    | Float32(f: bv32)
    | Float64(d: bv64)
    | Text(s: string)

  /** The `InOutable` contract: how one value is written, and how it is read
      from the front of a stream, yielding the value and the number of tokens
      it consumed. The primitive kinds are codecs too. */
  datatype Codec<!T> = Codec(write: T -> seq<Token>, read: seq<Token> -> Result<(T, nat)>)

  /** A codec is sound when reading whatever it wrote gives the value back and
      consumes exactly what was written, whatever follows on the stream. */
  ghost predicate Inverts<T(!new)>(io: Codec<T>) {
    forall x: T, rest: seq<Token> :: io.read(io.write(x) + rest) == Ok((x, |io.write(x)|))
  }

  /** Reading a value whose encoding was cut short fails. */
  ghost predicate FailsWhenTruncated<T(!new)>(io: Codec<T>) {
    forall x: T, k: nat :: k < |io.write(x)| ==> io.read(io.write(x)[..k]).Fail?
  }

  /** One read from the front of `ts`; a decoder that claims more tokens than
      there are fails like a truncated stream. */
  function ReadOne<T>(io: Codec<T>, ts: seq<Token>): (r: Result<(T, nat)>)
    ensures r.Ok? ==> r.value.1 <= |ts|
    ensures io.read(ts).Ok? && io.read(ts).value.1 <= |ts| ==> r == io.read(ts)
    ensures !(io.read(ts).Ok? && io.read(ts).value.1 <= |ts|) ==> r.Fail?
  {
    match io.read(ts)
    case Fail => Fail
    case Ok((x, c)) => if c <= |ts| then Ok((x, c)) else Fail
  }

  /** Reading after writing, with anything after the value. */
  lemma ReadOneOfWrite<T(!new)>(io: Codec<T>, x: T, rest: seq<Token>)
    requires Inverts(io)
    ensures ReadOne(io, io.write(x) + rest) == Ok((x, |io.write(x)|))
  {
    assert io.read(io.write(x) + rest) == Ok((x, |io.write(x)|));
  }

  /** `WritableUtils.writeVInt` / `readVInt`. */
  const VIntCodec: Codec<int> :=
    Codec(x => [VInt(x)], (ts: seq<Token>) => if |ts| > 0 && ts[0].VInt? then Ok((ts[0].i, 1)) else Fail)

  /** `WritableUtils.writeVLong` / `readVLong`. */
  const VLongCodec: Codec<int> :=
    Codec(x => [VLong(x)], (ts: seq<Token>) => if |ts| > 0 && ts[0].VLong? then Ok((ts[0].l, 1)) else Fail)

  /** `writeBoolean` / `readBoolean`. */
  const BoolCodec: Codec<bool> :=
    Codec(x => [Bool(x)], (ts: seq<Token>) => if |ts| > 0 && ts[0].Bool? then Ok((ts[0].b, 1)) else Fail)

  /** `writeFloat` / `readFloat`, on the 32-bit pattern that is written. */
  const FloatCodec: Codec<bv32> :=
    Codec(x => [Float32(x)], (ts: seq<Token>) => if |ts| > 0 && ts[0].Float32? then Ok((ts[0].f, 1)) else Fail)

  /** `writeDouble` / `readDouble`, on the 64-bit pattern. */
  const DoubleCodec: Codec<bv64> :=
    Codec(x => [Float64(x)], (ts: seq<Token>) => if |ts| > 0 && ts[0].Float64? then Ok((ts[0].d, 1)) else Fail)

  /** `Text.writeString` / `Text.readString`. */
  const TextCodec: Codec<string> :=
    Codec(x => [Text(x)], (ts: seq<Token>) => if |ts| > 0 && ts[0].Text? then Ok((ts[0].s, 1)) else Fail)

  /** Each primitive read consumes exactly the token its write produced, and
      fails on an empty stream. */
  lemma PrimitiveCodecsSound()
    ensures Inverts(VIntCodec) && FailsWhenTruncated(VIntCodec)
    ensures Inverts(VLongCodec) && FailsWhenTruncated(VLongCodec)
    ensures Inverts(BoolCodec) && FailsWhenTruncated(BoolCodec)
    ensures Inverts(FloatCodec) && FailsWhenTruncated(FloatCodec)
    ensures Inverts(DoubleCodec) && FailsWhenTruncated(DoubleCodec)
    ensures Inverts(TextCodec) && FailsWhenTruncated(TextCodec)
  {
  }

  /** A method's result `r` and the stream positions before and after it agree
      with the specified read `spec`: the same value and exactly the tokens it
      consumed, or a failure (after which the position is unspecified). */
  ghost predicate Decoded<T>(spec: Result<(T, nat)>, r: Result<T>, from: nat, to: nat) {
    match spec
    case Ok((x, c)) => r == Ok(x) && to == from + c
    case Fail => r == Fail
  }

  /** An output stream (`DataOutputStream` over a byte buffer): everything written so far. */
  class DataOutput {
    var tokens: seq<Token>

    constructor ()
      ensures tokens == []
    {
      tokens := [];
    }

    /** Appends the encoding of `x`. */
    method Write<T>(io: Codec<T>, x: T)
      modifies this
      ensures tokens == old(tokens) + io.write(x)
    {
      tokens := tokens + io.write(x);
    }
  }

  /** An input stream (`DataInputStream` over a byte array) and its read position. */
  class DataInput {
    const tokens: seq<Token>
    var pos: nat

    ghost predicate Valid()
      reads this
    {
      pos <= |tokens|
    }

    constructor (bytes: seq<Token>)
      ensures Valid() && tokens == bytes && pos == 0
    {
      tokens := bytes;
      pos := 0;
    }

    /** Reads one value with `io` and advances past it. */
    method Read<T>(io: Codec<T>) returns (r: Result<T>)
      requires Valid()
      modifies this
      ensures Valid()
      ensures Decoded(ReadOne(io, tokens[old(pos)..]), r, old(pos), pos)
    {
      var res := ReadOne(io, tokens[pos..]);
      if res.Fail? {
        return Fail;
      }
      r := Ok(res.value.0);
      pos := pos + res.value.1;
    }
  }
}
