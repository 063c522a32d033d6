/** `BytesDataIoUtil`: one record to or from a byte array, with or without a
    version tag in front. The byte array is the token sequence of a fresh
    stream. */
module BytesDataIoUtil {
  import opened Results
  import opened Wire
  import InOutable

  /** What one read from the start of `bytes` yields; whatever follows the
      value is ignored. */
  function Decode<T>(io: Codec<T>, bytes: seq<Token>): (r: Result<T>)
    ensures r.Fail? <==> ReadOne(io, bytes).Fail?
    ensures r.Ok? ==> ReadOne(io, bytes) == Ok((r.value, ReadOne(io, bytes).value.1))
  {
    match ReadOne(io, bytes)
    case Fail => Fail
    case Ok((x, _)) => Ok(x)
  }

  /** The bytes of a versioned record: the version tag, then the record. */
  function EncodeVersioned<T>(io: Codec<T>, val: T, version: int): seq<Token> {
    [VInt(version)] + io.write(val)
  }

  /** A versioned read: a variable-length integer, read and discarded
      unchecked, then the record. */
  function DecodeVersioned<T>(io: Codec<T>, bytes: seq<Token>): (r: Result<T>)
    ensures r.Ok? ==> |bytes| > 0 && bytes[0].VInt?
    ensures |bytes| > 0 && bytes[0].VInt? ==> r == Decode(io, bytes[1..])
  {
    if |bytes| > 0 && bytes[0].VInt? then Decode(io, bytes[1..]) else Fail
  }

  /** Whatever the codec wrote, a sound codec reads back. */
  lemma RoundTrip<T(!new)>(io: Codec<T>, val: T)
    requires Inverts(io)
    ensures Decode(io, io.write(val)) == Ok(val)
  {
    ReadOneOfWrite(io, val, []);
    assert io.write(val) + [] == io.write(val);
  }

  /** The tag is discarded whatever its value: a versioned read is the plain
      read of what follows the tag. */
  lemma TagIgnored<T>(io: Codec<T>, tag: int, bytes: seq<Token>)
    ensures DecodeVersioned(io, [VInt(tag)] + bytes) == Decode(io, bytes)
  {
    assert ([VInt(tag)] + bytes)[1..] == bytes;
  }

  /** `readVersioned(writeVersioned(io, v)) == read(write(io, v))` for every
      version, and so the record itself when the codec is sound. */
  lemma VersionedRoundTrip<T(!new)>(io: Codec<T>, val: T, version: int)
    ensures DecodeVersioned(io, EncodeVersioned(io, val, version)) == Decode(io, io.write(val))
    ensures Inverts(io) ==> DecodeVersioned(io, EncodeVersioned(io, val, version)) == Ok(val)
  {
    TagIgnored(io, version, io.write(val));
    if Inverts(io) {
      RoundTrip(io, val);
    }
  }

  /** `read`: one record from a fresh stream over `bytes`. */
  method Read<T>(bytes: seq<Token>, io: Codec<T>) returns (r: Result<T>)
    ensures r == Decode(io, bytes)
  {
    var di := new DataInput(bytes);
    r := di.Read(io);
  }

  /** `write`: the bytes of one record on a fresh stream; a sound codec reads
      them back as the record. */
  method Write<T(!new)>(io: Codec<T>, val: T) returns (bytes: seq<Token>)
    ensures bytes == io.write(val)
    ensures Inverts(io) ==> Decode(io, bytes) == Ok(val)
  {
    var do := new DataOutput();
    do.Write(io, val);
    bytes := do.tokens;
    if Inverts(io) {
      RoundTrip(io, val);
    }
  }

  /** `readVersioned`: the version tag, discarded, then one record. */
  method ReadVersioned<T>(bytes: seq<Token>, io: Codec<T>) returns (r: Result<T>)
    ensures r == DecodeVersioned(io, bytes)
  {
    var di := new DataInput(bytes);
    var tag := InOutable.ReadVersion(di);
    if tag.Fail? {
      return Fail;
    }
    assert di.tokens[di.pos..] == bytes[1..];
    r := di.Read(io);
  }

  /** `writeVersioned`: the record's own version (`val.getVersion()`), then
      the record. */
  method WriteVersioned<T(!new)>(io: Codec<T>, val: T, getVersion: T -> int) returns (bytes: seq<Token>)
    ensures bytes == EncodeVersioned(io, val, getVersion(val))
    ensures Inverts(io) ==> DecodeVersioned(io, bytes) == Ok(val)
  {
    var do := new DataOutput();
    InOutable.WriteVersion(do, getVersion(val));
    do.Write(io, val);
    bytes := do.tokens;
    VersionedRoundTrip(io, val, getVersion(val));
  }
}
