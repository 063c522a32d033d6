/** The static helpers of `InOutable`, the interface every record codec
    implements: the version tag that precedes a versioned record. The
    interface's own `read` and `write` are the `Codec` datatype of `Wire`. */
module InOutable {
  import opened Results
  import opened Wire

  /** `writeVersion`: the version as one variable-length integer. */
  method WriteVersion(do: DataOutput, ver: int)
    modifies do
    ensures do.tokens == old(do.tokens) + [VInt(ver)]
  {
    do.Write(VIntCodec, ver);
  }

  /** `readVersion`: one variable-length integer, whatever its value; a
      stream that does not continue with one cannot be read. */
  method ReadVersion(di: DataInput) returns (r: Result<int>)
    requires di.Valid()
    modifies di
    ensures di.Valid()
    ensures old(di.pos) < |di.tokens| && di.tokens[old(di.pos)].VInt? ==>
      r == Ok(di.tokens[old(di.pos)].i) && di.pos == old(di.pos) + 1
    ensures !(old(di.pos) < |di.tokens| && di.tokens[old(di.pos)].VInt?) ==> r.Fail?
  {
    r := di.Read(VIntCodec);
  }

  /** The tag a version write leaves is read back by a version read, and the
      read stops right after it. */
  lemma VersionRoundTrip(ver: int, rest: seq<Token>)
    ensures ReadOne(VIntCodec, [VInt(ver)] + rest) == Ok((ver, 1))
  {
  }
}
