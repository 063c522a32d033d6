/** `DataMetaHadoopUtil`: the element glue (text, date-times, decimals), the
    generic and typed collection codecs, the long array and the bit array, as
    methods on the token streams of `Wire`. A read that fails (a missing or
    mistyped token) returns `Fail`, where the original raises. */
module DataMetaHadoopUtil {
  import opened Results
  import opened Wire
  import opened CollectionWire
  import opened BitWords
  import opened DateTime

  /** The time-zone key written before a date-time: the `Z` zone, UTC. */
  const Z_TZ_ID: int := 0

  // ---------------------------------------------------------------- text

  /** What `writeTextIfAny` writes for `source`: the empty string when absent. */
  function TextOf(source: Option<string>): string {
    if source.None? then "" else source.value
  }

  method WriteTextIfAny(do: DataOutput, source: Option<string>)
    modifies do
    ensures do.tokens == old(do.tokens) + [Text(TextOf(source))]
  {
    do.Write(TextCodec, TextOf(source));
  }

  method ReadText(di: DataInput) returns (r: Result<string>)
    requires di.Valid()
    modifies di
    ensures di.Valid()
    ensures Decoded(ReadOne(TextCodec, di.tokens[old(di.pos)..]), r, old(di.pos), di.pos)
  {
    r := di.Read(TextCodec);
  }

  /** Text written from an optional string reads back as that string, and an
      absent string reads back as `""`. */
  lemma {:induction false} TextIfAnyRoundTrip(source: Option<string>, rest: seq<Token>)
    ensures ReadOne(TextCodec, [Text(TextOf(source))] + rest) == Ok((TextOf(source), 1))
    ensures source.None? ==> ReadOne(TextCodec, [Text(TextOf(source))] + rest) == Ok(("", 1))
  {
    PrimitiveCodecsSound();
    ReadOneOfWrite(TextCodec, TextOf(source), rest);
  }

  // ---------------------------------------------------------------- date-times

  /** The legacy date-time form: the zone key `Z_TZ_ID`, then the epoch
      milliseconds. The key read back is discarded, whatever it is. */
  const DttmCodec: Codec<UtcDateTime> :=
    Codec(
      (d: UtcDateTime) => [VInt(Z_TZ_ID), VLong(ToMillis(d))],
      (ts: seq<Token>) =>
        if |ts| >= 2 && ts[0].VInt? && ts[1].VLong? then Ok((FromMillis(ts[1].l), 2)) else Fail)

  /** The UTC date-time form: the epoch milliseconds alone. */
  const DttmUtcCodec: Codec<UtcDateTime> :=
    Codec(
      (d: UtcDateTime) => [VLong(ToMillis(d))],
      (ts: seq<Token>) => if |ts| >= 1 && ts[0].VLong? then Ok((FromMillis(ts[0].l), 1)) else Fail)

  method WriteDttm(do: DataOutput, dttm: UtcDateTime)
    modifies do
    ensures do.tokens == old(do.tokens) + [VInt(Z_TZ_ID), VLong(ToMillis(dttm))]
  {
    do.Write(VIntCodec, Z_TZ_ID);
    do.Write(VLongCodec, ToMillis(dttm));
  }

  method ReadDttm(di: DataInput) returns (r: Result<UtcDateTime>)
    requires di.Valid()
    modifies di
    ensures di.Valid()
    ensures Decoded(ReadOne(DttmCodec, di.tokens[old(di.pos)..]), r, old(di.pos), di.pos)
  {
    ghost var ts := di.tokens[di.pos..];
    var zone := di.Read(VIntCodec);
    if zone.Fail? {
      return Fail;
    }
    assert di.tokens[di.pos..] == ts[1..];
    var ms := di.Read(VLongCodec);
    if ms.Fail? {
      return Fail;
    }
    r := Ok(FromMillis(ms.value));
  }

  method WriteDttmUtc(do: DataOutput, dttm: UtcDateTime)
    modifies do
    ensures do.tokens == old(do.tokens) + [VLong(ToMillis(dttm))]
  {
    do.Write(VLongCodec, ToMillis(dttm));
  }

  method ReadDttmUtc(di: DataInput) returns (r: Result<UtcDateTime>)
    requires di.Valid()
    modifies di
    ensures di.Valid()
    ensures Decoded(ReadOne(DttmUtcCodec, di.tokens[old(di.pos)..]), r, old(di.pos), di.pos)
  {
    var ms := di.Read(VLongCodec);
    if ms.Fail? {
      return Fail;
    }
    r := Ok(FromMillis(ms.value));
  }

  /** Both date-time forms give back the date-time written and consume exactly
      what was written; a form cut short cannot be read. */
  lemma DttmCodecsSound()
    ensures Inverts(DttmCodec) && FailsWhenTruncated(DttmCodec)
    ensures Inverts(DttmUtcCodec) && FailsWhenTruncated(DttmUtcCodec)
  {
    forall d: UtcDateTime, rest: seq<Token>
      ensures DttmCodec.read(DttmCodec.write(d) + rest) == Ok((d, |DttmCodec.write(d)|))
      ensures DttmUtcCodec.read(DttmUtcCodec.write(d) + rest) == Ok((d, |DttmUtcCodec.write(d)|))
    {
      DateTimeRoundTrip(d);
    }
  }

  /** `readDttm` ignores the zone key: any key, followed by the milliseconds,
      reads as the date-time of those milliseconds truncated to whole seconds. */
  lemma {:induction false} AnyZoneKeyDiscarded(key: int, ms: int, rest: seq<Token>)
    ensures ReadOne(DttmCodec, [VInt(key), VLong(ms)] + rest) == Ok((FromMillis(ms), 2))
    ensures ToMillis(FromMillis(ms)) == ms - ms % 1000
  {
    MillisRoundTrip(ms);
  }

  // ---------------------------------------------------------------- decimals

  /** A `Decimal`, represented by its `"%s"` text. Python's `Decimal(str(d))`
      equals `d`, so a decimal and its text determine each other. */
  datatype Decimal = Decimal(text: string)

  /** A decimal travels as its text through `Text`. */
  const DecimalCodec: Codec<Decimal> :=
    Codec(
      (d: Decimal) => [Text(d.text)],
      (ts: seq<Token>) => if |ts| >= 1 && ts[0].Text? then Ok((Decimal(ts[0].s), 1)) else Fail)

  method WriteBigDecimal(do: DataOutput, val: Decimal)
    modifies do
    ensures do.tokens == old(do.tokens) + [Text(val.text)]
  {
    WriteTextIfAny(do, Some(val.text));
  }

  method ReadBigDecimal(di: DataInput) returns (r: Result<Decimal>)
    requires di.Valid()
    modifies di
    ensures di.Valid()
    ensures Decoded(ReadOne(DecimalCodec, di.tokens[old(di.pos)..]), r, old(di.pos), di.pos)
  {
    var t := ReadText(di);
    if t.Fail? {
      return Fail;
    }
    r := Ok(Decimal(t.value));
  }

  /** A decimal reads back as itself, consuming its one text token. */
  lemma DecimalCodecSound()
    ensures Inverts(DecimalCodec) && FailsWhenTruncated(DecimalCodec)
    ensures forall d: Decimal :: DecimalCodec.write(d) == TextCodec.write(d.text)
  {
  }

  // ---------------------------------------------------------------- generic collections

  /** `writeCollection`: nothing for an absent collection, otherwise the count
      and the elements in order. */
  method WriteCollection<T>(val: Option<seq<T>>, do: DataOutput, io: Codec<T>)
    modifies do
    ensures do.tokens == old(do.tokens) + EncodeOptional(io, val)
  {
    if val.Some? {
      do.Write(VIntCodec, |val.value|);
      WriteElems(val.value, do, io);
    }
  }

  /** The element loop of `writeCollection`: one encoding per element, in order. */
  method WriteElems<T>(xs: seq<T>, do: DataOutput, io: Codec<T>)
    modifies do
    ensures do.tokens == old(do.tokens) + EncodeElems(io, xs)
  {
    for i := 0 to |xs|
      invariant do.tokens == old(do.tokens) + EncodeElems(io, xs[..i])
    {
      do.Write(io, xs[i]);
      EncodeElemsSnoc(io, xs[..i], xs[i]);
      assert xs[..i + 1] == xs[..i] + [xs[i]];
    }
    assert xs[..|xs|] == xs;
  }

  /** Python's iteration over a set: each element once, in an order the
      model leaves open. */
  method SetIterationOrder<T>(s: set<T>) returns (order: seq<T>)
    ensures IsEnumeration(order, s)
    ensures |order| == |s|
  {
    order := [];
    var left := s;
    ghost var done: set<T> := {};
    while left != {}
      invariant done + left == s && done !! left
      invariant IsEnumeration(order, done)
      decreases |left|
    {
      var e :| e in left;
      EnumerationExtend(order, done, e);
      order := order + [e];
      done := done + {e};
      left := left - {e};
    }
    EnumerationSize(order, s);
  }

  /** `writeCollection` over a set: nothing for an absent set, otherwise the
      set's size and its elements in iteration order, returned as `order`. */
  method WriteCollectionOfSet<T>(val: Option<set<T>>, do: DataOutput, io: Codec<T>)
    returns (ghost order: seq<T>)
    modifies do
    ensures val.None? ==> do.tokens == old(do.tokens)
    ensures val.Some? ==> IsEnumeration(order, val.value)
    ensures val.Some? ==> do.tokens == old(do.tokens) + EncodeCollection(io, order)
  {
    order := [];
    if val.Some? {
      var elems := SetIterationOrder(val.value);
      WriteCollection(Some(elems), do, io);
      order := elems;
    }
  }

  /** The loop shared by the collection readers: `n` element reads after the
      count at `start`, accumulating the elements read. */
  method ReadElems<T>(di: DataInput, io: Codec<T>, n: int, ghost start: nat) returns (r: Result<seq<T>>)
    requires di.Valid() && start + 1 == di.pos
    modifies di
    ensures di.Valid()
    ensures Decoded(DecodeElems(io, di.tokens[start + 1..], n), r, old(di.pos), di.pos)
  {
    ghost var ts := di.tokens[start + 1..];
    var result := [];
    var i := 0;
    while i < n
      invariant 0 <= i <= if n < 0 then 0 else n
      invariant di.Valid() && start + 1 <= di.pos
      invariant DecodeElems(io, ts, i) == Ok((result, di.pos - start - 1))
      decreases n - i
    {
      ghost var c := di.pos - start - 1;
      assert di.tokens[di.pos..] == ts[c..];
      DecodeElemsNext(io, ts, i, result, c);
      var x := di.Read(io);
      if x.Fail? {
        DecodeElemsFailsOnward(io, ts, i + 1, n);
        return Fail;
      }
      result := result + [x.value];
      i := i + 1;
    }
    if n <= 0 {
      assert DecodeElems(io, ts, n) == Ok(([], 0)) == DecodeElems(io, ts, i);
    }
    r := Ok(result);
  }

  /** `readList`: the count, then that many elements in order. */
  method ReadList<T>(di: DataInput, io: Codec<T>) returns (r: Result<seq<T>>)
    requires di.Valid()
    modifies di
    ensures di.Valid()
    ensures Decoded(DecodeCollection(io, di.tokens[old(di.pos)..]), r, old(di.pos), di.pos)
  {
    ghost var start := di.pos;
    ghost var ts := di.tokens[start..];
    var n := di.Read(VIntCodec);
    if n.Fail? {
      return Fail;
    }
    assert di.tokens[start + 1..] == ts[1..];
    r := ReadElems(di, io, n.value, start);
  }

  /** `readDeque`: the same reads as `readList`, into a double-ended queue. */
  method ReadDeque<T>(di: DataInput, io: Codec<T>) returns (r: Result<seq<T>>)
    requires di.Valid()
    modifies di
    ensures di.Valid()
    ensures Decoded(DecodeCollection(io, di.tokens[old(di.pos)..]), r, old(di.pos), di.pos)
  {
    r := ReadList(di, io);
  }

  /** `readSet`: the count, then that many elements, each added to the set. */
  method ReadSet<T>(di: DataInput, io: Codec<T>) returns (r: Result<set<T>>)
    requires di.Valid()
    modifies di
    ensures di.Valid()
    ensures Decoded(DecodeSet(io, di.tokens[old(di.pos)..]), r, old(di.pos), di.pos)
  {
    ghost var start := di.pos;
    ghost var ts := di.tokens[start..];
    var n := di.Read(VIntCodec);
    if n.Fail? {
      return Fail;
    }
    assert di.tokens[start + 1..] == ts[1..];
    ghost var xs;
    r, xs := ReadSetElems(di, io, n.value, start);
  }

  /** The loop of `readSet`: `n` element reads after the count at `start`,
      each element added to the set; `xs` lists the elements in read order. */
  method ReadSetElems<T>(di: DataInput, io: Codec<T>, n: int, ghost start: nat)
    returns (r: Result<set<T>>, ghost xs: seq<T>)
    requires di.Valid() && start + 1 == di.pos
    modifies di
    ensures di.Valid()
    ensures Decoded(DecodeElems(io, di.tokens[start + 1..], n), if r.Ok? then Ok(xs) else Fail, old(di.pos), di.pos)
    ensures r.Ok? ==> r.value == ToSet(xs)
  {
    ghost var es := di.tokens[start + 1..];
    var result: set<T> := {};
    xs := [];
    var i := 0;
    while i < n
      invariant 0 <= i <= if n < 0 then 0 else n
      invariant di.Valid() && start + 1 <= di.pos
      invariant DecodeElems(io, es, i) == Ok((xs, di.pos - start - 1))
      invariant result == ToSet(xs)
      decreases n - i
    {
      ghost var c := di.pos - start - 1;
      assert di.tokens[di.pos..] == es[c..];
      DecodeElemsNext(io, es, i, xs, c);
      var x := di.Read(io);
      if x.Fail? {
        DecodeElemsFailsOnward(io, es, i + 1, n);
        return Fail, xs;
      }
      result := result + {x.value};
      xs := xs + [x.value];
      i := i + 1;
    }
    if n <= 0 {
      assert DecodeElems(io, es, n) == Ok(([], 0)) == DecodeElems(io, es, i);
    }
    r := Ok(result);
  }

  // ---------------------------------------------------------------- long arrays

  /** `writeLongArray`: unlike the collection writers, it has no absent case. */
  method WriteLongArray(do: DataOutput, words: seq<int>)
    modifies do
    ensures do.tokens == old(do.tokens) + EncodeCollection(VLongCodec, words)
  {
    WriteCollection(Some(words), do, VLongCodec);
  }

  method ReadLongArray(di: DataInput) returns (r: Result<seq<int>>)
    requires di.Valid()
    modifies di
    ensures di.Valid()
    ensures Decoded(DecodeCollection(VLongCodec, di.tokens[old(di.pos)..]), r, old(di.pos), di.pos)
  {
    r := ReadList(di, VLongCodec);
  }

  // ---------------------------------------------------------------- bit arrays

  /** `bitArrayToLongs`: or the bits of each run of 64 into a word, emit the
      word as signed when its last bit index is reached, then flush the word
      in progress unless the length is exactly 64. */
  method BitArrayToLongs(ba: seq<bool>) returns (longs: seq<int>)
    ensures longs == Pack(ba)
  {
    longs := [];
    var ulo: nat := 0;
    for ix := 0 to |ba|
      invariant PackingAt(ba, ix, longs, ulo)
    {
      longs, ulo := PackBitStep(ba, ix, longs, ulo);
    }
    RunOffset(|ba|, |longs|);
    if |ba| != 64 {
      WordsFlush(ba, |longs|, |ba|);
      longs := longs + [ToSigned(ulo)];
    }
  }

  /** The packer's state before bit `ix`: the words of the runs completed so
      far, and the word of the current run holding the bits read from it. */
  ghost predicate PackingAt(ba: seq<bool>, ix: nat, longs: seq<int>, ulo: nat) {
    && 64 * |longs| <= ix < 64 * |longs| + 64
    && ix <= |ba|
    && longs == Words(ba, |longs|)
    && ulo == RunWord(ba, 64 * |longs|, ix)
  }

  /** One pass of the packing loop: or bit `ix` into the current word, and
      append that word once it holds bit 63 of its run. */
  method PackBitStep(ba: seq<bool>, ix: nat, longs: seq<int>, ulo: nat) returns (longs': seq<int>, ulo': nat)
    requires ix < |ba| && PackingAt(ba, ix, longs, ulo)
    ensures PackingAt(ba, ix + 1, longs', ulo')
  {
    var loIx := ix % 64;
    RunOffset(ix, |longs|);
    RunWordStep(ba, 64 * |longs|, ix);
    longs', ulo' := longs, ulo;
    if ba[ix] {
      ulo' := SetBit(ulo, loIx);
    }
    if loIx >= 63 {
      FlushKeepsPacking(ba, ix + 1, longs, ulo');
      longs' := longs + [ToSigned(ulo')];
      ulo' := 0;
    }
  }

  /** Appending the word of a run that is complete leaves the packer at the
      start of the next run. */
  lemma FlushKeepsPacking(ba: seq<bool>, ix: nat, longs: seq<int>, ulo: nat)
    requires ix <= |ba| && ix == 64 * |longs| + 64
    requires longs == Words(ba, |longs|) && ulo == RunWord(ba, 64 * |longs|, ix)
    ensures IsUInt64(ulo)
    ensures PackingAt(ba, ix, longs + [ToSigned(ulo)], 0)
  {
    WordsFlush(ba, |longs|, ix);
  }

  /** Reading bit `ix` into the word of the current run sets bit `ix - lo`
      when the bit is set. */
  lemma RunWordStep(ba: seq<bool>, lo: nat, ix: nat)
    requires lo <= ix < |ba|
    ensures RunWord(ba, lo, ix + 1) == if ba[ix] then SetBit(RunWord(ba, lo, ix), ix - lo) else RunWord(ba, lo, ix)
  {
  }

  /** Flushing the word of a run that ends at `hi` appends the next packed word. */
  lemma WordsFlush(ba: seq<bool>, m: nat, hi: nat)
    requires 64 * m <= hi <= |ba| && hi - 64 * m <= 64
    requires hi == 64 * m + 64 || hi == |ba|
    ensures IsUInt64(RunWord(ba, 64 * m, hi))
    ensures Words(ba, m + 1) == Words(ba, m) + [ToSigned(RunWord(ba, 64 * m, hi))]
  {
    RunWordUInt64(ba, 64 * m, hi);
  }

  /** Within run `q`, index `ix` is bit `ix - 64q` of the word, and `q` is `ix / 64`. */
  lemma RunOffset(ix: nat, q: nat)
    requires 64 * q <= ix < 64 * q + 64
    ensures ix % 64 == ix - 64 * q && ix / 64 == q
  {
    DivMod64(q, ix - 64 * q);
  }

  lemma DivMod64(q: nat, r: nat)
    requires r < 64
    ensures (64 * q + r) / 64 == q && (64 * q + r) % 64 == r
  {
  }

  /** `longsToBitArray`: a cleared array of 64 bits per word, with bit `64k + j`
      set when bit `j` of word `k`, read as unsigned, is set. */
  method LongsToBitArray(longs: seq<int>) returns (ba: seq<bool>)
    ensures ba == Unpack(longs)
    ensures |ba| == 64 * |longs|
  {
    var loLen := |longs|;
    var a := new bool[loLen * 64];
    forall i | 0 <= i < a.Length {
      a[i] := false;
    }
    for ixL := 0 to loLen
      invariant forall i :: 0 <= i < 64 * ixL ==> a[i] == BitAt(longs, i)
      invariant forall i :: 64 * ixL <= i < a.Length ==> !a[i]
    {
      var ulo := ToUnsigned(longs[ixL]);
      for ixB := 0 to 64
        invariant forall i :: 0 <= i < 64 * ixL + ixB ==> a[i] == BitAt(longs, i)
        invariant forall i :: 64 * ixL + ixB <= i < a.Length ==> !a[i]
      {
        DivMod64(ixL, ixB);
        if Bit(ulo, ixB) {
          a[ixL * 64 + ixB] := true;
        }
      }
    }
    ba := a[..];
  }

  method WriteBitArray(do: DataOutput, ba: seq<bool>)
    modifies do
    ensures do.tokens == old(do.tokens) + EncodeCollection(VLongCodec, Pack(ba))
  {
    var longs := BitArrayToLongs(ba);
    WriteLongArray(do, longs);
  }

  method ReadBitArray(di: DataInput) returns (r: Result<seq<bool>>)
    requires di.Valid()
    modifies di
    ensures di.Valid()
    ensures Decoded(DecodeBits(di.tokens[old(di.pos)..]), r, old(di.pos), di.pos)
  {
    var longs := ReadLongArray(di);
    if longs.Fail? {
      return Fail;
    }
    var bits := LongsToBitArray(longs.value);
    r := Ok(bits);
  }

  // ---------------------------------------------------------------- typed collections

  /** Every element kind the typed collection codecs carry reads back what it
      wrote, so the list, deque and set round trips of `CollectionWire` hold
      for each of them. */
  lemma ElementCodecsSound()
    ensures Inverts(VIntCodec) && Inverts(VLongCodec) && Inverts(BoolCodec)
    ensures Inverts(FloatCodec) && Inverts(DoubleCodec) && Inverts(TextCodec)
    ensures Inverts(DttmCodec) && Inverts(DecimalCodec)
  {
    PrimitiveCodecsSound();
    DttmCodecsSound();
    DecimalCodecSound();
  }

  /** `readListInteger`: the count, then that many `VIntCodec` elements, in order. */
  method ReadListInteger(di: DataInput) returns (r: Result<seq<int>>)
    requires di.Valid()
    modifies di
    ensures di.Valid()
    ensures Decoded(DecodeCollection(VIntCodec, di.tokens[old(di.pos)..]), r, old(di.pos), di.pos)
  {
    r := ReadList(di, VIntCodec);
  }

  /** `readListLong`: the count, then that many `VLongCodec` elements, in order. */
  method ReadListLong(di: DataInput) returns (r: Result<seq<int>>)
    requires di.Valid()
    modifies di
    ensures di.Valid()
    ensures Decoded(DecodeCollection(VLongCodec, di.tokens[old(di.pos)..]), r, old(di.pos), di.pos)
  {
    r := ReadList(di, VLongCodec);
  }

  /** `readListBoolean`: the count, then that many `BoolCodec` elements, in order. */
  method ReadListBoolean(di: DataInput) returns (r: Result<seq<bool>>)
    requires di.Valid()
    modifies di
    ensures di.Valid()
    ensures Decoded(DecodeCollection(BoolCodec, di.tokens[old(di.pos)..]), r, old(di.pos), di.pos)
  {
    r := ReadList(di, BoolCodec);
  }

  /** `readListFloat`: the count, then that many `FloatCodec` elements, in order. */
  method ReadListFloat(di: DataInput) returns (r: Result<seq<bv32>>)
    requires di.Valid()
    modifies di
    ensures di.Valid()
    ensures Decoded(DecodeCollection(FloatCodec, di.tokens[old(di.pos)..]), r, old(di.pos), di.pos)
  {
    r := ReadList(di, FloatCodec);
  }

  /** `readListDouble`: the count, then that many `DoubleCodec` elements, in order. */
  method ReadListDouble(di: DataInput) returns (r: Result<seq<bv64>>)
    requires di.Valid()
    modifies di
    ensures di.Valid()
    ensures Decoded(DecodeCollection(DoubleCodec, di.tokens[old(di.pos)..]), r, old(di.pos), di.pos)
  {
    r := ReadList(di, DoubleCodec);
  }

  /** `readListString`: the count, then that many `TextCodec` elements, in order. */
  method ReadListString(di: DataInput) returns (r: Result<seq<string>>)
    requires di.Valid()
    modifies di
    ensures di.Valid()
    ensures Decoded(DecodeCollection(TextCodec, di.tokens[old(di.pos)..]), r, old(di.pos), di.pos)
  {
    r := ReadList(di, TextCodec);
  }

  /** `readListDateTime`: the count, then that many `DttmCodec` elements, in order. */
  method ReadListDateTime(di: DataInput) returns (r: Result<seq<UtcDateTime>>)
    requires di.Valid()
    modifies di
    ensures di.Valid()
    ensures Decoded(DecodeCollection(DttmCodec, di.tokens[old(di.pos)..]), r, old(di.pos), di.pos)
  {
    r := ReadList(di, DttmCodec);
  }

  /** `readListBigDecimal`: the count, then that many `DecimalCodec` elements, in order. */
  method ReadListBigDecimal(di: DataInput) returns (r: Result<seq<Decimal>>)
    requires di.Valid()
    modifies di
    ensures di.Valid()
    ensures Decoded(DecodeCollection(DecimalCodec, di.tokens[old(di.pos)..]), r, old(di.pos), di.pos)
  {
    r := ReadList(di, DecimalCodec);
  }

  /** `writeListInteger`: nothing for `None`, else the count and each element with `VIntCodec`. */
  method WriteListInteger(do: DataOutput, vals: Option<seq<int>>)
    modifies do
    ensures do.tokens == old(do.tokens) + EncodeOptional(VIntCodec, vals)
  {
    WriteCollection(vals, do, VIntCodec);
  }

  /** `writeListLong`: nothing for `None`, else the count and each element with `VLongCodec`. */
  method WriteListLong(do: DataOutput, vals: Option<seq<int>>)
    modifies do
    ensures do.tokens == old(do.tokens) + EncodeOptional(VLongCodec, vals)
  {
    WriteCollection(vals, do, VLongCodec);
  }

  /** `writeListBoolean`: nothing for `None`, else the count and each element with `BoolCodec`. */
  method WriteListBoolean(do: DataOutput, vals: Option<seq<bool>>)
    modifies do
    ensures do.tokens == old(do.tokens) + EncodeOptional(BoolCodec, vals)
  {
    WriteCollection(vals, do, BoolCodec);
  }

  /** `writeListFloat`: nothing for `None`, else the count and each element with `FloatCodec`. */
  method WriteListFloat(do: DataOutput, vals: Option<seq<bv32>>)
    modifies do
    ensures do.tokens == old(do.tokens) + EncodeOptional(FloatCodec, vals)
  {
    WriteCollection(vals, do, FloatCodec);
  }

  /** `writeListDouble`: nothing for `None`, else the count and each element with `DoubleCodec`. */
  method WriteListDouble(do: DataOutput, vals: Option<seq<bv64>>)
    modifies do
    ensures do.tokens == old(do.tokens) + EncodeOptional(DoubleCodec, vals)
  {
    WriteCollection(vals, do, DoubleCodec);
  }

  /** `writeListString`: nothing for `None`, else the count and each element with `TextCodec`. */
  method WriteListString(do: DataOutput, vals: Option<seq<string>>)
    modifies do
    ensures do.tokens == old(do.tokens) + EncodeOptional(TextCodec, vals)
  {
    WriteCollection(vals, do, TextCodec);
  }

  /** `writeListDateTime`: nothing for `None`, else the count and each element with `DttmCodec`. */
  method WriteListDateTime(do: DataOutput, vals: Option<seq<UtcDateTime>>)
    modifies do
    ensures do.tokens == old(do.tokens) + EncodeOptional(DttmCodec, vals)
  {
    WriteCollection(vals, do, DttmCodec);
  }

  /** `writeListBigDecimal`: nothing for `None`, else the count and each element with `DecimalCodec`. */
  method WriteListBigDecimal(do: DataOutput, vals: Option<seq<Decimal>>)
    modifies do
    ensures do.tokens == old(do.tokens) + EncodeOptional(DecimalCodec, vals)
  {
    WriteCollection(vals, do, DecimalCodec);
  }

  /** `readDequeInteger`: the count, then that many `VIntCodec` elements, in order. */
  method ReadDequeInteger(di: DataInput) returns (r: Result<seq<int>>)
    requires di.Valid()
    modifies di
    ensures di.Valid()
    ensures Decoded(DecodeCollection(VIntCodec, di.tokens[old(di.pos)..]), r, old(di.pos), di.pos)
  {
    r := ReadDeque(di, VIntCodec);
  }

  /** `readDequeLong`: the count, then that many `VLongCodec` elements, in order. */
  method ReadDequeLong(di: DataInput) returns (r: Result<seq<int>>)
    requires di.Valid()
    modifies di
    ensures di.Valid()
    ensures Decoded(DecodeCollection(VLongCodec, di.tokens[old(di.pos)..]), r, old(di.pos), di.pos)
  {
    r := ReadDeque(di, VLongCodec);
  }

  /** `readDequeBoolean`: the count, then that many `BoolCodec` elements, in order. */
  method ReadDequeBoolean(di: DataInput) returns (r: Result<seq<bool>>)
    requires di.Valid()
    modifies di
    ensures di.Valid()
    ensures Decoded(DecodeCollection(BoolCodec, di.tokens[old(di.pos)..]), r, old(di.pos), di.pos)
  {
    r := ReadDeque(di, BoolCodec);
  }

  /** `readDequeFloat`: the count, then that many `FloatCodec` elements, in order. */
  method ReadDequeFloat(di: DataInput) returns (r: Result<seq<bv32>>)
    requires di.Valid()
    modifies di
    ensures di.Valid()
    ensures Decoded(DecodeCollection(FloatCodec, di.tokens[old(di.pos)..]), r, old(di.pos), di.pos)
  {
    r := ReadDeque(di, FloatCodec);
  }

  /** `readDequeDouble`: the count, then that many `DoubleCodec` elements, in order. */
  method ReadDequeDouble(di: DataInput) returns (r: Result<seq<bv64>>)
    requires di.Valid()
    modifies di
    ensures di.Valid()
    ensures Decoded(DecodeCollection(DoubleCodec, di.tokens[old(di.pos)..]), r, old(di.pos), di.pos)
  {
    r := ReadDeque(di, DoubleCodec);
  }

  /** `readDequeString`: the count, then that many `TextCodec` elements, in order. */
  method ReadDequeString(di: DataInput) returns (r: Result<seq<string>>)
    requires di.Valid()
    modifies di
    ensures di.Valid()
    ensures Decoded(DecodeCollection(TextCodec, di.tokens[old(di.pos)..]), r, old(di.pos), di.pos)
  {
    r := ReadDeque(di, TextCodec);
  }

  /** `readDequeDateTime`: the count, then that many `DttmCodec` elements, in order. */
  method ReadDequeDateTime(di: DataInput) returns (r: Result<seq<UtcDateTime>>)
    requires di.Valid()
    modifies di
    ensures di.Valid()
    ensures Decoded(DecodeCollection(DttmCodec, di.tokens[old(di.pos)..]), r, old(di.pos), di.pos)
  {
    r := ReadDeque(di, DttmCodec);
  }

  /** `readDequeBigDecimal`: the count, then that many `DecimalCodec` elements, in order. */
  method ReadDequeBigDecimal(di: DataInput) returns (r: Result<seq<Decimal>>)
    requires di.Valid()
    modifies di
    ensures di.Valid()
    ensures Decoded(DecodeCollection(DecimalCodec, di.tokens[old(di.pos)..]), r, old(di.pos), di.pos)
  {
    r := ReadDeque(di, DecimalCodec);
  }

  /** `writeDequeInteger`: nothing for `None`, else the count and each element with `VIntCodec`. */
  method WriteDequeInteger(do: DataOutput, vals: Option<seq<int>>)
    modifies do
    ensures do.tokens == old(do.tokens) + EncodeOptional(VIntCodec, vals)
  {
    WriteCollection(vals, do, VIntCodec);
  }

  /** `writeDequeLong`: nothing for `None`, else the count and each element with `VLongCodec`. */
  method WriteDequeLong(do: DataOutput, vals: Option<seq<int>>)
    modifies do
    ensures do.tokens == old(do.tokens) + EncodeOptional(VLongCodec, vals)
  {
    WriteCollection(vals, do, VLongCodec);
  }

  /** `writeDequeBoolean`: nothing for `None`, else the count and each element with `BoolCodec`. */
  method WriteDequeBoolean(do: DataOutput, vals: Option<seq<bool>>)
    modifies do
    ensures do.tokens == old(do.tokens) + EncodeOptional(BoolCodec, vals)
  {
    WriteCollection(vals, do, BoolCodec);
  }

  /** `writeDequeFloat`: nothing for `None`, else the count and each element with `FloatCodec`. */
  method WriteDequeFloat(do: DataOutput, vals: Option<seq<bv32>>)
    modifies do
    ensures do.tokens == old(do.tokens) + EncodeOptional(FloatCodec, vals)
  {
    WriteCollection(vals, do, FloatCodec);
  }

  /** `writeDequeDouble`: nothing for `None`, else the count and each element with `DoubleCodec`. */
  method WriteDequeDouble(do: DataOutput, vals: Option<seq<bv64>>)
    modifies do
    ensures do.tokens == old(do.tokens) + EncodeOptional(DoubleCodec, vals)
  {
    WriteCollection(vals, do, DoubleCodec);
  }

  /** `writeDequeString`: nothing for `None`, else the count and each element with `TextCodec`. */
  method WriteDequeString(do: DataOutput, vals: Option<seq<string>>)
    modifies do
    ensures do.tokens == old(do.tokens) + EncodeOptional(TextCodec, vals)
  {
    WriteCollection(vals, do, TextCodec);
  }

  /** `writeDequeDateTime`: nothing for `None`, else the count and each element with `DttmCodec`. */
  method WriteDequeDateTime(do: DataOutput, vals: Option<seq<UtcDateTime>>)
    modifies do
    ensures do.tokens == old(do.tokens) + EncodeOptional(DttmCodec, vals)
  {
    WriteCollection(vals, do, DttmCodec);
  }

  /** `writeDequeBigDecimal`: nothing for `None`, else the count and each element with `DecimalCodec`. */
  method WriteDequeBigDecimal(do: DataOutput, vals: Option<seq<Decimal>>)
    modifies do
    ensures do.tokens == old(do.tokens) + EncodeOptional(DecimalCodec, vals)
  {
    WriteCollection(vals, do, DecimalCodec);
  }

  /** `readSetInteger`: the count, then that many `VIntCodec` elements, gathered into a set. */
  method ReadSetInteger(di: DataInput) returns (r: Result<set<int>>)
    requires di.Valid()
    modifies di
    ensures di.Valid()
    ensures Decoded(DecodeSet(VIntCodec, di.tokens[old(di.pos)..]), r, old(di.pos), di.pos)
  {
    r := ReadSet(di, VIntCodec);
  }

  /** `readSetLong`: the count, then that many `VLongCodec` elements, gathered into a set. */
  method ReadSetLong(di: DataInput) returns (r: Result<set<int>>)
    requires di.Valid()
    modifies di
    ensures di.Valid()
    ensures Decoded(DecodeSet(VLongCodec, di.tokens[old(di.pos)..]), r, old(di.pos), di.pos)
  {
    r := ReadSet(di, VLongCodec);
  }

  /** `readSetBoolean`: the count, then that many `BoolCodec` elements, gathered into a set. */
  method ReadSetBoolean(di: DataInput) returns (r: Result<set<bool>>)
    requires di.Valid()
    modifies di
    ensures di.Valid()
    ensures Decoded(DecodeSet(BoolCodec, di.tokens[old(di.pos)..]), r, old(di.pos), di.pos)
  {
    r := ReadSet(di, BoolCodec);
  }

  /** `readSetFloat`: the count, then that many `FloatCodec` elements, gathered into a set. */
  method ReadSetFloat(di: DataInput) returns (r: Result<set<bv32>>)
    requires di.Valid()
    modifies di
    ensures di.Valid()
    ensures Decoded(DecodeSet(FloatCodec, di.tokens[old(di.pos)..]), r, old(di.pos), di.pos)
  {
    r := ReadSet(di, FloatCodec);
  }

  /** `readSetDouble`: the count, then that many `DoubleCodec` elements, gathered into a set. */
  method ReadSetDouble(di: DataInput) returns (r: Result<set<bv64>>)
    requires di.Valid()
    modifies di
    ensures di.Valid()
    ensures Decoded(DecodeSet(DoubleCodec, di.tokens[old(di.pos)..]), r, old(di.pos), di.pos)
  {
    r := ReadSet(di, DoubleCodec);
  }

  /** `readSetString`: the count, then that many `TextCodec` elements, gathered into a set. */
  method ReadSetString(di: DataInput) returns (r: Result<set<string>>)
    requires di.Valid()
    modifies di
    ensures di.Valid()
    ensures Decoded(DecodeSet(TextCodec, di.tokens[old(di.pos)..]), r, old(di.pos), di.pos)
  {
    r := ReadSet(di, TextCodec);
  }

  /** `readSetDateTime`: the count, then that many `DttmCodec` elements, gathered into a set. */
  method ReadSetDateTime(di: DataInput) returns (r: Result<set<UtcDateTime>>)
    requires di.Valid()
    modifies di
    ensures di.Valid()
    ensures Decoded(DecodeSet(DttmCodec, di.tokens[old(di.pos)..]), r, old(di.pos), di.pos)
  {
    r := ReadSet(di, DttmCodec);
  }

  /** `readSetBigDecimal`: the count, then that many `DecimalCodec` elements, gathered into a set. */
  method ReadSetBigDecimal(di: DataInput) returns (r: Result<set<Decimal>>)
    requires di.Valid()
    modifies di
    ensures di.Valid()
    ensures Decoded(DecodeSet(DecimalCodec, di.tokens[old(di.pos)..]), r, old(di.pos), di.pos)
  {
    r := ReadSet(di, DecimalCodec);
  }

  /** `writeSetInteger`: nothing for `None`, else the size and each element with
      `VIntCodec`, in the iteration order returned as `order`. */
  method WriteSetInteger(do: DataOutput, vals: Option<set<int>>) returns (ghost order: seq<int>)
    modifies do
    ensures vals.None? ==> do.tokens == old(do.tokens)
    ensures vals.Some? ==> IsEnumeration(order, vals.value)
    ensures vals.Some? ==> do.tokens == old(do.tokens) + EncodeCollection(VIntCodec, order)
  {
    order := WriteCollectionOfSet(vals, do, VIntCodec);
  }

  /** `writeSetLong`: nothing for `None`, else the size and each element with
      `VLongCodec`, in the iteration order returned as `order`. */
  method WriteSetLong(do: DataOutput, vals: Option<set<int>>) returns (ghost order: seq<int>)
    modifies do
    ensures vals.None? ==> do.tokens == old(do.tokens)
    ensures vals.Some? ==> IsEnumeration(order, vals.value)
    ensures vals.Some? ==> do.tokens == old(do.tokens) + EncodeCollection(VLongCodec, order)
  {
    order := WriteCollectionOfSet(vals, do, VLongCodec);
  }

  /** `writeSetBoolean`: nothing for `None`, else the size and each element with
      `BoolCodec`, in the iteration order returned as `order`. */
  method WriteSetBoolean(do: DataOutput, vals: Option<set<bool>>) returns (ghost order: seq<bool>)
    modifies do
    ensures vals.None? ==> do.tokens == old(do.tokens)
    ensures vals.Some? ==> IsEnumeration(order, vals.value)
    ensures vals.Some? ==> do.tokens == old(do.tokens) + EncodeCollection(BoolCodec, order)
  {
    order := WriteCollectionOfSet(vals, do, BoolCodec);
  }

  /** `writeSetFloat`: nothing for `None`, else the size and each element with
      `FloatCodec`, in the iteration order returned as `order`. */
  method WriteSetFloat(do: DataOutput, vals: Option<set<bv32>>) returns (ghost order: seq<bv32>)
    modifies do
    ensures vals.None? ==> do.tokens == old(do.tokens)
    ensures vals.Some? ==> IsEnumeration(order, vals.value)
    ensures vals.Some? ==> do.tokens == old(do.tokens) + EncodeCollection(FloatCodec, order)
  {
    order := WriteCollectionOfSet(vals, do, FloatCodec);
  }

  /** `writeSetDouble`: nothing for `None`, else the size and each element with
      `DoubleCodec`, in the iteration order returned as `order`. */
  method WriteSetDouble(do: DataOutput, vals: Option<set<bv64>>) returns (ghost order: seq<bv64>)
    modifies do
    ensures vals.None? ==> do.tokens == old(do.tokens)
    ensures vals.Some? ==> IsEnumeration(order, vals.value)
    ensures vals.Some? ==> do.tokens == old(do.tokens) + EncodeCollection(DoubleCodec, order)
  {
    order := WriteCollectionOfSet(vals, do, DoubleCodec);
  }

  /** `writeSetString`: nothing for `None`, else the size and each element with
      `TextCodec`, in the iteration order returned as `order`. */
  method WriteSetString(do: DataOutput, vals: Option<set<string>>) returns (ghost order: seq<string>)
    modifies do
    ensures vals.None? ==> do.tokens == old(do.tokens)
    ensures vals.Some? ==> IsEnumeration(order, vals.value)
    ensures vals.Some? ==> do.tokens == old(do.tokens) + EncodeCollection(TextCodec, order)
  {
    order := WriteCollectionOfSet(vals, do, TextCodec);
  }

  /** `writeSetDateTime`: nothing for `None`, else the size and each element with
      `DttmCodec`, in the iteration order returned as `order`. */
  method WriteSetDateTime(do: DataOutput, vals: Option<set<UtcDateTime>>) returns (ghost order: seq<UtcDateTime>)
    modifies do
    ensures vals.None? ==> do.tokens == old(do.tokens)
    ensures vals.Some? ==> IsEnumeration(order, vals.value)
    ensures vals.Some? ==> do.tokens == old(do.tokens) + EncodeCollection(DttmCodec, order)
  {
    order := WriteCollectionOfSet(vals, do, DttmCodec);
  }

  /** `writeSetBigDecimal`: nothing for `None`, else the size and each element with
      `DecimalCodec`, in the iteration order returned as `order`. */
  method WriteSetBigDecimal(do: DataOutput, vals: Option<set<Decimal>>) returns (ghost order: seq<Decimal>)
    modifies do
    ensures vals.None? ==> do.tokens == old(do.tokens)
    ensures vals.Some? ==> IsEnumeration(order, vals.value)
    ensures vals.Some? ==> do.tokens == old(do.tokens) + EncodeCollection(DecimalCodec, order)
  {
    order := WriteCollectionOfSet(vals, do, DecimalCodec);
  }
}
