/** The bit-sequence packing used by `bitArrayToLongs` / `longsToBitArray`:
    bit `i` of the sequence goes to bit `i mod 64` of word `i / 64`, and the
    words travel as signed 64-bit integers (numpy `int64`). */
module BitWords {
  import opened Results
  import opened Wire
  import opened CollectionWire

  const TwoTo63: int := 0x8000_0000_0000_0000
  const TwoTo64: int := 0x1_0000_0000_0000_0000

  predicate IsInt64(x: int) {
    -TwoTo63 <= x < TwoTo63
  }

  /** A numpy `uint64`, by its value. */
  predicate IsUInt64(u: int) {
    0 <= u < TwoTo64
  }

  /** numpy's `astype(int64)` on a `uint64`: the same 64 bits read as two's complement. */
  function ToSigned(u: int): (x: int)
    requires IsUInt64(u)
    ensures IsInt64(x)
    ensures x % TwoTo64 == u
    ensures x >= 0 <==> u < TwoTo63
  {
    if u < TwoTo63 then u else u - TwoTo64
  }

  /** numpy's `uint64(x)`: the low 64 bits of `x`, as an unsigned value. */
  function ToUnsigned(x: int): (u: int)
    ensures IsUInt64(u)
    ensures IsUInt64(x) ==> u == x
    ensures IsInt64(x) ==> ToSigned(u) == x
  {
    x % TwoTo64
  }

  /** Reading a word back as unsigned recovers the bits it was built from. */
  lemma UnsignedOfSigned(u: int)
    requires IsUInt64(u)
    ensures ToUnsigned(ToSigned(u)) == u
  {
  }

  function Pow2(j: nat): (p: nat)
    ensures p >= 1
  {
    if j == 0 then 1 else 2 * Pow2(j - 1)
  }

  lemma {:induction false} Pow2Add(i: nat, j: nat)
    ensures Pow2(i + j) == Pow2(i) * Pow2(j)
    decreases i
  {
    if i > 0 {
      Pow2Add(i - 1, j);
    }
  }

  lemma Pow2Of8()
    ensures Pow2(8) == 256
  {
  }

  lemma Pow2Of16()
    ensures Pow2(16) == 0x1_0000
  {
    Pow2Add(8, 8);
    Pow2Of8();
  }

  lemma Pow2Of32()
    ensures Pow2(32) == 0x1_0000_0000
  {
    Pow2Add(16, 16);
    Pow2Of16();
  }

  lemma Pow2Of64()
    ensures Pow2(64) == TwoTo64
  {
    Pow2Add(32, 32);
    Pow2Of32();
  }

  /** Bit `j` of the unsigned word `w`: the test `w & (1 << j) != 0`. */
  predicate Bit(w: nat, j: nat) {
    if j == 0 then w % 2 == 1 else Bit(w / 2, j - 1)
  }

  /** `w | (1 << j)`: `w` with bit `j` set. */
  function SetBit(w: nat, j: nat): nat {
    if Bit(w, j) then w else w + Pow2(j)
  }

  /** Zero has no bit set. */
  lemma {:induction false} ZeroNoBit(j: nat)
    ensures !Bit(0, j)
  {
    if j > 0 {
      ZeroNoBit(j - 1);
    }
  }

  /** A word below `2^j` has no bit at `j` or above. */
  lemma {:induction false} NoBitAbove(w: nat, j: nat, k: nat)
    requires w < Pow2(j) && j <= k
    ensures !Bit(w, k)
  {
    if j == 0 {
      ZeroNoBit(k);
    } else {
      NoBitAbove(w / 2, j - 1, k - 1);
    }
  }

  /** Adding `2^j` to a word whose bit `j` is clear sets exactly that bit. */
  lemma {:induction false} AddClearBit(w: nat, j: nat, k: nat)
    requires !Bit(w, j)
    ensures Bit(w + Pow2(j), k) == (Bit(w, k) || k == j)
  {
    if j == 0 {
      if k > 0 {
        assert (w + 1) / 2 == w / 2;
      }
    } else if k > 0 {
      assert (w + Pow2(j)) / 2 == w / 2 + Pow2(j - 1);
      AddClearBit(w / 2, j - 1, k - 1);
    }
  }

  /** Or-ing in bit `j` sets bit `j` and leaves every other bit as it was. */
  lemma SetBitBit(w: nat, j: nat, k: nat)
    ensures Bit(SetBit(w, j), k) == (Bit(w, k) || k == j)
  {
    if !Bit(w, j) {
      AddClearBit(w, j, k);
    }
  }

  /** The word holding bits `ba[lo..hi]`, bit `ba[lo + j]` at position `j`,
      built as `bitArrayToLongs` builds it: or-ing in the set bits one index
      at a time. */
  function RunWord(ba: seq<bool>, lo: nat, hi: nat): (w: nat)
    requires lo <= hi <= |ba|
    ensures w < Pow2(hi - lo)
    decreases hi - lo
  {
    if hi == lo then 0
    else
      var w := RunWord(ba, lo, hi - 1);
      if ba[hi - 1] then
        NoBitAbove(w, hi - 1 - lo, hi - 1 - lo);
        SetBit(w, hi - 1 - lo)
      else w
  }

  /** The bits of a run's word are exactly the run's bits; every bit at or
      beyond the run's length is clear. */
  lemma {:induction false} RunWordBit(ba: seq<bool>, lo: nat, hi: nat, j: nat)
    requires lo <= hi <= |ba|
    ensures Bit(RunWord(ba, lo, hi), j) == (j < hi - lo && ba[lo + j])
    decreases hi - lo
  {
    if hi == lo {
      ZeroNoBit(j);
    } else {
      RunWordBit(ba, lo, hi - 1, j);
      if ba[hi - 1] {
        SetBitBit(RunWord(ba, lo, hi - 1), hi - 1 - lo, j);
      }
    }
  }

  /** A run of at most 64 bits packs into a `uint64`. */
  lemma RunWordUInt64(ba: seq<bool>, lo: nat, hi: nat)
    requires lo <= hi <= |ba| && hi - lo <= 64
    ensures IsUInt64(RunWord(ba, lo, hi))
  {
    Pow2Of64();
    Pow2Monotone(hi - lo, 64);
  }

  lemma {:induction false} Pow2Monotone(i: nat, j: nat)
    requires i <= j
    ensures Pow2(i) <= Pow2(j)
    decreases j
  {
    if i < j {
      Pow2Monotone(i, j - 1);
    }
  }

  /** The number of words `bitArrayToLongs` emits for `n` bits: one per full
      word, plus the trailing word the flush test `n ^ 64 != 0` appends, a test
      that holds exactly when `n != 64`. */
  function WordCount(n: nat): (w: nat)
    ensures w >= 1
    ensures n <= 64 * w
    ensures 64 * (w - 1) <= n
  {
    n / 64 + (if n != 64 then 1 else 0)
  }

  /** Where run `k` ends: 64 bits after its start, or at the end of the input. */
  function RunEnd(n: nat, k: nat): nat {
    if 64 * k + 64 <= n then 64 * k + 64 else n
  }

  /** Word `k` of the packing, as the signed value that is written: the word
      of the bits from `64k` to the end of run `k`. */
  function PackChunk(ba: seq<bool>, k: nat): (x: int)
    requires 64 * k <= |ba|
    ensures IsInt64(x)
  {
    RunWordUInt64(ba, 64 * k, RunEnd(|ba|, k));
    ToSigned(RunWord(ba, 64 * k, RunEnd(|ba|, k)))
  }

  /** The first `m` packed words, word `k` packing run `k`. */
  function Words(ba: seq<bool>, m: nat): (ws: seq<int>)
    requires m == 0 || 64 * (m - 1) <= |ba|
    ensures |ws| == m
  {
    if m == 0 then [] else Words(ba, m - 1) + [PackChunk(ba, m - 1)]
  }

  /** Word `k` of the packing packs run `k`. */
  lemma {:induction false} WordsAt(ba: seq<bool>, m: nat, k: nat)
    requires k < m && 64 * (m - 1) <= |ba|
    ensures Words(ba, m)[k] == PackChunk(ba, k)
  {
    if k < m - 1 {
      WordsAt(ba, m - 1, k);
    }
  }

  /** The words `bitArrayToLongs` emits: `WordCount(|ba|)` of them, word `k`
      packing run `k` and read as signed. */
  function Pack(ba: seq<bool>): (longs: seq<int>)
    ensures |longs| == WordCount(|ba|)
  {
    Words(ba, WordCount(|ba|))
  }

  /** Bit `i` of the word sequence: bit `i mod 64` of word `i / 64`, read as unsigned. */
  predicate BitAt(longs: seq<int>, i: nat)
    requires i < 64 * |longs|
  {
    Bit(ToUnsigned(longs[i / 64]), i % 64)
  }

  /** The bits `longsToBitArray` produces: 64 per word. */
  function Unpack(longs: seq<int>): (ba: seq<bool>)
    ensures |ba| == 64 * |longs|
  {
    seq(64 * |longs|, i requires 0 <= i < 64 * |longs| => BitAt(longs, i))
  }

  /** How many words the packer emits: `n = 0` gives one word, `n = 64` one
      word, and every other multiple of 64 one word more than it needs. Every
      word starts within the input. */
  lemma WordCountCases(n: nat)
    ensures n % 64 != 0 ==> WordCount(n) == n / 64 + 1
    ensures n == 64 ==> WordCount(n) == 1
    ensures n % 64 == 0 && n != 64 ==> WordCount(n) == n / 64 + 1
    ensures WordCount(0) == 1 && WordCount(128) == 3
    ensures WordCount(n) >= (n + 63) / 64
    ensures 64 * (WordCount(n) - 1) <= n
  {
  }

  /** Every packed word is a signed 64-bit value. */
  lemma PackInt64(ba: seq<bool>)
    ensures forall k :: 0 <= k < |Pack(ba)| ==> IsInt64(Pack(ba)[k])
  {
    WordCountCases(|ba|);
    forall k | 0 <= k < |Pack(ba)| {
      WordsAt(ba, |Pack(ba)|, k);
    }
  }

  /** Word `k` of the packing, read back as unsigned, is the word of run `k`. */
  lemma PackWordOfRun(ba: seq<bool>, k: nat)
    requires k < WordCount(|ba|)
    ensures 64 * k <= |ba|
    ensures ToUnsigned(Pack(ba)[k]) == RunWord(ba, 64 * k, RunEnd(|ba|, k))
  {
    WordCountCases(|ba|);
    WordsAt(ba, WordCount(|ba|), k);
    var hi := RunEnd(|ba|, k);
    RunWordUInt64(ba, 64 * k, hi);
    UnsignedOfSigned(RunWord(ba, 64 * k, hi));
  }

  /** The bit-level meaning of `Pack`: bit `j` of word `k` is bit `64k + j` of
      the input when that exists, and clear otherwise. */
  lemma PackBit(ba: seq<bool>, k: nat, j: nat)
    requires k < WordCount(|ba|) && j < 64
    ensures Bit(ToUnsigned(Pack(ba)[k]), j) == (64 * k + j < |ba| && ba[64 * k + j])
  {
    PackWordOfRun(ba, k);
    RunWordBit(ba, 64 * k, RunEnd(|ba|, k), j);
  }

  /** Unpacking the packed words gives the original bits first, then only
      clear bits: `64 * WordCount(n)` bits in all. */
  lemma UnpackPack(ba: seq<bool>)
    ensures |Unpack(Pack(ba))| == 64 * WordCount(|ba|)
    ensures Unpack(Pack(ba))[..|ba|] == ba
    ensures forall i :: |ba| <= i < |Unpack(Pack(ba))| ==> !Unpack(Pack(ba))[i]
  {
    var u := Unpack(Pack(ba));
    WordCountCases(|ba|);
    forall i | 0 <= i < |u|
      ensures u[i] == (i < |ba| && ba[i])
    {
      PackBit(ba, i / 64, i % 64);
    }
  }

  /** Every word beyond the `ceil(n / 64)` that hold data bits is zero. */
  lemma PaddingWordsZero(ba: seq<bool>, k: nat)
    requires (|ba| + 63) / 64 <= k < WordCount(|ba|)
    ensures Pack(ba)[k] == 0
  {
    WordCountCases(|ba|);
    WordsAt(ba, WordCount(|ba|), k);
    assert 64 * k == |ba|;
  }

  /** A bit array read: a word collection, unpacked. */
  function DecodeBits(ts: seq<Token>): (r: Result<(seq<bool>, nat)>)
    ensures r.Fail? <==> DecodeCollection(VLongCodec, ts).Fail?
    ensures r.Ok? ==> |r.value.0| == 64 * |DecodeCollection(VLongCodec, ts).value.0|
    ensures r.Ok? ==> r.value.1 == DecodeCollection(VLongCodec, ts).value.1 <= |ts|
  {
    match DecodeCollection(VLongCodec, ts)
    case Fail => Fail
    case Ok((longs, c)) => Ok((Unpack(longs), c))
  }

  /** `readBitArray(writeBitArray(ba))` holds `ba` in its first `|ba|` bits and
      clear bits after them, and stops where the encoding ends. */
  lemma BitArrayRoundTrip(ba: seq<bool>, rest: seq<Token>)
    ensures
      var e := EncodeCollection(VLongCodec, Pack(ba));
      var r := DecodeBits(e + rest);
      && r.Ok?
      && r.value.1 == |e|
      && |r.value.0| == 64 * WordCount(|ba|)
      && r.value.0[..|ba|] == ba
      && forall i :: |ba| <= i < |r.value.0| ==> !r.value.0[i]
  {
    PrimitiveCodecsSound();
    CollectionRoundTrip(VLongCodec, Pack(ba), rest);
    UnpackPack(ba);
  }
}
