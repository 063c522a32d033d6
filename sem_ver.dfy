/** The `SemVer` class: a version string of three or four dot-separated
    decimal numbers (major, minor, update and an optional build), its parse,
    its total order and the level at which two versions differ. */
module SemVer {
  import opened Results
  import opened Strings

  /** Positions of the parts in the list of items, and the allowed sizes. */
  const MajorIndex: nat := 0
  const MinorIndex: nat := MajorIndex + 1
  const UpdateIndex: nat := MinorIndex + 1
  const BuildIndex: nat := UpdateIndex + 1
  const ItemsMinSize: nat := UpdateIndex + 1
  const ItemsMaxSize: nat := BuildIndex + 1

  /** Results of a three-way comparison, as Python 2's `cmp` returns them. */
  const EQ: int := 0
  const GT: int := 1
  const LT: int := -1

  /** The first level at which two versions differ (`DiffLevel` NONE, MAJOR, MINOR, UPDATE, BUILD). */
  datatype DiffLevel = NoDiff | MajorDiff | MinorDiff | UpdateDiff | BuildDiff

  /** A parsed version: the text it came from and its numeric items. */
  datatype Version = Version(source: string, items: seq<nat>) {

    /** What every successfully constructed instance satisfies. */
    predicate Valid() {
      ItemsMinSize <= |items| <= ItemsMaxSize
    }

    function Major(): nat requires Valid() { items[MajorIndex] }
    function Minor(): nat requires Valid() { items[MinorIndex] }
    function Update(): nat requires Valid() { items[UpdateIndex] }

    /** The build number, or `None` when the version has only three items. */
    function Build(): Option<nat>
      requires Valid()
    {
      if |items| > BuildIndex then Some(items[BuildIndex]) else None
    }
  }

  /** The numbers of the longest prefix of `pieces` whose every piece is all digits. */
  function DigitPrefix(pieces: seq<string>): (items: seq<nat>)
    ensures |items| <= |pieces|
    ensures forall i :: 0 <= i < |items| ==> IsDigits(pieces[i]) && items[i] == DigitsValue(pieces[i])
    ensures |items| == |pieces| || !IsDigits(pieces[|items|])
    decreases |pieces|
  {
    if pieces == [] || !IsDigits(pieces[0]) then []
    else [DigitsValue(pieces[0])] + DigitPrefix(pieces[1..])
  }

  /** The outcome of constructing a `SemVer` from `src`: `None` and any text
      whose digit prefix has fewer than three or more than four items are
      rejected. The zero-build test of the constructor compares the bound
      method `build` itself with `None` and `0`, so it never rejects anything. */
  function Parsed(src: Option<string>): (r: Result<Version>)
    ensures r.Ok? ==> src.Some? && r.value.Valid() && r.value.source == src.value
  {
    if src.None? then Fail
    else
      var items := DigitPrefix(Split(src.value, '.'));
      if |items| < ItemsMinSize || |items| > ItemsMaxSize then Fail
      else Ok(Version(src.value, items))
  }

  /** The constructor: split on dots, convert pieces while they are all digits,
      stop at the first one that is not, then check the number of items. */
  method Parse(src: Option<string>) returns (r: Result<Version>)
    ensures src.None? ==> r.Fail?
    ensures src.Some? ==>
      var items := DigitPrefix(Split(src.value, '.'));
      (r.Ok? <==> ItemsMinSize <= |items| <= ItemsMaxSize) &&
      (r.Ok? ==> r.value == Version(src.value, items))
    ensures r == Parsed(src)
  {
    if src.None? {
      return Fail;
    }
    var pieces := Split(src.value, '.');
    var items: seq<nat> := [];
    var x := 0;
    while x < |pieces|
      invariant 0 <= x <= |pieces|
      invariant |items| == x
      invariant forall i :: 0 <= i < x ==> IsDigits(pieces[i]) && items[i] == DigitsValue(pieces[i])
    {
      if IsDigits(pieces[x]) {
        items := items + [DigitsValue(pieces[x])];
      } else {
        break;
      }
      x := x + 1;
    }
    assert x == |pieces| || !IsDigits(pieces[x]);
    DigitPrefixUnique(pieces, items);
    if |items| < ItemsMinSize || |items| > ItemsMaxSize {
      return Fail;
    }
    r := Ok(Version(src.value, items));
  }

  /** The digit prefix is the only list of items that converts an all-digit
      prefix of the pieces and stops at the end or at a non-digit piece. */
  lemma {:induction false} DigitPrefixUnique(pieces: seq<string>, items: seq<nat>)
    requires |items| <= |pieces|
    requires forall i :: 0 <= i < |items| ==> IsDigits(pieces[i]) && items[i] == DigitsValue(pieces[i])
    requires |items| == |pieces| || !IsDigits(pieces[|items|])
    ensures DigitPrefix(pieces) == items
    decreases |pieces|
  {
    if items != [] {
      DigitPrefixUnique(pieces[1..], items[1..]);
    }
  }

  /** The decimal forms of the items. */
  function Numerals(items: seq<nat>): (ns: seq<string>)
    ensures |ns| == |items|
    ensures forall i :: 0 <= i < |ns| ==> IsDigits(ns[i])
  {
    seq(|items|, i requires 0 <= i < |items| => NatToString(items[i]))
  }

  /** `toVarName`: the items joined with underscores, e.g. `12_234_456`.
      Splitting the name on `_` gives back the decimal forms of the items. */
  function ToVarName(v: Version): (name: string)
    requires v.Valid()
    ensures Split(name, '_') == Numerals(v.items)
  {
    JoinNumerals(v.items, '_')
  }

  /** `semanticPartsOnly`: the items joined with dots, dropping any suffix of
      the source. Splitting it on `.` gives back the decimal forms of the items. */
  function SemanticPartsOnly(v: Version): (parts: string)
    requires v.Valid()
    ensures Split(parts, '.') == Numerals(v.items)
  {
    JoinNumerals(v.items, '.')
  }

  /** `sep.join(map(str, items))`: splitting it on a non-digit separator gives
      back the decimal forms of the items, in order. */
  function JoinNumerals(items: seq<nat>, sep: char): (s: string)
    requires |items| >= 1 && !IsDigit(sep)
    ensures Split(s, sep) == Numerals(items)
  {
    NoSeparatorInNumerals(items, sep);
    SplitJoin(Numerals(items), sep);
    Join(Numerals(items), sep)
  }

  lemma NoSeparatorInNumerals(items: seq<nat>, sep: char)
    requires !IsDigit(sep)
    ensures forall i :: 0 <= i < |items| ==> sep !in Numerals(items)[i]
  {
  }

  /** A variable name determines the version: its underscore-separated pieces
      are exactly `str(item)` for each item, in order, so each has no leading
      zero and converts back to its item. */
  lemma VarNameRoundTrip(v: Version)
    requires v.Valid()
    ensures |Split(ToVarName(v), '_')| == |v.items|
    ensures forall i :: 0 <= i < |v.items| ==>
      var piece := Split(ToVarName(v), '_')[i];
      piece == NatToString(v.items[i]) && (piece[0] == '0' ==> piece == "0") &&
      IsDigits(piece) && DigitsValue(piece) == v.items[i]
  {
    forall i | 0 <= i < |v.items| ensures DigitsValue(Numerals(v.items)[i]) == v.items[i] {
      NatToStringValue(v.items[i]);
    }
  }

  /** Parsing the semantic parts of a version gives back the same items. */
  lemma SemanticPartsReparse(v: Version)
    requires v.Valid()
    ensures Parsed(Some(SemanticPartsOnly(v))) == Ok(Version(SemanticPartsOnly(v), v.items))
  {
    var ns := Numerals(v.items);
    forall i | 0 <= i < |v.items| ensures DigitsValue(ns[i]) == v.items[i] {
      NatToStringValue(v.items[i]);
    }
    DigitPrefixUnique(ns, v.items);
  }

  /** Python 2's `cmp` on numbers. */
  function Cmp(x: int, y: int): (c: int)
    ensures c == EQ <==> x == y
    ensures c == LT <==> x < y
    ensures c == GT <==> x > y
  {
    if x < y then LT else if x > y then GT else EQ
  }

  /** Python 2's `cmp` on two builds, where `None` is below every number. */
  function CmpBuild(x: Option<nat>, y: Option<nat>): (c: int)
    ensures c == EQ <==> x == y
    ensures c == LT <==> x != y && (x.None? || (y.Some? && x.value < y.value))
    ensures c == GT <==> x != y && (y.None? || (x.Some? && x.value > y.value))
  {
    match (x, y)
    case (None, None) => EQ
    case (None, Some(_)) => LT
    case (Some(_), None) => GT
    case (Some(a), Some(b)) => Cmp(a, b)
  }

  /** The order Python gives to lists of numbers: lexicographic, a proper prefix first. */
  function LexCompare(a: seq<nat>, b: seq<nat>): (c: int)
    ensures c == LT || c == EQ || c == GT
    decreases |a|
  {
    if a == [] && b == [] then EQ
    else if a == [] then LT
    else if b == [] then GT
    else if a[0] != b[0] then Cmp(a[0], b[0])
    else LexCompare(a[1..], b[1..])
  }

  lemma {:induction false} LexCompareAfterCommonPrefix(a: seq<nat>, b: seq<nat>, k: nat)
    requires k <= |a| && k <= |b| && a[..k] == b[..k]
    ensures LexCompare(a, b) == LexCompare(a[k..], b[k..])
    decreases k
  {
    if k > 0 {
      assert a[0] == a[..k][0] && b[0] == b[..k][0];
      assert a[1..][..k - 1] == a[..k][1..] && b[1..][..k - 1] == b[..k][1..];
      LexCompareAfterCommonPrefix(a[1..], b[1..], k - 1);
      assert a[1..][k - 1..] == a[k..] && b[1..][k - 1..] == b[k..];
    }
  }

  /** `__cmp__`: compare major, minor and update in turn, then rank the version
      with more items higher, then compare builds. Comparing with `None` fails. */
  method Compare(self: Version, o: Option<Version>) returns (r: Result<int>)
    requires self.Valid()
    requires o.Some? ==> o.value.Valid()
    ensures o.None? ==> r.Fail?
    ensures o.Some? ==> r == Ok(LexCompare(self.items, o.value.items))
  {
    if o.None? {
      return Fail;
    }
    var other := o.value;
    for x := 0 to ItemsMinSize
      invariant self.items[..x] == other.items[..x]
    {
      var c := Cmp(self.items[x], other.items[x]);
      if c != EQ {
        LexCompareAfterCommonPrefix(self.items, other.items, x);
        return Ok(c);
      }
      assert self.items[..x + 1] == self.items[..x] + [self.items[x]];
      assert other.items[..x + 1] == other.items[..x] + [other.items[x]];
    }
    LexCompareAfterCommonPrefix(self.items, other.items, ItemsMinSize);
    if |self.items| > |other.items| {
      return Ok(GT);
    }
    if |self.items| < |other.items| {
      return Ok(LT);
    }
    r := Ok(CmpBuild(self.Build(), o.value.Build()));
  }

  /** The comparison is zero exactly for equal item lists. */
  lemma {:induction false} LexCompareZeroIff(a: seq<nat>, b: seq<nat>)
    ensures LexCompare(a, b) == EQ <==> a == b
    decreases |a|
  {
    if a != [] && b != [] && a[0] == b[0] {
      LexCompareZeroIff(a[1..], b[1..]);
      assert a == [a[0]] + a[1..] && b == [b[0]] + b[1..];
    }
  }

  /** Swapping the operands negates the comparison. */
  lemma {:induction false} LexCompareAntisymmetric(a: seq<nat>, b: seq<nat>)
    ensures LexCompare(a, b) == -LexCompare(b, a)
    decreases |a|
  {
    if a != [] && b != [] && a[0] == b[0] {
      LexCompareAntisymmetric(a[1..], b[1..]);
    }
  }

  /** The comparison is transitive, so together with the two lemmas above it is a total order. */
  lemma {:induction false} LexCompareTransitive(a: seq<nat>, b: seq<nat>, c: seq<nat>)
    requires LexCompare(a, b) == LT && LexCompare(b, c) == LT
    ensures LexCompare(a, c) == LT
    decreases |a|
  {
    if a != [] && b != [] && c != [] && a[0] == b[0] && b[0] == c[0] {
      LexCompareTransitive(a[1..], b[1..], c[1..]);
    }
  }

  /** `__eq__`: two versions are equal when their items are, which is exactly
      when `__cmp__` answers zero. Comparing with `None` fails, since it has no
      `items()`. */
  function Equals(self: Version, other: Option<Version>): (r: Result<bool>)
    ensures other.None? ==> r.Fail?
    ensures other.Some? ==> r.Ok? && (r.value <==> LexCompare(self.items, other.value.items) == EQ)
  {
    if other.None? then Fail
    else
      LexCompareZeroIff(self.items, other.value.items);
      Ok(self.items == other.value.items)
  }

  /** `diffLevel`: the first of major, minor and update that differs, then the
      build when the builds differ (a missing build differs from a present
      one). Two versions differ at no level exactly when they are equal. */
  function DiffLevelOf(self: Version, other: Version): (level: DiffLevel)
    requires self.Valid() && other.Valid()
    ensures level == MajorDiff <==> self.Major() != other.Major()
    ensures level == MinorDiff <==> self.Major() == other.Major() && self.Minor() != other.Minor()
    ensures level == UpdateDiff <==>
      self.Major() == other.Major() && self.Minor() == other.Minor() && self.Update() != other.Update()
    ensures level == BuildDiff <==>
      self.items[..ItemsMinSize] == other.items[..ItemsMinSize] && self.Build() != other.Build()
    ensures level == NoDiff <==> Equals(self, Some(other)) == Ok(true)
  {
    if self.Major() != other.Major() then MajorDiff
    else if self.Minor() != other.Minor() then MinorDiff
    else if self.Update() != other.Update() then UpdateDiff
    else if (self.Build().Some? && other.Build().Some? && Cmp(self.Build().value, other.Build().value) != EQ)
         || (self.Build().None? && other.Build().Some?)
         || (self.Build().Some? && other.Build().None?)
    then
      assert self.items[..ItemsMinSize] == other.items[..ItemsMinSize];
      BuildDiff
    else
      assert self.Build() == other.Build();
      SamePartsSameItems(self, other);
      NoDiff
  }

  /** Versions that agree on every part, the build included, have the same items. */
  lemma SamePartsSameItems(self: Version, other: Version)
    requires self.Valid() && other.Valid()
    requires self.Major() == other.Major() && self.Minor() == other.Minor()
    requires self.Update() == other.Update() && self.Build() == other.Build()
    ensures self.items == other.items
  {
    assert |self.items| == |other.items|;
    forall i | 0 <= i < |self.items| ensures self.items[i] == other.items[i] {
      assert i == MajorIndex || i == MinorIndex || i == UpdateIndex || i == BuildIndex;
    }
  }

  /** The level at which two versions differ does not depend on their order. */
  lemma DiffLevelSymmetric(self: Version, other: Version)
    requires self.Valid() && other.Valid()
    ensures DiffLevelOf(self, other) == DiffLevelOf(other, self)
  {
  }

  /** The level `diffLevel` names is the one at which `__cmp__` decides: a
      differing part decides the comparison, and so do differing builds. */
  lemma DiffLevelDecidesCompare(self: Version, other: Version)
    requires self.Valid() && other.Valid()
    ensures DiffLevelOf(self, other) == MajorDiff ==> LexCompare(self.items, other.items) == Cmp(self.Major(), other.Major())
    ensures DiffLevelOf(self, other) == MinorDiff ==> LexCompare(self.items, other.items) == Cmp(self.Minor(), other.Minor())
    ensures DiffLevelOf(self, other) == UpdateDiff ==> LexCompare(self.items, other.items) == Cmp(self.Update(), other.Update())
    ensures DiffLevelOf(self, other) == BuildDiff ==> LexCompare(self.items, other.items) == CmpBuild(self.Build(), other.Build())
    ensures DiffLevelOf(self, other) == NoDiff <==> LexCompare(self.items, other.items) == EQ
  {
    var a, b := self.items, other.items;
    if a[0] == b[0] {
      assert a[..1] == b[..1];
      LexCompareAfterCommonPrefix(a, b, 1);
      if a[1] == b[1] {
        assert a[..2] == b[..2];
        LexCompareAfterCommonPrefix(a, b, 2);
        if a[2] == b[2] {
          assert a[..3] == b[..3];
          LexCompareAfterCommonPrefix(a, b, 3);
        }
      }
    }
  }
}
