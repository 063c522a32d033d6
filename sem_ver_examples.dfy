/** The version strings the project's own tests construct and compare, worked
    through the model of the `SemVer` class. */
module SemVerExamples {
  import opened Results
  import opened Strings
  import opened SemVer

  /** When the text is the dot-join of `pieces`, the parse is decided by their digit prefix. */
  lemma ParsedPieces(src: string, pieces: seq<string>)
    requires |pieces| >= 1
    requires forall i :: 0 <= i < |pieces| ==> '.' !in pieces[i]
    requires Join(pieces, '.') == src
    ensures Parsed(Some(src)) == (var items := DigitPrefix(pieces);
      if |items| < ItemsMinSize || |items| > ItemsMaxSize then Fail else Ok(Version(src, items)))
  {
    SplitJoin(pieces, '.');
  }

  /** Texts the constructor rejects. */
  lemma RejectsTrailingDot()
    ensures Parsed(Some("1.2.")).Fail?
  {
    ParsedPieces("1.2.", ["1", "2", ""]);
  }
  lemma RejectsLetter()
    ensures Parsed(Some("1a.2.3")).Fail?
  {
    assert !IsDigit("1a"[1]);
    ParsedPieces("1a.2.3", ["1a", "2", "3"]);
  }
  lemma RejectsMinus()
    ensures Parsed(Some("-1.2.3")).Fail?
  {
    assert !IsDigit("-1"[0]);
    ParsedPieces("-1.2.3", ["-1", "2", "3"]);
  }
  lemma RejectsTrailingLetter()
    ensures Parsed(Some("1.2.3a")).Fail?
  {
    assert !IsDigit("3a"[1]);
    ParsedPieces("1.2.3a", ["1", "2", "3a"]);
  }
  lemma RejectsEmpty()
    ensures Parsed(Some("")).Fail? && Parsed(None).Fail?
  {
  }
  /** A zero build is accepted: the zero-build test never fires. */
  lemma AcceptsZeroBuild()
    ensures Parsed(Some("1.2.3.0")) == Ok(Version("1.2.3.0", [1, 2, 3, 0]))
    ensures Parsed(Some("1.2.3.0")).value.Build() == Some(0)
  {
    var ps := ["1", "2", "3", "0"];
    assert Join(ps[3..], '.') == "0";
    assert Join(ps[2..], '.') == "3.0";
    assert Join(ps[1..], '.') == "2.3.0";
    assert Join(ps, '.') == "1.2.3.0";
    assert DigitsValue("1") == 1 && DigitsValue("2") == 2 && DigitsValue("3") == 3 && DigitsValue("0") == 0;
    DigitPrefixUnique(ps, [1, 2, 3, 0]);
    ParsedPieces("1.2.3.0", ps);
  }
  lemma SuffixTail()
    ensures Join(["6", "blah-blah-yada", "yada"], '.') == "6.blah-blah-yada.yada"
  {
    var ps := ["6", "blah-blah-yada", "yada"];
    assert Join(ps[2..], '.') == "yada";
    assert Join(ps[1..], '.') == "blah-blah-yada.yada";
  }

  lemma SuffixMiddle()
    ensures Join(["345", "6", "blah-blah-yada", "yada"], '.') == "345.6.blah-blah-yada.yada"
  {
    var ps := ["345", "6", "blah-blah-yada", "yada"];
    SuffixTail();
    assert ps[1..] == ["6", "blah-blah-yada", "yada"];
  }

  lemma SuffixPieces()
    ensures Join(["12", "345", "6", "blah-blah-yada", "yada"], '.') == "12.345.6.blah-blah-yada.yada"
  {
    var ps := ["12", "345", "6", "blah-blah-yada", "yada"];
    SuffixMiddle();
    assert ps[1..] == ["345", "6", "blah-blah-yada", "yada"];
  }

  lemma SuffixItems()
    ensures DigitPrefix(["12", "345", "6", "blah-blah-yada", "yada"]) == [12, 345, 6]
  {
    var ps := ["12", "345", "6", "blah-blah-yada", "yada"];
    assert DigitsValue("12") == 12 by { assert "12"[..1] == "1"; }
    assert DigitsValue("345") == 345 by { assert "345"[..2] == "34"; assert "34"[..1] == "3"; }
    assert !IsDigit(ps[3][0]);
    DigitPrefixUnique(ps, [12, 345, 6]);
  }

  /** Everything after the first non-digit piece is ignored. */
  lemma AcceptsSuffix()
    ensures Parsed(Some("12.345.6.blah-blah-yada.yada")) == Ok(Version("12.345.6.blah-blah-yada.yada", [12, 345, 6]))
  {
    SuffixPieces();
    SuffixItems();
    ParsedPieces("12.345.6.blah-blah-yada.yada", ["12", "345", "6", "blah-blah-yada", "yada"]);
  }

  lemma BuildPieces()
    ensures Join(["12", "345", "6", "7"], '.') == "12.345.6.7"
  {
    var ps := ["12", "345", "6", "7"];
    assert Join(ps[3..], '.') == "7";
    assert Join(ps[2..], '.') == "6.7";
    assert Join(ps[1..], '.') == "345.6.7";
  }

  lemma BuildItems()
    ensures DigitPrefix(["12", "345", "6", "7"]) == [12, 345, 6, 7]
  {
    var ps := ["12", "345", "6", "7"];
    assert DigitsValue("12") == 12 by { assert "12"[..1] == "1"; }
    assert DigitsValue("345") == 345 by { assert "345"[..2] == "34"; assert "34"[..1] == "3"; }
    assert DigitsValue("6") == 6 && DigitsValue("7") == 7;
    DigitPrefixUnique(ps, [12, 345, 6, 7]);
  }

  /** A fourth numeric piece is the build. */
  lemma AcceptsBuild()
    ensures Parsed(Some("12.345.6.7")) == Ok(Version("12.345.6.7", [12, 345, 6, 7]))
    ensures var v := Parsed(Some("12.345.6.7")).value;
      v.Major() == 12 && v.Minor() == 345 && v.Update() == 6 && v.Build() == Some(7)
  {
    BuildPieces();
    BuildItems();
    ParsedPieces("12.345.6.7", ["12", "345", "6", "7"]);
  }

  /** The orderings the tests assert, on the items the parse yields. */
  lemma CompareExamples()
    ensures LexCompare([5, 6, 7], [12, 15, 16]) == LT
    ensures LexCompare([5, 6, 7, 8], [5, 6, 7]) == GT
    ensures LexCompare([5, 6, 7], [5, 6, 7, 8]) == LT
    ensures LexCompare([5, 6, 7, 3], [5, 6, 7, 12]) == LT
    ensures LexCompare([5, 6, 7, 8], [5, 6, 7, 8]) == EQ
  {
  }

  /** The difference levels the tests assert. */
  lemma DiffLevelExamples()
    ensures DiffLevelOf(Version("1.2.3", [1, 2, 3]), Version("1.2.3.blah", [1, 2, 3])) == NoDiff
    ensures DiffLevelOf(Version("1.2.3.4", [1, 2, 3, 4]), Version("1.2.3.4.blah", [1, 2, 3, 4])) == NoDiff
    ensures DiffLevelOf(Version("1.2.3", [1, 2, 3]), Version("2.2.3.blah", [2, 2, 3])) == MajorDiff
    ensures DiffLevelOf(Version("1.2.3", [1, 2, 3]), Version("1.4.3.blah", [1, 4, 3])) == MinorDiff
    ensures DiffLevelOf(Version("1.2.3", [1, 2, 3]), Version("1.2.4.blah", [1, 2, 4])) == UpdateDiff
    ensures DiffLevelOf(Version("1.2.3.4", [1, 2, 3, 4]), Version("1.2.3.blah", [1, 2, 3])) == BuildDiff
    ensures DiffLevelOf(Version("1.2.3", [1, 2, 3]), Version("1.2.3.4.blah", [1, 2, 3, 4])) == BuildDiff
    ensures DiffLevelOf(Version("1.2.3.4", [1, 2, 3, 4]), Version("1.2.3.5.blah", [1, 2, 3, 5])) == BuildDiff
  {
  }

  lemma ParsesShort()
    ensures Parsed(Some("5.6.7")) == Ok(Version("5.6.7", [5, 6, 7]))
  {
    var ps := ["5", "6", "7"];
    assert Join(ps[2..], '.') == "7";
    assert Join(ps[1..], '.') == "6.7";
    assert DigitsValue("5") == 5 && DigitsValue("6") == 6 && DigitsValue("7") == 7;
    DigitPrefixUnique(ps, [5, 6, 7]);
    ParsedPieces("5.6.7", ps);
  }

  lemma ParsesLong()
    ensures Parsed(Some("5.6.7.8")) == Ok(Version("5.6.7.8", [5, 6, 7, 8]))
  {
    var ps := ["5", "6", "7", "8"];
    assert Join(ps[3..], '.') == "8";
    assert Join(ps[2..], '.') == "7.8";
    assert Join(ps[1..], '.') == "6.7.8";
    assert DigitsValue("5") == 5 && DigitsValue("6") == 6 && DigitsValue("7") == 7 && DigitsValue("8") == 8;
    DigitPrefixUnique(ps, [5, 6, 7, 8]);
    ParsedPieces("5.6.7.8", ps);
  }

  /** `SemVer('5.6.7') < SemVer('5.6.7.8')`, from the texts: the version
      without a build is the lower one. */
  lemma CompareParsedExample()
    ensures Parsed(Some("5.6.7")).Ok? && Parsed(Some("5.6.7.8")).Ok?
    ensures LexCompare(Parsed(Some("5.6.7")).value.items, Parsed(Some("5.6.7.8")).value.items) == LT
    ensures LexCompare(Parsed(Some("5.6.7.8")).value.items, Parsed(Some("5.6.7")).value.items) == GT
  {
    ParsesShort();
    ParsesLong();
  }

  lemma ParsesWithWord()
    ensures Parsed(Some("1.2.3.blah")) == Ok(Version("1.2.3.blah", [1, 2, 3]))
  {
    var ps := ["1", "2", "3", "blah"];
    assert Join(ps[3..], '.') == "blah";
    assert Join(ps[2..], '.') == "3.blah";
    assert Join(ps[1..], '.') == "2.3.blah";
    assert DigitsValue("1") == 1 && DigitsValue("2") == 2 && DigitsValue("3") == 3;
    assert !IsDigit(ps[3][0]);
    DigitPrefixUnique(ps, [1, 2, 3]);
    ParsedPieces("1.2.3.blah", ps);
  }

  lemma ParsesFour()
    ensures Parsed(Some("1.2.3.4")) == Ok(Version("1.2.3.4", [1, 2, 3, 4]))
  {
    var ps := ["1", "2", "3", "4"];
    assert Join(ps[3..], '.') == "4";
    assert Join(ps[2..], '.') == "3.4";
    assert Join(ps[1..], '.') == "2.3.4";
    assert DigitsValue("1") == 1 && DigitsValue("2") == 2 && DigitsValue("3") == 3 && DigitsValue("4") == 4;
    DigitPrefixUnique(ps, [1, 2, 3, 4]);
    ParsedPieces("1.2.3.4", ps);
  }

  /** `SemVer('1.2.3.4').diffLevel(SemVer('1.2.3.blah')) == BUILD`, from the texts. */
  lemma DiffLevelParsedExample()
    ensures Parsed(Some("1.2.3.4")).Ok? && Parsed(Some("1.2.3.blah")).Ok?
    ensures DiffLevelOf(Parsed(Some("1.2.3.4")).value, Parsed(Some("1.2.3.blah")).value) == BuildDiff
  {
    ParsesFour();
    ParsesWithWord();
  }

  /** `str` of the items the tests use. */
  lemma TestNumerals()
    ensures NatToString(12) == "12" && NatToString(234) == "234"
    ensures NatToString(456) == "456" && NatToString(7890) == "7890"
  {
    assert NatToString(1) == "1" && NatToString(23) == "23" && NatToString(45) == "45";
    assert NatToString(78) == "78" && NatToString(789) == "789";
  }

  lemma TestNumeralsThree()
    ensures Numerals([12, 234, 456]) == ["12", "234", "456"]
  {
    TestNumerals();
  }

  lemma TestNumeralsFour()
    ensures Numerals([12, 234, 456, 7890]) == ["12", "234", "456", "7890"]
  {
    TestNumerals();
  }

  lemma JoinThree()
    ensures Join(["12", "234", "456"], '_') == "12_234_456"
  {
    var ps := ["12", "234", "456"];
    assert Join(ps[2..], '_') == "456";
    assert Join(ps[1..], '_') == "234_456";
  }

  lemma JoinFourTail()
    ensures Join(["234", "456", "7890"], '_') == "234_456_7890"
  {
    var ps := ["234", "456", "7890"];
    assert Join(ps[2..], '_') == "7890";
    assert Join(ps[1..], '_') == "456_7890";
  }

  lemma JoinFour()
    ensures Join(["12", "234", "456", "7890"], '_') == "12_234_456_7890"
  {
    var ps := ["12", "234", "456", "7890"];
    JoinFourTail();
    assert ps[1..] == ["234", "456", "7890"];
  }

  /** The variable names the tests assert. */
  lemma VarNameThree()
    ensures ToVarName(Version("12.234.456", [12, 234, 456])) == "12_234_456"
  {
    TestNumeralsThree();
    JoinThree();
  }

  lemma VarNameFour()
    ensures ToVarName(Version("12.234.456.7890", [12, 234, 456, 7890])) == "12_234_456_7890"
  {
    TestNumeralsFour();
    JoinFour();
  }
}
