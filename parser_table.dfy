/**
 * The literal table of parser/parser_test.go: one lemma per row, each proving that the row
 * passes, that is, that ParseNumber returns a token whose label is the expected one.
 *
 * Each row lemma names its literal in a precondition and cuts it into the pieces ParseNumber
 * splits it into (the text before and after the `.`, `x` or suffix letter, and long digit
 * runs as two chunks); the row then follows from the general lemma of its path. The facts
 * about the digit bodies (shape, cleaned text, range) are proved beside the rows, a few per
 * lemma, from the concatenation laws.
 */
module ParserTable {
  import opened Ascii
  import opened Strings
  import opened Strconv
  import opened Tokens
  import opened Shapes
  import opened Parser
  import opened ParserProperties
  import opened ParserLaws

  /** The comparison the table makes: ParseNumber returns a token with the expected label. */
  predicate Passes(input: string, expected: Token) {
    ParseNumber(input).Ok? && String(ParseNumber(input).token) == String(expected)
  }

  /** Since the labels are distinct, comparing labels is comparing tokens, and a panic fails the row. */
  lemma PassesExactly(input: string, expected: Token)
    ensures Passes(input, expected) <==> ParseNumber(input) == Ok(expected)
  {
    if ParseNumber(input).Ok? {
      StringInjective(ParseNumber(input).token, expected);
    }
  }

  // Numerals and their values.

  lemma Numeral1(a: char)
    requires IsDigit(a)
    ensures IsNumeral([a], 10) && Value([a], 10) == DigitValue(a)
  {
    DigitClasses(a);
    assert [a][..0] == [];
  }

  lemma Numeral2(a: char, b: char)
    requires IsDigit(a) && IsDigit(b)
    ensures IsNumeral([a, b], 10) && Value([a, b], 10) == DigitValue(a) * 10 + DigitValue(b)
  {
    Numeral1(a);
    DigitClasses(b);
    assert [a] + [b] == [a, b];
    ValueSnoc([a], b, 10);
  }

  lemma Numeral3(a: char, b: char, c: char)
    requires IsDigit(a) && IsDigit(b) && IsDigit(c)
    ensures IsNumeral([a, b, c], 10)
    ensures Value([a, b, c], 10) == DigitValue(a) * 100 + DigitValue(b) * 10 + DigitValue(c)
  {
    Numeral2(a, b);
    DigitClasses(c);
    assert [a, b] + [c] == [a, b, c];
    ValueSnoc([a, b], c, 10);
  }

  /** Two numerals written side by side. */
  lemma Joined(a: string, b: string, base: nat, va: nat, vb: nat)
    requires IsNumeral(a, base) && IsNumeral(b, base) && Value(a, base) == va && Value(b, base) == vb
    ensures IsNumeral(a + b, base) && Value(a + b, base) == va * Pow(base, |b|) + vb
  {
    ValueConcat(a, b, base);
  }

  /** ParseUint of a numeral of known value against a known bound. */
  lemma UintRange(s: string, bits: nat, v: nat, bound: nat)
    requires 0 < bits <= 64 && IsNumeral(s, 10) && Value(s, 10) == v && Pow(2, bits) == bound
    ensures IsUintValid(s, bits) <==> v < bound
  {
  }

  /** ParseInt of an unsigned numeral of known value against a known bound. */
  lemma IntRange(s: string, bits: nat, v: nat, bound: nat)
    requires 0 < bits <= 64 && IsNumeral(s, 10) && Value(s, 10) == v && Pow(2, bits - 1) == bound
    ensures IsIntValid(s, bits) <==> v < bound
  {
    DigitClasses(s[0]);
  }

  /** A hex numeral of at most `k` digits, where 16^k is at most 2^bits, passes ParseUint base 16. */
  lemma ShortHex(s: string, k: nat, bits: nat)
    requires 0 < bits <= 64 && IsNumeral(s, 16) && |s| <= k && Pow(16, k) <= Pow(2, bits)
    ensures IsHexValid(s, bits)
  {
    ValueBound(s, 16);
    PowMonotone(16, |s|, k);
  }

  lemma Zeros()
    ensures IsNumeral("000", 10) && Value("000", 10) == 0
  {
    Numeral3('0', '0', '0');
  }

  lemma Value120()
    ensures IsIntValid("120", 8) && IsIntValid("120", 16)
    ensures IsUintValid("120", 8) && IsUintValid("120", 16)
  {
    Numeral3('1', '2', '0');
    Pow2Values();
    IntRange("120", 8, 120, 128);
    IntRange("120", 16, 120, 32768);
    UintRange("120", 8, 120, 256);
    UintRange("120", 16, 120, 65536);
  }

  lemma Value128And129()
    ensures !IsIntValid("128", 8) && !IsIntValid("129", 8)
  {
    Numeral3('1', '2', '8');
    Numeral3('1', '2', '9');
    assert Pow(2, 7) == 128;
    IntRange("128", 8, 128, 128);
    IntRange("129", 8, 129, 128);
  }

  lemma Value32765()
    ensures IsIntValid("32765", 16)
  {
    Numeral2('3', '2');
    Numeral3('7', '6', '5');
    Joined("32", "765", 10, 32, 765);
    assert "32" + "765" == "32765";
    assert Pow(10, 3) == 1000;
    Pow2Values();
    IntRange("32765", 16, 32765, 32768);
  }

  lemma Value32768()
    ensures !IsIntValid("32768", 16)
  {
    Numeral2('3', '2');
    Numeral3('7', '6', '8');
    Joined("32", "768", 10, 32, 768);
    assert "32" + "768" == "32768";
    assert Pow(10, 3) == 1000;
    Pow2Values();
    IntRange("32768", 16, 32768, 32768);
  }

  lemma Value10000()
    ensures IsNumeral("10000", 10) && Value("10000", 10) == 10000
    ensures IsIntValid("10000", 32) && IsIntValid("10000", 64)
  {
    Numeral2('1', '0');
    Zeros();
    Joined("10", "000", 10, 10, 0);
    assert "10" + "000" == "10000";
    assert Pow(10, 3) == 1000;
    Pow2Values();
    IntRange("10000", 32, 10000, 2147483648);
    IntRange("10000", 64, 10000, 9223372036854775808);
  }

  lemma SignedSmall()
    ensures IsIntValid("10", 32) && IsIntValid("1", 32) && IsIntValid("+1", 32) && IsIntValid("-1", 32)
  {
    Numeral2('1', '0');
    Numeral1('1');
    Pow2Values();
    IntRange("10", 32, 10, 2147483648);
    IntRange("1", 32, 1, 2147483648);
    assert "+1"[1..] == "1" && "-1"[1..] == "1";
  }

  lemma UnsignedSmall()
    ensures IsUintValid("254", 8) && !IsUintValid("257", 8) && IsUintValid("100", 64)
  {
    Numeral3('2', '5', '4');
    Numeral3('2', '5', '7');
    Numeral3('1', '0', '0');
    Pow2Values();
    UintRange("254", 8, 254, 256);
    UintRange("257", 8, 257, 256);
    UintRange("100", 64, 100, 18446744073709551616);
  }

  lemma Value65534()
    ensures IsUintValid("65534", 16)
  {
    Numeral2('6', '5');
    Numeral3('5', '3', '4');
    Joined("65", "534", 10, 65, 534);
    assert "65" + "534" == "65534";
    assert Pow(10, 3) == 1000;
    Pow2Values();
    UintRange("65534", 16, 65534, 65536);
  }

  lemma Value65536()
    ensures !IsUintValid("65536", 16)
  {
    Numeral2('6', '5');
    Numeral3('5', '3', '6');
    Joined("65", "536", 10, 65, 536);
    assert "65" + "536" == "65536";
    assert Pow(10, 3) == 1000;
    Pow2Values();
    UintRange("65536", 16, 65536, 65536);
  }

  lemma Value2147()
    ensures IsNumeral("2147", 10) && Value("2147", 10) == 2147
  {
    Numeral2('2', '1');
    Numeral2('4', '7');
    Joined("21", "47", 10, 21, 47);
    assert "21" + "47" == "2147";
    assert Pow(10, 2) == 100;
  }

  lemma Value483643And483648()
    ensures IsNumeral("483643", 10) && Value("483643", 10) == 483643
    ensures IsNumeral("483648", 10) && Value("483648", 10) == 483648
  {
    Numeral3('4', '8', '3');
    Numeral3('6', '4', '3');
    Numeral3('6', '4', '8');
    Joined("483", "643", 10, 483, 643);
    Joined("483", "648", 10, 483, 648);
    assert "483" + "643" == "483643" && "483" + "648" == "483648";
    assert Pow(10, 3) == 1000;
  }

  lemma Value2147483643And2147483648()
    ensures IsIntValid("2147" + "483643", 32) && !IsIntValid("2147" + "483648", 32)
  {
    Value2147();
    Value483643And483648();
    Joined("2147", "483643", 10, 2147, 483643);
    Joined("2147", "483648", 10, 2147, 483648);
    assert Pow(10, 6) == 1000000;
    Pow2Values();
    IntRange("2147" + "483643", 32, 2147483643, 2147483648);
    IntRange("2147" + "483648", 32, 2147483648, 2147483648);
  }

  lemma Value2147483647123123()
    ensures !IsIntValid("2147" + "483647" + "123123", 32)
  {
    var a, b := "2147", "483647" + "123123";
    assert "2147" + "483647" + "123123" == a + b;
    Value2147();
    AllDigitsInConcat("483647", "123123", 10);
    ValueConcat(a, b, 10);
    PowAdd(10, 6, 6);
    assert Pow(10, 6) == 1000000;
    Pow2Values();
    DigitClasses((a + b)[0]);
  }

  lemma Value429496()
    ensures IsNumeral("429496", 10) && Value("429496", 10) == 429496
  {
    Numeral3('4', '2', '9');
    Numeral3('4', '9', '6');
    Joined("429", "496", 10, 429, 496);
    assert "429" + "496" == "429496";
    assert Pow(10, 3) == 1000;
  }

  lemma Value7293And7296()
    ensures IsNumeral("7293", 10) && Value("7293", 10) == 7293
    ensures IsNumeral("7296", 10) && Value("7296", 10) == 7296
  {
    Numeral2('7', '2');
    Numeral2('9', '3');
    Numeral2('9', '6');
    Joined("72", "93", 10, 72, 93);
    Joined("72", "96", 10, 72, 96);
    assert "72" + "93" == "7293" && "72" + "96" == "7296";
    assert Pow(10, 2) == 100;
  }

  lemma Value4294967293And4294967296()
    ensures IsUintValid("429496" + "7293", 32) && !IsUintValid("429496" + "7296", 32)
  {
    Value429496();
    Value7293And7296();
    Joined("429496", "7293", 10, 429496, 7293);
    Joined("429496", "7296", 10, 429496, 7296);
    assert Pow(10, 4) == 10000;
    Pow2Values();
    UintRange("429496" + "7293", 32, 4294967293, 4294967296);
    UintRange("429496" + "7296", 32, 4294967296, 4294967296);
  }

  lemma Value10000000()
    ensures IsUintValid("10000" + "000", 32)
  {
    Value10000();
    Zeros();
    Joined("10000", "000", 10, 10000, 0);
    assert Pow(10, 3) == 1000;
    Pow2Values();
    UintRange("10000" + "000", 32, 10000000, 4294967296);
  }

  lemma Hex123()
    ensures IsHexValid("123", 32)
  {
    assert Pow(16, 3) == 4096;
    Pow2Values();
    ShortHex("123", 3, 32);
  }

  lemma Hex123456()
    ensures IsNumeral("123456", 16) && IsHexValid("123456", 64)
  {
    assert AllDigitsIn("123", 16) && AllDigitsIn("456", 16);
    AllDigitsInConcat("123", "456", 16);
    assert "123" + "456" == "123456";
    assert Pow(16, 7) == 268435456;
    Pow2Values();
    ShortHex("123456", 7, 64);
  }

  /** A letter digit, in either case, in front of 123456. */
  lemma HexLetter123456(c: char)
    requires c == 'a' || c == 'A'
    ensures IsHexValid([c] + "123456", 64)
  {
    Hex123456();
    DigitClasses(c);
    assert AllDigitsIn([c], 16);
    AllDigitsInConcat([c], "123456", 16);
    assert Pow(16, 7) == 268435456;
    Pow2Values();
    ShortHex([c] + "123456", 7, 64);
  }

  /** 4294967293 read in base 16 has ten digits, so it is below 2^64. */
  lemma Hex4294967293Fits()
    ensures IsHexValid("429496" + "7293", 64)
  {
    AllDigitsInConcat("429496", "7293", 16);
    assert Pow(16, 10) == 1099511627776;
    Pow2Values();
    ShortHex("429496" + "7293", 10, 64);
  }

  /** Its leading hex digit 4 puts it at 4 * 16^9 or above, beyond 2^32. */
  lemma Hex4294967293Overflows()
    ensures !IsHexValid("429496" + "7293", 32)
  {
    var a, b := "429496", "7293";
    assert "4" + "29496" == a;
    assert Value("4", 16) == 4 by {
      assert "4"[..0] == [];
    }
    ValueConcat("4", "29496", 16);
    assert Pow(16, 5) == 1048576;
    var va := Value(a, 16);
    assert va >= 4194304;
    ValueConcat(a, b, 16);
    assert Pow(16, 4) == 65536;
    assert Value(a + b, 16) >= va * 65536;
    assert Value(a + b, 16) >= 274877906944;
    assert Pow(2, 32) == 4294967296 by {
      Pow2Values();
    }
  }

  lemma FloatDigits()
    ensures IsFloatValid("5", 32) && IsFloatValid("14", 32) && IsFloatValid("45", 32)
    ensures IsFloatValid("14", 64)
  {
    FloatValidShortNumerals("5");
    FloatValidShortNumerals("14");
    FloatValidShortNumerals("45");
  }

  // Shapes and cleaned texts of the bodies.

  lemma Shapes120()
    ensures IntShape("120") && ClearUnderscores("120") == "120"
    ensures IntShape("1_20") && ClearUnderscores("1_20") == "120"
    ensures IntShape("12_0") && ClearUnderscores("12_0") == "120"
  {
  }

  lemma Shapes1_2_0_()
    ensures IntShape("1_2_0_") && UintShape("1_2_0_") && ClearUnderscores("1_2_0_") == "120"
  {
  }

  lemma ShapesUnsigned()
    ensures UintShape("1_20_") && ClearUnderscores("1_20_") == "120"
    ensures UintShape("254_") && ClearUnderscores("254_") == "254"
    ensures UintShape("257_") && ClearUnderscores("257_") == "257"
  {
  }

  lemma Shapes3276x()
    ensures IntShape("32765") && ClearUnderscores("32765") == "32765"
    ensures IntShape("32768") && ClearUnderscores("32768") == "32768"
  {
  }

  lemma Shapes6553x()
    ensures UintShape("65534") && ClearUnderscores("65534") == "65534"
    ensures UintShape("65536") && ClearUnderscores("65536") == "65536"
  {
  }

  lemma ShapesSmall()
    ensures IntShape("1") && ClearUnderscores("1") == "1"
    ensures IntShape("+1") && ClearUnderscores("+1") == "+1"
    ensures IntShape("-1") && ClearUnderscores("-1") == "-1"
    ensures IntShape("10_") && ClearUnderscores("10_") == "10"
    ensures IntShape("128") && ClearUnderscores("128") == "128"
    ensures IntShape("129") && ClearUnderscores("129") == "129"
    ensures UintShape("10_0") && ClearUnderscores("10_0") == "100"
  {
  }

  lemma Shape10_000()
    ensures IntShape("10_000") && ClearUnderscores("10_000") == "10000"
  {
  }

  /** Two chunks free of `_` and of every delimiter and suffix letter: cleaning leaves them as they are. */
  lemma NoMarks(a: string, b: string)
    requires NoneOf(a, "_.xXiu") && NoneOf(b, "_.xXiu")
    ensures NoneOf(a + b, "_.xXiu") && NoneOf(a + b, ".xXiu") && ClearUnderscores(a + b) == a + b
  {
    NoneOfConcat(a, b, "_.xXiu");
    var s := a + b;
    assert forall i :: 0 <= i < |s| ==> s[i] != '_';
    ClearUnderscoresLaws(s);
  }

  /** A run of digits, written as two chunks, of the signed shape and with nothing to clear. */
  lemma PlainDigits(a: string, b: string)
    requires IntShape(a) && UintShape(b) && NoneOf(a, "_.xXiu") && NoneOf(b, "_.xXiu")
    ensures IntShape(a + b) && ClearUnderscores(a + b) == a + b && NoneOf(a + b, ".xXiu")
  {
    IntShapeConcat(a, b);
    NoMarks(a, b);
  }

  lemma Chunk2147()
    ensures IntShape("2147") && NoneOf("2147", "_.xXiu")
  {
  }

  lemma Chunk483643()
    ensures UintShape("483643") && NoneOf("483643", "_.xXiu")
  {
  }

  lemma Chunk483648()
    ensures UintShape("483648") && NoneOf("483648", "_.xXiu")
  {
  }

  lemma Chunks429496And7296()
    ensures NoneOf("429496", "_.xXiu") && NoneOf("7296", "_.xXiu")
  {
  }

  lemma Chunks483647And123123()
    ensures NoneOf("483647", "_.xXiu") && NoneOf("123123", "_.xXiu")
  {
  }

  lemma Shape10_000_000()
    ensures UintShape("10_000_" + "000") && NoneOf("10_000_" + "000", ".xXiu")
  {
    assert UintShape("10_000_") && UintShape("000");
    UintShapeConcat("10_000_", "000");
    NoneOfConcat("10_000_", "000", ".xXiu");
  }

  lemma Clear10_000_000()
    ensures ClearUnderscores("10_000_" + "000") == "10000" + "000"
  {
    ClearUnderscoresConcat("10_000_", "000");
    assert ClearUnderscores("10_000_") == "10000" && ClearUnderscores("000") == "000";
  }

  lemma Shape429496_7293()
    ensures UintShape("429496_" + "7293") && HexShape("429496_" + "7293")
  {
    assert UintShape("429496_") && UintShape("7293");
    UintShapeConcat("429496_", "7293");
    UintShapeIsFloatAndHex("429496_" + "7293");
  }

  lemma Clear429496_7293()
    ensures ClearUnderscores("429496_" + "7293") == "429496" + "7293"
  {
    ClearUnderscoresConcat("429496_", "7293");
    assert ClearUnderscores("429496_") == "429496";
    assert ClearUnderscores("7293") == "7293";
  }

  lemma Marks429496_7293()
    ensures NoneOf("429496_" + "7293", ".xXiuU")
  {
    NoneOfConcat("429496_", "7293", ".xXiuU");
  }

  lemma ShapeHex123()
    ensures HexShape("123") && ClearUnderscores("123") == "123"
  {
  }

  lemma ShapeHex1_23()
    ensures HexShape("1_23") && ClearUnderscores("1_23") == "123"
  {
  }

  lemma ShapeHex123_456()
    ensures HexShape("123_456") && ClearUnderscores("123_456") == "123456"
  {
  }

  /** A letter digit in front of 123_456: still hex-shaped, and cleaned to the letter and 123456. */
  lemma MarksHexLetter(c: char)
    requires c == 'a' || c == 'A'
    ensures NoneOf([c] + "123_456", ".xXuU")
  {
    assert NoneOf("123_456", ".xXuU");
    NoneOfConcat([c], "123_456", ".xXuU");
  }

  lemma ShapeHexLetter(c: char)
    requires c == 'a' || c == 'A'
    ensures HexShape([c] + "123_456") && ClearUnderscores([c] + "123_456") == [c] + "123456"
  {
    ShapeHex123_456();
    assert HexShape([c]) by {
      assert [c][1..] == [];
    }
    HexShapeConcat([c], "123_456");
    ClearUnderscoresConcat([c], "123_456");
    assert ClearUnderscores([c]) == [c];
  }

  lemma ShapesFloat()
    ensures UintShape("") && UintShape("0") && UintShape("3") && UintShape("4") && UintShape("60_1")
    ensures FloatShape("5") && ClearUnderscores("5") == "5"
    ensures FloatShape("14") && ClearUnderscores("14") == "14"
    ensures FloatShape("_14") && ClearUnderscores("_14") == "14"
    ensures FloatShape("45") && ClearUnderscores("45") == "45"
  {
  }

  lemma Digits2147483643()
    ensures IntShape("2147" + "483643") && NoneOf("2147" + "483643", ".xXiu")
    ensures ClearUnderscores("2147" + "483643") == "2147" + "483643"
  {
    Chunk2147();
    Chunk483643();
    PlainDigits("2147", "483643");
  }

  lemma Digits2147483648()
    ensures IntShape("2147" + "483648") && NoneOf("2147" + "483648", ".xXiu")
    ensures ClearUnderscores("2147" + "483648") == "2147" + "483648"
  {
    Chunk2147();
    Chunk483648();
    PlainDigits("2147", "483648");
  }

  lemma Digits2147483647123123()
    ensures NoneOf("2147" + "483647" + "123123", ".xXiu")
    ensures ClearUnderscores("2147" + "483647" + "123123") == "2147" + "483647" + "123123"
  {
    Chunk2147();
    Chunks483647And123123();
    NoMarks("2147", "483647");
    NoMarks("2147" + "483647", "123123");
  }

  lemma Digits4294967296()
    ensures NoneOf("429496" + "7296", ".xXiu")
    ensures ClearUnderscores("429496" + "7296") == "429496" + "7296"
  {
    Chunks429496And7296();
    NoMarks("429496", "7296");
  }

  /** Bodies that no shape admits. */
  lemma BrokenShapes()
    ensures !HexShape("s123_456") && !IntShape("10_I32") && !IntShape("1_2__0_")
    ensures !IntShape("_1") && !UintShape("-3") && !UintShape("_3") && !UintShape("_")
    ensures !UintShape("-1_20_") && !FloatShape("14F64")
  {
  }

  // Int8 and Int16 (parser_test.go lines 13-19).

  lemma Row13(input: string)
    requires input == "120i8"
    ensures Passes(input, Int8)
  {
    assert input == "120" + "i" + "8";
    SignedSuffixed("120", "8");
    Shapes120();
    Value120();
    PassesExactly(input, Int8);
  }

  lemma Row14(input: string)
    requires input == "1_20i8"
    ensures Passes(input, Int8)
  {
    assert input == "1_20" + "i" + "8";
    SignedSuffixed("1_20", "8");
    Shapes120();
    Value120();
    PassesExactly(input, Int8);
  }

  /** A `_` just before the suffix letter is accepted. */
  lemma Row15(input: string)
    requires input == "1_2_0_i8"
    ensures Passes(input, Int8)
  {
    assert input == "1_2_0_" + "i" + "8";
    SignedSuffixed("1_2_0_", "8");
    Shapes1_2_0_();
    Value120();
    PassesExactly(input, Int8);
  }

  lemma Row17(input: string)
    requires input == "120i16"
    ensures Passes(input, Int16)
  {
    assert input == "120" + "i" + "16";
    SignedSuffixed("120", "16");
    Shapes120();
    Value120();
    PassesExactly(input, Int16);
  }

  lemma Row18(input: string)
    requires input == "12_0i16"
    ensures Passes(input, Int16)
  {
    assert input == "12_0" + "i" + "16";
    SignedSuffixed("12_0", "16");
    Shapes120();
    Value120();
    PassesExactly(input, Int16);
  }

  lemma Row19(input: string)
    requires input == "32765i16"
    ensures Passes(input, Int16)
  {
    assert input == "32765" + "i" + "16";
    SignedSuffixed("32765", "16");
    Shapes3276x();
    Value32765();
    PassesExactly(input, Int16);
  }

  // Int32 and Int64 (lines 21-32).

  lemma Row21(input: string)
    requires input == "1"
    ensures Passes(input, Int32)
  {
    DecimalDefault(input);
    ShapesSmall();
    SignedSmall();
    PassesExactly(input, Int32);
  }

  lemma Row22(input: string)
    requires input == "+1"
    ensures Passes(input, Int32)
  {
    DecimalDefault(input);
    ShapesSmall();
    SignedSmall();
    PassesExactly(input, Int32);
  }

  lemma Row23(input: string)
    requires input == "-1"
    ensures Passes(input, Int32)
  {
    DecimalDefault(input);
    ShapesSmall();
    SignedSmall();
    PassesExactly(input, Int32);
  }

  lemma Row24(input: string)
    requires input == "2147483643"
    ensures Passes(input, Int32)
  {
    assert input == "2147" + "483643";
    DecimalDefault(input);
    Digits2147483643();
    Value2147483643And2147483648();
    PassesExactly(input, Int32);
  }

  lemma Row25(input: string)
    requires input == "10_000"
    ensures Passes(input, Int32)
  {
    DecimalDefault(input);
    Shape10_000();
    Value10000();
    PassesExactly(input, Int32);
  }

  lemma Row26(input: string)
    requires input == "10_000i32"
    ensures Passes(input, Int32)
  {
    assert input == "10_000" + "i" + "32";
    SignedSuffixed("10_000", "32");
    Shape10_000();
    Value10000();
    PassesExactly(input, Int32);
  }

  /** Without a suffix a hex literal is Int32 when it is below 2^32. */
  lemma Row27(input: string)
    requires input == "0x123"
    ensures Passes(input, Int32)
  {
    assert input == "0" + ['x'] + "123";
    HexDefault('x', "123");
    ShapeHex123();
    Hex123();
    PassesExactly(input, Int32);
  }

  /** The hex marker may be upper case. */
  lemma Row28(input: string)
    requires input == "0X123"
    ensures Passes(input, Int32)
  {
    assert input == "0" + ['X'] + "123";
    HexDefault('X', "123");
    ShapeHex123();
    Hex123();
    PassesExactly(input, Int32);
  }

  lemma Row29(input: string)
    requires input == "10_i32"
    ensures Passes(input, Int32)
  {
    assert input == "10_" + "i" + "32";
    SignedSuffixed("10_", "32");
    ShapesSmall();
    SignedSmall();
    PassesExactly(input, Int32);
  }

  lemma Row30(input: string)
    requires input == "0x1_23"
    ensures Passes(input, Int32)
  {
    assert input == "0" + ['x'] + "1_23";
    HexDefault('x', "1_23");
    ShapeHex1_23();
    Hex123();
    PassesExactly(input, Int32);
  }

  lemma Row32(input: string)
    requires input == "10_000i64"
    ensures Passes(input, Int64)
  {
    assert input == "10_000" + "i" + "64";
    SignedSuffixed("10_000", "64");
    Shape10_000();
    Value10000();
    PassesExactly(input, Int64);
  }

  // Uint8 to Uint64 (lines 34-50).

  lemma Row34(input: string)
    requires input == "1_20_u8"
    ensures Passes(input, Uint8)
  {
    assert input == "1_20_" + "u" + "8";
    UnsignedSuffixed("1_20_", "8");
    ShapesUnsigned();
    Value120();
    PassesExactly(input, Uint8);
  }

  lemma Row35(input: string)
    requires input == "1_2_0_u8"
    ensures Passes(input, Uint8)
  {
    assert input == "1_2_0_" + "u" + "8";
    UnsignedSuffixed("1_2_0_", "8");
    Shapes1_2_0_();
    Value120();
    PassesExactly(input, Uint8);
  }

  lemma Row36(input: string)
    requires input == "254_u8"
    ensures Passes(input, Uint8)
  {
    assert input == "254_" + "u" + "8";
    UnsignedSuffixed("254_", "8");
    ShapesUnsigned();
    UnsignedSmall();
    PassesExactly(input, Uint8);
  }

  /** Lines 38 and 39 are the same row. */
  lemma Row38(input: string)
    requires input == "1_2_0_u16"
    ensures Passes(input, Uint16)
  {
    assert input == "1_2_0_" + "u" + "16";
    UnsignedSuffixed("1_2_0_", "16");
    Shapes1_2_0_();
    Value120();
    PassesExactly(input, Uint16);
  }

  lemma Row40(input: string)
    requires input == "65534u16"
    ensures Passes(input, Uint16)
  {
    assert input == "65534" + "u" + "16";
    UnsignedSuffixed("65534", "16");
    Shapes6553x();
    Value65534();
    PassesExactly(input, Uint16);
  }

  lemma Row42(input: string)
    requires input == "10_000_000u32"
    ensures Passes(input, Uint32)
  {
    assert input == "10_000_" + "000" + "u" + "32";
    UnsignedSuffixed("10_000_" + "000", "32");
    NoneOfConcat("10_000_", "000", ".xXiu");
    Shape10_000_000();
    Clear10_000_000();
    Value10000000();
    PassesExactly(input, Uint32);
  }

  /** 4294967293 is just below 2^32. */
  lemma Row43(input: string)
    requires input == "429496_7293u32"
    ensures Passes(input, Uint32)
  {
    assert input == "429496_" + "7293" + "u" + "32";
    UnsignedSuffixed("429496_" + "7293", "32");
    Marks429496_7293();
    Shape429496_7293();
    Clear429496_7293();
    Value4294967293And4294967296();
    PassesExactly(input, Uint32);
  }

  lemma Row45(input: string)
    requires input == "10_0u64"
    ensures Passes(input, Uint64)
  {
    assert input == "10_0" + "u" + "64";
    UnsignedSuffixed("10_0", "64");
    ShapesSmall();
    UnsignedSmall();
    PassesExactly(input, Uint64);
  }

  lemma Row46(input: string)
    requires input == "0x123_456u64"
    ensures Passes(input, Uint64)
  {
    assert input == "0" + ['x'] + "123_456" + ['u'] + "64";
    HexSuffixed('x', "123_456", 'u', "64");
    ShapeHex123_456();
    Hex123456();
    PassesExactly(input, Uint64);
  }

  lemma Row47(input: string)
    requires input == "0xa123_456u64"
    ensures Passes(input, Uint64)
  {
    assert input == "0" + ['x'] + (['a'] + "123_456") + ['u'] + "64";
    HexSuffixed('x', ['a'] + "123_456", 'u', "64");
    MarksHexLetter('a');
    ShapeHexLetter('a');
    HexLetter123456('a');
    PassesExactly(input, Uint64);
  }

  /** Hex digits may be upper case. */
  lemma Row48(input: string)
    requires input == "0xA123_456u64"
    ensures Passes(input, Uint64)
  {
    assert input == "0" + ['x'] + (['A'] + "123_456") + ['u'] + "64";
    HexSuffixed('x', ['A'] + "123_456", 'u', "64");
    MarksHexLetter('A');
    ShapeHexLetter('A');
    HexLetter123456('A');
    PassesExactly(input, Uint64);
  }

  /** Lines 49 and 50 are the same row. */
  lemma Row49(input: string)
    requires input == "0x429496_7293u64"
    ensures Passes(input, Uint64)
  {
    assert input == "0" + ['x'] + ("429496_" + "7293") + ['u'] + "64";
    HexSuffixed('x', ("429496_" + "7293"), 'u', "64");
    Marks429496_7293();
    Shape429496_7293();
    Clear429496_7293();
    Hex4294967293Fits();
    PassesExactly(input, Uint64);
  }

  // Float32 and Float64 (lines 52-58).

  lemma Row52(input: string)
    requires input == "4.5f32"
    ensures Passes(input, Float32)
  {
    assert input == "4" + "." + "5" + "f" + "32";
    FloatSuffixed("4", "5", "32");
    ShapesFloat();
    FloatDigits();
    PassesExactly(input, Float32);
  }

  /** The mantissa may be empty. */
  lemma Row53(input: string)
    requires input == ".14"
    ensures Passes(input, Float32)
  {
    assert input == "" + "." + "14";
    FloatDefault("", "14");
    ShapesFloat();
    FloatDigits();
    PassesExactly(input, Float32);
  }

  /** The fraction may start with `_`. */
  lemma Row54(input: string)
    requires input == "._14"
    ensures Passes(input, Float32)
  {
    assert input == "" + "." + "_14";
    FloatDefault("", "_14");
    ShapesFloat();
    FloatDigits();
    PassesExactly(input, Float32);
  }

  lemma Row55(input: string)
    requires input == "0._14"
    ensures Passes(input, Float32)
  {
    assert input == "0" + "." + "_14";
    FloatDefault("0", "_14");
    ShapesFloat();
    FloatDigits();
    PassesExactly(input, Float32);
  }

  lemma Row56(input: string)
    requires input == "60_1.45"
    ensures Passes(input, Float32)
  {
    assert input == "60_1" + "." + "45";
    FloatDefault("60_1", "45");
    ShapesFloat();
    FloatDigits();
    PassesExactly(input, Float32);
  }

  lemma Row58(input: string)
    requires input == "3.14f64"
    ensures Passes(input, Float64)
  {
    assert input == "3" + "." + "14" + "f" + "64";
    FloatSuffixed("3", "14", "64");
    ShapesFloat();
    FloatDigits();
    PassesExactly(input, Float64);
  }

  // Invalid (lines 60-89).

  /** The `i` of a word makes it a signed literal whose width text is not a width. */
  lemma Row60(input: string)
    requires input == "binalyze"
    ensures Passes(input, Invalid)
  {
    assert input == "b" + "i" + "nalyze";
    SignedSuffixed("b", "nalyze");
    PassesExactly(input, Invalid);
  }

  /** A trailing `_` without a suffix. */
  lemma Row61(input: string)
    requires input == "-_10_"
    ensures Passes(input, Invalid)
  {
    DecimalDefault(input);
    PassesExactly(input, Invalid);
  }

  lemma Row62(input: string)
    requires input == "10_"
    ensures Passes(input, Invalid)
  {
    DecimalDefault(input);
    PassesExactly(input, Invalid);
  }

  /** The width text must be exactly the width. */
  lemma Row63(input: string)
    requires input == "10i_32"
    ensures Passes(input, Invalid)
  {
    assert input == "10" + "i" + "_32";
    SignedSuffixed("10", "_32");
    PassesExactly(input, Invalid);
  }

  /** A leading `_` breaks the signed shape. */
  lemma Row64(input: string)
    requires input == "_1"
    ensures Passes(input, Invalid)
  {
    DecimalDefault(input);
    BrokenShapes();
    PassesExactly(input, Invalid);
  }

  lemma Row65(input: string)
    requires input == "1_u64_"
    ensures Passes(input, Invalid)
  {
    assert input == "1_" + "u" + "64_";
    UnsignedSuffixed("1_", "64_");
    PassesExactly(input, Invalid);
  }

  lemma Row66(input: string)
    requires input == "129i8"
    ensures Passes(input, Invalid)
  {
    assert input == "129" + "i" + "8";
    SignedSuffixed("129", "8");
    ShapesSmall();
    Value128And129();
    PassesExactly(input, Invalid);
  }

  lemma Row67(input: string)
    requires input == "32768i16"
    ensures Passes(input, Invalid)
  {
    assert input == "32768" + "i" + "16";
    SignedSuffixed("32768", "16");
    Shapes3276x();
    Value32768();
    PassesExactly(input, Invalid);
  }

  lemma Row68(input: string)
    requires input == "257_u8"
    ensures Passes(input, Invalid)
  {
    assert input == "257_" + "u" + "8";
    UnsignedSuffixed("257_", "8");
    ShapesUnsigned();
    UnsignedSmall();
    PassesExactly(input, Invalid);
  }

  lemma Row69(input: string)
    requires input == "65536u16"
    ensures Passes(input, Invalid)
  {
    assert input == "65536" + "u" + "16";
    UnsignedSuffixed("65536", "16");
    Shapes6553x();
    Value65536();
    PassesExactly(input, Invalid);
  }

  /** 2^31 is one past the largest Int32. */
  lemma Row70(input: string)
    requires input == "2147483648"
    ensures Passes(input, Invalid)
  {
    assert input == "2147" + "483648";
    DecimalDefault(input);
    Digits2147483648();
    Value2147483643And2147483648();
    PassesExactly(input, Invalid);
  }

  lemma Row71(input: string)
    requires input == "2147483647123123"
    ensures Passes(input, Invalid)
  {
    assert input == "2147" + "483647" + "123123";
    DecimalDefault(input);
    Digits2147483647123123();
    Value2147483647123123();
    PassesExactly(input, Invalid);
  }

  /** 2^32 is one past the largest Uint32. */
  lemma Row72(input: string)
    requires input == "4294967296u32"
    ensures Passes(input, Invalid)
  {
    assert input == "429496" + "7296" + "u" + "32";
    UnsignedSuffixed("429496" + "7296", "32");
    Digits4294967296();
    Value4294967293And4294967296();
    PassesExactly(input, Invalid);
  }

  /** A float mantissa has no sign; lines 73 and 84 are the same row. */
  lemma Row73(input: string)
    requires input == "-3.14f64"
    ensures Passes(input, Invalid)
  {
    assert input == "-3" + "." + "14" + "f" + "64";
    FloatSuffixed("-3", "14", "64");
    BrokenShapes();
    PassesExactly(input, Invalid);
  }

  /** Only `0` may precede the hex marker. */
  lemma Row74(input: string)
    requires input == "-0x123_456u64"
    ensures Passes(input, Invalid)
  {
    assert input == "-0" + ['x'] + "123_456u64";
    HexWrongPrefix("-0", 'x', "123_456u64");
    PassesExactly(input, Invalid);
  }

  lemma Row75(input: string)
    requires input == "0xs123_456u64"
    ensures Passes(input, Invalid)
  {
    assert input == "0" + ['x'] + "s123_456" + ['u'] + "64";
    HexSuffixed('x', "s123_456", 'u', "64");
    BrokenShapes();
    PassesExactly(input, Invalid);
  }

  lemma Row76(input: string)
    requires input == "0x123_"
    ensures Passes(input, Invalid)
  {
    assert input == "0" + ['x'] + "123_";
    HexDefault('x', "123_");
    PassesExactly(input, Invalid);
  }

  /** Ten hex digits do not fit 32 bits. */
  lemma Row77(input: string)
    requires input == "0x429496_7293u32"
    ensures Passes(input, Invalid)
  {
    assert input == "0" + ['x'] + ("429496_" + "7293") + ['u'] + "32";
    HexSuffixed('x', ("429496_" + "7293"), 'u', "32");
    Marks429496_7293();
    Clear429496_7293();
    Hex4294967293Overflows();
    PassesExactly(input, Invalid);
  }

  lemma Row78(input: string)
    requires input == "-0x429496_7293u64"
    ensures Passes(input, Invalid)
  {
    assert input == "-0" + ['x'] + "429496_7293u64";
    HexWrongPrefix("-0", 'x', "429496_7293u64");
    PassesExactly(input, Invalid);
  }

  /** The decimal path keeps the case, and `I` is not a suffix letter. */
  lemma Row79(input: string)
    requires input == "10_I32"
    ensures Passes(input, Invalid)
  {
    DecimalDefault(input);
    BrokenShapes();
    PassesExactly(input, Invalid);
  }

  lemma Row80(input: string)
    requires input == "0x1_23_"
    ensures Passes(input, Invalid)
  {
    assert input == "0" + ['x'] + "1_23_";
    HexDefault('x', "1_23_");
    PassesExactly(input, Invalid);
  }

  lemma Row81(input: string)
    requires input == "_0x1_23_"
    ensures Passes(input, Invalid)
  {
    assert input == "_0" + ['x'] + "1_23_";
    HexWrongPrefix("_0", 'x', "1_23_");
    PassesExactly(input, Invalid);
  }

  lemma Row82(input: string)
    requires input == "0x_1_23_"
    ensures Passes(input, Invalid)
  {
    assert input == "0" + ['x'] + "_1_23_";
    HexDefault('x', "_1_23_");
    PassesExactly(input, Invalid);
  }

  /** The float path keeps the case, and `F` is not the suffix letter. */
  lemma Row83(input: string)
    requires input == "3.14F64"
    ensures Passes(input, Invalid)
  {
    assert input == "3" + "." + "14F64";
    FloatDefault("3", "14F64");
    BrokenShapes();
    ShapesFloat();
    PassesExactly(input, Invalid);
  }

  lemma Row85(input: string)
    requires input == "_3.14f64"
    ensures Passes(input, Invalid)
  {
    assert input == "_3" + "." + "14" + "f" + "64";
    FloatSuffixed("_3", "14", "64");
    BrokenShapes();
    PassesExactly(input, Invalid);
  }

  lemma Row86(input: string)
    requires input == "_.14"
    ensures Passes(input, Invalid)
  {
    assert input == "_" + "." + "14";
    FloatDefault("_", "14");
    BrokenShapes();
    PassesExactly(input, Invalid);
  }

  /** An unsigned literal has no sign. */
  lemma Row87(input: string)
    requires input == "-1_20_u8"
    ensures Passes(input, Invalid)
  {
    assert input == "-1_20_" + "u" + "8";
    UnsignedSuffixed("-1_20_", "8");
    BrokenShapes();
    PassesExactly(input, Invalid);
  }

  /** Two underscores in a row break the signed shape. */
  lemma Row88(input: string)
    requires input == "1_2__0_i8"
    ensures Passes(input, Invalid)
  {
    assert input == "1_2__0_" + "i" + "8";
    SignedSuffixed("1_2__0_", "8");
    BrokenShapes();
    PassesExactly(input, Invalid);
  }

  /** 2^7 is one past the largest Int8. */
  lemma Row89(input: string)
    requires input == "128i8"
    ensures Passes(input, Invalid)
  {
    assert input == "128" + "i" + "8";
    SignedSuffixed("128", "8");
    ShapesSmall();
    Value128And129();
    PassesExactly(input, Invalid);
  }
}
