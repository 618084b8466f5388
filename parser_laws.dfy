/**
 * Laws of ParseNumber over all inputs: exactly which texts panic, what duplicated delimiters
 * and stray characters do, that the hex path ignores case, and what the classifier says about
 * integers printed in decimal.
 */
module ParserLaws {
  import opened Ascii
  import opened Strings
  import opened Strconv
  import opened Tokens
  import opened Shapes
  import opened Parser
  import opened ParserProperties

  /** Split into two pieces puts the separator between them. */
  lemma TwoPieces(s: string, c: char)
    requires |Split(s, c)| == 2
    ensures s == Split(s, c)[0] + [c] + Split(s, c)[1]
  {
    SplitJoin(s, c);
  }

  /** The float path panics exactly on an unsigned-shaped mantissa followed by a final `.`. */
  lemma FloatPathPanics(s: string)
    requires '.' in s
    ensures ParseFloat(s) == Panic <==> s[|s| - 1] == '.' && UintShape(s[..|s| - 1])
  {
    var parts := Split(s, '.');
    if |parts| == 2 {
      var a, b := parts[0], parts[1];
      TwoPieces(s, '.');
      FloatBodyPanics(b);
      if b == "" {
        assert s[..|s| - 1] == a;
      } else {
        assert s[|s| - 1] == b[|b| - 1];
        assert b[|b| - 1] in b;
      }
    } else if s[|s| - 1] == '.' && UintShape(s[..|s| - 1]) {
      var pre := s[..|s| - 1];
      assert s == pre + ['.'];
      CountConcat(pre, ['.'], '.');
      ForeignCharBreaksShapes(pre, '.');
    }
  }

  /** The hex path panics exactly on "0x". */
  lemma HexPathPanics(l: string)
    ensures ParseHex(l) == Panic <==> l == "0x"
  {
    var parts := Split(l, 'x');
    if |parts| == 2 && parts[0] == "0" {
      TwoPieces(l, 'x');
      HexBodyPanics(parts[1]);
      assert l == "0" + ['x'] + parts[1];
    }
    if l == "0x" {
      SplitOnce("0", "", 'x');
      assert "0" + ['x'] + "" == l;
    }
  }

  /**
   * ParseNumber panics on "", "0x", "0X" and on an unsigned-shaped mantissa followed by a
   * final `.` (such as "." and "5."), and on nothing else.
   */
  lemma PanicExactly(s: string)
    ensures ParseNumber(s) == Panic <==>
      s == "" || s == "0x" || s == "0X" || (|s| > 0 && s[|s| - 1] == '.' && UintShape(s[..|s| - 1]))
  {
    Routing(s);
    if |s| > 0 {
      assert s[|s| - 1] in s;
    }
    if '.' in s {
      FloatPathPanics(s);
    } else if 'x' in s || 'X' in s {
      HexPathPanics(ToLower(s));
      LowerIsHexPrefix(s);
    } else {
      IntBodyPanics(s);
    }
  }

  // Duplicated delimiters.

  lemma TooManyDots(s: string)
    requires Count(s, '.') > 1
    ensures ParseNumber(s) == Ok(Invalid)
  {
  }

  lemma TooManyXs(s: string)
    requires '.' !in s && Count(ToLower(s), 'x') > 1
    ensures ParseNumber(s) == Ok(Invalid)
  {
    LowerHasX(s);
  }

  lemma TooManyFloatSuffixes(s: string)
    requires Count(s, '.') == 1 && Count(s, 'f') > 1
    ensures ParseNumber(s) == Ok(Invalid)
  {
    var parts := Split(s, '.');
    var a, b := parts[0], parts[1];
    TwoPieces(s, '.');
    CountConcat(a + ['.'], b, 'f');
    CountConcat(a, ['.'], 'f');
    if 'f' in a {
      ForeignCharBreaksShapes(a, 'f');
    }
  }

  lemma TooManyHexSuffixes(s: string)
    requires '.' !in s && Count(ToLower(s), 'x') == 1 && Count(ToLower(s), 'u') > 1
    ensures ParseNumber(s) == Ok(Invalid)
  {
    var l := ToLower(s);
    LowerHasX(s);
    var parts := Split(l, 'x');
    var a, b := parts[0], parts[1];
    TwoPieces(l, 'x');
    CountConcat(a + ['x'], b, 'u');
    CountConcat(a, ['x'], 'u');
    if a == "0" {
      assert Count(b, 'u') > 1;
    }
  }

  lemma TooManySignedSuffixes(s: string)
    requires NoneOf(s, ".xX") && Count(s, 'i') > 1
    ensures ParseNumber(s) == Ok(Invalid)
  {
    assert '.' !in s && 'x' !in s && 'X' !in s;
    Routing(s);
  }

  lemma TooManyUnsignedSuffixes(s: string)
    requires NoneOf(s, ".xXi") && Count(s, 'u') > 1
    ensures ParseNumber(s) == Ok(Invalid)
  {
    assert '.' !in s && 'x' !in s && 'X' !in s && 'i' !in s;
    Routing(s);
  }

  // Stray characters.

  /**
   * On the float path a character that is no digit, no `_`, no `.` and no `f` makes the
   * literal Invalid wherever it stands: a sign, an `x` (so `.` beats `x`), an upper-case `F`.
   */
  lemma StrayCharInFloat(s: string, c: char)
    requires '.' in s && c in s
    requires !IsDigit(c) && c != '_' && c != '.' && c != 'f'
    ensures ParseNumber(s) == Ok(Invalid)
  {
    Routing(s);
    var parts := Split(s, '.');
    if |parts| == 2 {
      var a, b := parts[0], parts[1];
      TwoPieces(s, '.');
      if c in a {
        ForeignCharBreaksShapes(a, c);
      } else {
        StrayCharInFraction(b, c);
      }
    }
  }

  /** The same for the text after the `.`: GetFloat rejects it. */
  lemma StrayCharInFraction(b: string, c: char)
    requires c in b
    requires !IsDigit(c) && c != '_' && c != '.' && c != 'f'
    ensures GetFloat(b) == Ok(Invalid)
  {
    if 'f' in b {
      var fparts := Split(b, 'f');
      if |fparts| == 2 {
        var fr, w := fparts[0], fparts[1];
        TwoPieces(b, 'f');
        if c in fr {
          ForeignCharBreaksShapes(fr, c);
        } else {
          assert c in w;
          assert c !in "32" && c !in "64";
        }
      }
    } else {
      ForeignCharBreaksShapes(b, c);
    }
  }

  /** A literal with both `.` and an `x` of either case is Invalid. */
  lemma DotWithHexMarker(s: string)
    requires '.' in s && ('x' in s || 'X' in s)
    ensures ParseNumber(s) == Ok(Invalid)
  {
    if 'x' in s {
      StrayCharInFloat(s, 'x');
    } else {
      StrayCharInFloat(s, 'X');
    }
  }

  /** On the decimal path without suffix letters, any character other than digits, `_` and signs makes the literal Invalid (`10_I32`). */
  lemma StrayCharInDecimal(s: string, c: char)
    requires NoneOf(s, ".xXiu") && c in s
    requires !IsDigit(c) && c != '_' && c != '+' && c != '-'
    ensures ParseNumber(s) == Ok(Invalid)
  {
    DecimalDefault(s);
    ForeignCharBreaksShapes(s, c);
  }

  /** The hex path decides on the lower-cased text, so a hex literal and its lower-cased form agree. */
  lemma HexCaseInsensitive(s: string)
    requires '.' !in s && ('x' in s || 'X' in s)
    ensures ParseNumber(ToLower(s)) == ParseNumber(s)
  {
    Routing(s);
    Routing(ToLower(s));
    NonLetterInLower(s, '.');
    LowerHasX(s);
    ToLowerIdempotent(s);
  }

  // Integers printed in decimal.

  /** The token kind a decimal width suffix names. */
  function SignedKind(bits: nat): Token {
    if bits == 8 then Int8 else if bits == 16 then Int16 else if bits == 32 then Int32 else Int64
  }

  function UnsignedKind(bits: nat): Token {
    if bits == 8 then Uint8 else if bits == 16 then Uint16 else if bits == 32 then Uint32 else Uint64
  }

  function FloatKind(bits: nat): Token {
    if bits == 32 then Float32 else Float64
  }

  /** What Itoa prints: digits after an optional minus sign, of the signed shape, with nothing to clear. */
  lemma ItoaText(n: int)
    ensures forall i :: 0 <= i < |Itoa(n)| ==> IsDigit(Itoa(n)[i]) || (i == 0 && Itoa(n)[i] == '-')
    ensures IsDigit(Itoa(n)[|Itoa(n)| - 1])
    ensures IntShape(Itoa(n))
    ensures ClearUnderscores(Itoa(n)) == Itoa(n)
  {
    var m: nat := if n < 0 then -n else n;
    var d := NatToDecimal(m);
    DecimalShape(m);
    forall i | 0 <= i < |d| ensures IsDigit(d[i]) {
      assert IsDigitIn(d[i], 10);
      DigitClasses(d[i]);
    }
    if n < 0 {
      var t := Itoa(n);
      assert t == "-" + d;
      assert t[1..] == d;
      assert forall i :: 1 <= i < |t| ==> t[i] == d[i - 1];
      RemoveConcat("-", d, '_');
      assert Remove("-", '_') == "-";
    }
  }

  /** Every character of the printed form of `n` lies outside `marks` when `marks` has no digit and no minus sign. */
  lemma ItoaAvoids(n: int, marks: string)
    requires forall j :: 0 <= j < |marks| ==> !IsDigit(marks[j]) && marks[j] != '-'
    ensures NoneOf(Itoa(n), marks)
  {
    ItoaText(n);
  }

  /** The text of a width in decimal. */
  lemma WidthTexts()
    ensures NatToDecimal(8) == "8" && NatToDecimal(16) == "16"
    ensures NatToDecimal(32) == "32" && NatToDecimal(64) == "64"
  {
  }

  /** `<n>i<N>` is IntN exactly when the integer `n` fits N signed bits. */
  lemma SignedRoundTrip(n: int, bits: nat)
    requires bits == 8 || bits == 16 || bits == 32 || bits == 64
    ensures ParseNumber(Itoa(n) + "i" + NatToDecimal(bits)) ==
      Ok(if -(Pow(2, bits - 1) as int) <= n < Pow(2, bits - 1) then SignedKind(bits) else Invalid)
  {
    var w := NatToDecimal(bits);
    ItoaText(n);
    ItoaAvoids(n, ".xXi");
    WidthTexts();
    SignedSuffixed(Itoa(n), w);
    IntValidItoa(n, bits);
    if bits == 8 {
      assert w == "8";
    } else if bits == 16 {
      assert w == "16";
    } else if bits == 32 {
      assert w == "32";
    } else {
      assert w == "64";
    }
  }

  /** `<n>u<N>` is UintN exactly when the natural number `n` is below 2^N. */
  lemma UnsignedRoundTrip(n: nat, bits: nat)
    requires bits == 8 || bits == 16 || bits == 32 || bits == 64
    ensures ParseNumber(NatToDecimal(n) + "u" + NatToDecimal(bits)) ==
      Ok(if n < Pow(2, bits) then UnsignedKind(bits) else Invalid)
  {
    ItoaText(n);
    ItoaAvoids(n, ".xXiu");
    WidthTexts();
    DecimalShape(n);
    UnsignedSuffixed(NatToDecimal(n), NatToDecimal(bits));
    UintValidDecimal(n, bits);
  }

  /** An unsuffixed printed integer is Int32 exactly when it fits 32 signed bits. */
  lemma DecimalRoundTrip(n: int)
    ensures ParseNumber(Itoa(n)) == Ok(if -(Pow(2, 31) as int) <= n < Pow(2, 31) then Int32 else Invalid)
  {
    ItoaText(n);
    ItoaAvoids(n, ".xXiu");
    DecimalDefault(Itoa(n));
    IntValidItoa(n, 32);
  }

  /**
   * `<a>.<b>` is Float32 exactly when `b` is below the float32 overflow threshold: the
   * mantissa `a` takes no part in the range check.
   */
  lemma FloatRoundTrip(a: nat, b: nat)
    ensures ParseNumber(NatToDecimal(a) + "." + NatToDecimal(b)) ==
      Ok(if b < FloatOverflow(32) then Float32 else Invalid)
  {
    var m, fr := NatToDecimal(a), NatToDecimal(b);
    ItoaText(a);
    ItoaText(b);
    ItoaAvoids(a, ".");
    ItoaAvoids(b, ".f");
    DecimalShape(a);
    DecimalShape(b);
    UintShapeIsFloatAndHex(fr);
    FloatDefault(m, fr);
  }

  /** `<a>.<b>f<N>` is FloatN exactly when `b` is below the overflow threshold of N bits. */
  lemma FloatSuffixRoundTrip(a: nat, b: nat, bits: nat)
    requires bits == 32 || bits == 64
    ensures ParseNumber(NatToDecimal(a) + "." + NatToDecimal(b) + "f" + NatToDecimal(bits)) ==
      Ok(if b < FloatOverflow(bits) then FloatKind(bits) else Invalid)
  {
    var m, fr := NatToDecimal(a), NatToDecimal(b);
    ItoaText(a);
    ItoaText(b);
    ItoaAvoids(a, ".");
    ItoaAvoids(b, ".f");
    DecimalShape(a);
    DecimalShape(b);
    UintShapeIsFloatAndHex(fr);
    WidthTexts();
    FloatSuffixed(m, fr, NatToDecimal(bits));
  }
}
