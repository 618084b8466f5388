/**
 * What ParseNumber decides, path by path, for literals assembled from their parts, and the
 * facts that hold across paths: routing priority, duplicated delimiters, the panicking inputs.
 */
module ParserProperties {
  import opened Ascii
  import opened Strings
  import opened Strconv
  import opened Tokens
  import opened Shapes
  import opened Parser

  /**
   * clearUnderscores deletes exactly the `_` characters: the others stay, in order, so the
   * length drops by the number of `_`; clearing twice is clearing once.
   */
  lemma ClearUnderscoresLaws(s: string)
    ensures forall d :: d in ClearUnderscores(s) <==> d in s && d != '_'
    ensures |ClearUnderscores(s)| == |s| - Count(s, '_')
    ensures '_' !in s ==> ClearUnderscores(s) == s
    ensures ClearUnderscores(ClearUnderscores(s)) == ClearUnderscores(s)
  {
    RemoveMembers(s, '_');
    RemoveLength(s, '_');
    if '_' !in s {
      RemoveAbsent(s, '_');
    }
    RemoveAbsent(ClearUnderscores(s), '_');
  }

  /** Clearing works piece by piece. */
  lemma ClearUnderscoresConcat(a: string, b: string)
    ensures ClearUnderscores(a + b) == ClearUnderscores(a) + ClearUnderscores(b)
  {
    RemoveConcat(a, b, '_');
  }

  /** `.` wins over `x`; an `x` of either case sends the lower-cased text to the hex path. */
  lemma Routing(s: string)
    ensures ParseNumber(s) ==
      if '.' in s then ParseFloat(s)
      else if 'x' in s || 'X' in s then ParseHex(ToLower(s))
      else ParseInt(s)
  {
    LowerHasX(s);
  }

  /** Only the unsuffixed branches can panic, and exactly on an empty body. */
  lemma FloatBodyPanics(b: string)
    ensures GetFloat(b) == Panic <==> b == ""
  {
    if 'f' in b {
      assert GetFloat(b).Ok?;
    }
  }

  lemma HexBodyPanics(b: string)
    ensures GetHex(b) == Panic <==> b == ""
  {
    if 'u' in b {
      assert GetHex(b).Ok?;
    }
  }

  lemma IntBodyPanics(b: string)
    ensures GetInt(b) == Panic <==> b == ""
  {
    if 'i' in b || 'u' in b {
      assert GetInt(b).Ok?;
    }
  }

  // The float path.

  /** `m.frfW`: Float32 or Float64 exactly when the mantissa is unsigned-shaped, the fraction float-shaped, W names the width and the cleaned fraction is in range. */
  lemma FloatSuffixed(m: string, fr: string, w: string)
    requires '.' !in m && '.' !in fr && 'f' !in fr && '.' !in w && 'f' !in w
    ensures ParseNumber(m + "." + fr + "f" + w) == Ok(
      if UintShape(m) && FloatShape(fr) && w == "32" && IsFloatValid(ClearUnderscores(fr), 32) then Float32
      else if UintShape(m) && FloatShape(fr) && w == "64" && IsFloatValid(ClearUnderscores(fr), 64) then Float64
      else Invalid)
  {
    var tail := fr + "f" + w;
    var s := m + "." + fr + "f" + w;
    assert s == m + ['.'] + tail;
    assert '.' in s;
    SplitOnce(m, tail, '.');
    assert tail == fr + ['f'] + w;
    SplitOnce(fr, w, 'f');
  }

  /** `m.fr` without `f`: Panic on an empty fraction, Invalid on a trailing `_`, else Float32 exactly when the cleaned fraction is in range. */
  lemma FloatDefault(m: string, fr: string)
    requires '.' !in m && '.' !in fr && 'f' !in fr
    ensures ParseNumber(m + "." + fr) ==
      if !UintShape(m) then Ok(Invalid)
      else if fr == "" then Panic
      else if fr[|fr| - 1] == '_' then Ok(Invalid)
      else Ok(if FloatShape(fr) && IsFloatValid(ClearUnderscores(fr), 32) then Float32 else Invalid)
  {
    var s := m + "." + fr;
    assert s == m + ['.'] + fr;
    assert '.' in s;
    SplitOnce(m, fr, '.');
  }

  // The hex path.

  /** The lower-cased form of `p` + x + `h`, split at its single `x`. */
  lemma HexSplit(p: string, m: char, h: string)
    requires m == 'x' || m == 'X'
    requires NoneOf(p, ".xX") && NoneOf(h, ".xX")
    ensures ParseNumber(p + [m] + h) == ParseHex(ToLower(p) + "x" + ToLower(h))
    ensures Split(ToLower(p) + "x" + ToLower(h), 'x') == [ToLower(p), ToLower(h)]
  {
    var s := p + [m] + h;
    assert '.' !in p && '.' !in h && 'x' !in p && 'X' !in p && 'x' !in h && 'X' !in h;
    assert '.' !in s;
    assert m in s;
    ToLowerConcat(p + [m], h);
    ToLowerConcat(p, [m]);
    assert ToLower([m]) == "x";
    LowerHasX(s);
    LowerHasX(p);
    LowerHasX(h);
    SplitOnce(ToLower(p), ToLower(h), 'x');
  }

  /** With exactly "0" before the marker, the hex path hands the lower-cased rest to getHex. */
  lemma HexZero(m: char, h: string)
    requires m == 'x' || m == 'X'
    requires NoneOf(h, ".xX")
    ensures ParseNumber("0" + [m] + h) == GetHex(ToLower(h))
  {
    HexSplit("0", m, h);
    LowerToNonLetters("0", "0");
  }

  /** Whatever follows, the part before `x` must be exactly "0": `-0x…` and `_0x…` are Invalid. */
  lemma HexWrongPrefix(p: string, m: char, h: string)
    requires m == 'x' || m == 'X'
    requires NoneOf(p, ".xX") && NoneOf(h, ".xX")
    requires p != "0"
    ensures ParseNumber(p + [m] + h) == Ok(Invalid)
  {
    HexSplit(p, m, h);
    LowerToNonLetters(p, "0");
  }

  /** GetHex on a body with a single `u`. */
  lemma GetHexSuffixed(a: string, b: string)
    requires 'u' !in a && 'u' !in b
    ensures GetHex(a + "u" + b) == Ok(
      if HexShape(a) && b == "32" && IsHexValid(ClearUnderscores(a), 32) then Uint32
      else if HexShape(a) && b == "64" && IsHexValid(ClearUnderscores(a), 64) then Uint64
      else Invalid)
  {
    assert a + "u" + b == a + ['u'] + b;
    SplitOnce(a, b, 'u');
  }

  /** Lower-casing `h` + u + `w` leaves one lower-case `u` between the lower-cased parts. */
  lemma LowerAroundU(h: string, n: char, w: string)
    requires n == 'u' || n == 'U'
    requires NoneOf(h, "uU") && NoneOf(w, "uU")
    ensures ToLower(h + [n] + w) == ToLower(h) + "u" + ToLower(w)
    ensures 'u' !in ToLower(h) && 'u' !in ToLower(w)
  {
    ToLowerConcat(h + [n], w);
    ToLowerConcat(h, [n]);
    assert ToLower([n]) == "u";
    LowerHasLetter(h, 'u');
    LowerHasLetter(w, 'u');
    assert 'u' !in h && 'U' !in h && 'u' !in w && 'U' !in w;
  }

  /** Lower-casing changes neither the hex shape nor the range check of the cleaned digits. */
  lemma HexCheckToLower(h: string, bitSize: nat)
    requires 0 < bitSize <= 64
    ensures HexShape(ToLower(h)) == HexShape(h)
    ensures IsHexValid(ClearUnderscores(ToLower(h)), bitSize) == IsHexValid(ClearUnderscores(h), bitSize)
  {
    HexShapeToLower(h);
    RemoveToLower(h, '_');
    HexValidToLower(ClearUnderscores(h), bitSize);
  }

  /** The width texts contain no letters, so lower-casing cannot produce them from anything else. */
  lemma WidthToLower(w: string)
    ensures (ToLower(w) == "32") == (w == "32")
    ensures (ToLower(w) == "64") == (w == "64")
  {
    LowerToNonLetters(w, "32");
    LowerToNonLetters(w, "64");
  }

  /** GetHex on a lower-cased body with a single `u`, stated on the text before lower-casing. */
  lemma GetHexSuffixedLower(h: string, w: string)
    requires 'u' !in ToLower(h) && 'u' !in ToLower(w)
    ensures GetHex(ToLower(h) + "u" + ToLower(w)) == Ok(
      if HexShape(h) && ToLower(w) == "32" && IsHexValid(ClearUnderscores(h), 32) then Uint32
      else if HexShape(h) && ToLower(w) == "64" && IsHexValid(ClearUnderscores(h), 64) then Uint64
      else Invalid)
  {
    GetHexSuffixed(ToLower(h), ToLower(w));
    HexCheckToLower(h, 32);
    HexCheckToLower(h, 64);
  }

  /** The hex body after lower-casing, split at its single `u`. */
  lemma HexBodySuffixed(h: string, n: char, w: string)
    requires n == 'u' || n == 'U'
    requires NoneOf(h, "uU") && NoneOf(w, "uU")
    ensures GetHex(ToLower(h + [n] + w)) == Ok(
      if HexShape(h) && w == "32" && IsHexValid(ClearUnderscores(h), 32) then Uint32
      else if HexShape(h) && w == "64" && IsHexValid(ClearUnderscores(h), 64) then Uint64
      else Invalid)
  {
    LowerAroundU(h, n, w);
    GetHexSuffixedLower(h, w);
    WidthToLower(w);
  }

  /** `0xHuW`, either case of `x` and `u`: Uint32 or Uint64 exactly when H is hex-shaped, W names the width and the cleaned digits fit it. */
  lemma HexSuffixed(m: char, h: string, n: char, w: string)
    requires m == 'x' || m == 'X'
    requires n == 'u' || n == 'U'
    requires NoneOf(h, ".xXuU") && NoneOf(w, ".xXuU")
    ensures ParseNumber("0" + [m] + h + [n] + w) == Ok(
      if HexShape(h) && w == "32" && IsHexValid(ClearUnderscores(h), 32) then Uint32
      else if HexShape(h) && w == "64" && IsHexValid(ClearUnderscores(h), 64) then Uint64
      else Invalid)
  {
    var body := h + [n] + w;
    assert "0" + [m] + h + [n] + w == "0" + [m] + body;
    assert NoneOf(body, ".xX") by {
      assert forall i :: 0 <= i < |body| ==> body[i] in h + [n] + w;
    }
    HexZero(m, body);
    HexBodySuffixed(h, n, w);
  }

  /** GetHex on a lower-cased body without `u`, stated on the text before lower-casing. */
  lemma GetHexDefaultLower(h: string)
    requires 'u' !in ToLower(h)
    ensures GetHex(ToLower(h)) ==
      if h == "" then Panic
      else if h[|h| - 1] == '_' then Ok(Invalid)
      else Ok(if HexShape(h) && IsHexValid(ClearUnderscores(h), 32) then Int32 else Invalid)
  {
    var lh := ToLower(h);
    if h != "" {
      LowerCharFixesNonLetters('_');
      assert lh[|lh| - 1] == LowerChar(h[|h| - 1]);
    }
    HexCheckToLower(h, 32);
  }

  /** `0xH` without `u`: Panic on an empty H, Invalid on a trailing `_`, else Int32 exactly when the cleaned digits are below 2^32 (the unsigned bound). */
  lemma HexDefault(m: char, h: string)
    requires m == 'x' || m == 'X'
    requires NoneOf(h, ".xXuU")
    ensures ParseNumber("0" + [m] + h) ==
      if h == "" then Panic
      else if h[|h| - 1] == '_' then Ok(Invalid)
      else Ok(if HexShape(h) && IsHexValid(ClearUnderscores(h), 32) then Int32 else Invalid)
  {
    var lh := ToLower(h);
    HexZero(m, h);
    assert 'u' !in lh by {
      LowerHasLetter(h, 'u');
      assert 'u' !in h && 'U' !in h;
    }
    GetHexDefaultLower(h);
  }

  // The decimal path.

  /** `BiW`: IntN exactly when B is signed-shaped, W is the text of N and the cleaned B fits N signed bits. */
  lemma SignedSuffixed(b: string, w: string)
    requires NoneOf(b, ".xXi") && NoneOf(w, ".xXi")
    ensures ParseNumber(b + "i" + w) == Ok(
      if IntShape(b) && w == "8" && IsIntValid(ClearUnderscores(b), 8) then Int8
      else if IntShape(b) && w == "16" && IsIntValid(ClearUnderscores(b), 16) then Int16
      else if IntShape(b) && w == "32" && IsIntValid(ClearUnderscores(b), 32) then Int32
      else if IntShape(b) && w == "64" && IsIntValid(ClearUnderscores(b), 64) then Int64
      else Invalid)
  {
    var s := b + "i" + w;
    assert s == b + ['i'] + w;
    assert '.' !in b && '.' !in w && 'x' !in b && 'x' !in w && 'X' !in b && 'X' !in w;
    assert 'i' !in b && 'i' !in w;
    assert '.' !in s && 'x' !in s && 'X' !in s && 'i' in s;
    Routing(s);
    SplitOnce(b, w, 'i');
  }

  /** `BuW` with no `i` anywhere: UintN exactly when B is unsigned-shaped (so unsigned), W is the text of N and the cleaned B is below 2^N. */
  lemma UnsignedSuffixed(b: string, w: string)
    requires NoneOf(b, ".xXiu") && NoneOf(w, ".xXiu")
    ensures ParseNumber(b + "u" + w) == Ok(
      if UintShape(b) && w == "8" && IsUintValid(ClearUnderscores(b), 8) then Uint8
      else if UintShape(b) && w == "16" && IsUintValid(ClearUnderscores(b), 16) then Uint16
      else if UintShape(b) && w == "32" && IsUintValid(ClearUnderscores(b), 32) then Uint32
      else if UintShape(b) && w == "64" && IsUintValid(ClearUnderscores(b), 64) then Uint64
      else Invalid)
  {
    var s := b + "u" + w;
    assert s == b + ['u'] + w;
    assert '.' !in b && '.' !in w && 'x' !in b && 'x' !in w && 'X' !in b && 'X' !in w;
    assert 'i' !in b && 'i' !in w && 'u' !in b && 'u' !in w;
    assert '.' !in s && 'x' !in s && 'X' !in s && 'i' !in s && 'u' in s;
    Routing(s);
    SplitOnce(b, w, 'u');
  }

  /** A literal without delimiter or suffix letter: Panic when empty, Invalid on a trailing `_`, else Int32 exactly when it is signed-shaped and fits 32 signed bits once cleaned. */
  lemma DecimalDefault(s: string)
    requires NoneOf(s, ".xXiu")
    ensures ParseNumber(s) ==
      if s == "" then Panic
      else if s[|s| - 1] == '_' then Ok(Invalid)
      else Ok(if IntShape(s) && IsIntValid(ClearUnderscores(s), 32) then Int32 else Invalid)
  {
    assert '.' !in s && 'x' !in s && 'X' !in s && 'i' !in s && 'u' !in s;
    Routing(s);
  }
}
