/**
 * The numeric-literal classifier (package `parser`): ParseNumber routes a literal to the
 * float, hex or decimal path; each path splits off its delimiter and its suffix letter,
 * checks the digit body against a shape, strips the `_` separators and checks the range
 * of the declared or default bit size.
 */
module Parser {
  import opened Ascii
  import opened Strings
  import opened Strconv
  import opened Tokens
  import opened Shapes

  /**
   * What a call produces: a token kind, or the runtime panic of indexing the last element
   * of an empty slice, which the unsuffixed branches reach on an empty body.
   */
  datatype Outcome = Ok(token: Token) | Panic

  /** clearUnderscores: strings.ReplaceAll(s, "_", ""). */
  function ClearUnderscores(s: string): (r: string)
    ensures '_' !in r
  {
    RemoveMembers(s, '_');
    Remove(s, '_')
  }

  /** Parser.ParseNumber: `.` selects the float path; otherwise an `x` in the lower-cased text the hex path. */
  function ParseNumber(input: string): Outcome {
    var lower := ToLower(input);
    if '.' in input then ParseFloat(input)
    else if 'x' in lower then ParseHex(lower)
    else ParseInt(input)
  }

  /** parseFloat: exactly one `.`, an unsigned-shaped mantissa, then the fraction decides. */
  function ParseFloat(input: string): Outcome {
    var s := Split(input, '.');
    if |s| > 2 then Ok(Invalid)
    else if |s| == 2 && UintShape(s[0]) then GetFloat(s[1])
    else Ok(Invalid)
  }

  /** parseHex, on the lower-cased literal: exactly one `x`, preceded by exactly "0". */
  function ParseHex(lower: string): Outcome {
    var s := Split(lower, 'x');
    if |s| > 2 then Ok(Invalid)
    else if |s| == 2 && s[0] == "0" then GetHex(s[1])
    else Ok(Invalid)
  }

  /** parseInt. */
  function ParseInt(input: string): Outcome {
    GetInt(input)
  }

  /** getFloat: the fraction, with an `f` width suffix or without one (32 bits). */
  function GetFloat(input: string): Outcome {
    if 'f' in input then
      var s := Split(input, 'f');
      if |s| > 2 then Ok(Invalid)
      else if FloatShape(s[0]) then
        var digits := ClearUnderscores(s[0]);
        if s[1] == "32" then (if IsFloatValid(digits, 32) then Ok(Float32) else Ok(Invalid))
        else if s[1] == "64" then (if IsFloatValid(digits, 64) then Ok(Float64) else Ok(Invalid))
        else Ok(Invalid)
      else Ok(Invalid)
    else
      var chars := SplitChars(input);
      if |chars| == 0 then Panic
      else if chars[|chars| - 1] == "_" then Ok(Invalid)
      else if FloatShape(input) && IsFloatValid(ClearUnderscores(input), 32) then Ok(Float32)
      else Ok(Invalid)
  }

  /** getHex: the hex digits, with a `u` width suffix or without one (checked as 32 unsigned bits, reported as Int32). */
  function GetHex(input: string): Outcome {
    if 'u' in input then
      var s := Split(input, 'u');
      if |s| > 2 then Ok(Invalid)
      else if HexShape(s[0]) then
        var digits := ClearUnderscores(s[0]);
        if s[1] == "32" then (if IsHexValid(digits, 32) then Ok(Uint32) else Ok(Invalid))
        else if s[1] == "64" then (if IsHexValid(digits, 64) then Ok(Uint64) else Ok(Invalid))
        else Ok(Invalid)
      else Ok(Invalid)
    else
      var chars := SplitChars(input);
      if |chars| == 0 then Panic
      else if chars[|chars| - 1] == "_" then Ok(Invalid)
      else if HexShape(input) && IsHexValid(ClearUnderscores(input), 32) then Ok(Int32)
      else Ok(Invalid)
  }

  /**
   * getInt: an `i` suffix (signed), else a `u` suffix (unsigned), else no suffix (signed 32 bits).
   * A failed 64-bit signed check falls out of the width tests to Invalid, and in the unsigned
   * branch a failed check falls through to the remaining width tests, which cannot match.
   */
  function GetInt(input: string): Outcome {
    if 'i' in input then
      var s := Split(input, 'i');
      if |s| > 2 then Ok(Invalid)
      else if IntShape(s[0]) then
        var digits := ClearUnderscores(s[0]);
        if s[1] == "8" then (if IsIntValid(digits, 8) then Ok(Int8) else Ok(Invalid))
        else if s[1] == "16" then (if IsIntValid(digits, 16) then Ok(Int16) else Ok(Invalid))
        else if s[1] == "32" then (if IsIntValid(digits, 32) then Ok(Int32) else Ok(Invalid))
        else if s[1] == "64" && IsIntValid(digits, 64) then Ok(Int64)
        else Ok(Invalid)
      else Ok(Invalid)
    else if 'u' in input then
      var s := Split(input, 'u');
      if |s| > 2 then Ok(Invalid)
      else if UintShape(s[0]) then
        var digits := ClearUnderscores(s[0]);
        if s[1] == "8" && IsUintValid(digits, 8) then Ok(Uint8)
        else if s[1] == "16" && IsUintValid(digits, 16) then Ok(Uint16)
        else if s[1] == "32" && IsUintValid(digits, 32) then Ok(Uint32)
        else if s[1] == "64" && IsUintValid(digits, 64) then Ok(Uint64)
        else Ok(Invalid)
      else Ok(Invalid)
    else
      var chars := SplitChars(input);
      if |chars| == 0 then Panic
      else if chars[|chars| - 1] == "_" then Ok(Invalid)
      else if IntShape(input) && IsIntValid(ClearUnderscores(input), 32) then Ok(Int32)
      else Ok(Invalid)
  }
}
