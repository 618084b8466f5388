# Numeric-literal classifier, modelled in Dafny

This project models the core of a small Go tokenizer. `Parser.ParseNumber` reads a single string, such as `120i8`, `0x1_23`, `3.14f64` or `-1`. It returns the `token.Token` kind of that numeric literal:

- signed integers Int8 to Int64;
- unsigned integers Uint8 to Uint64;
- floats Float32 and Float64;
- or Invalid.

`Token.String` turns a kind into its label.

The classifier is a fixed cascade of conditionals. Each step is modelled as a Dafny function, and the lemmas state what the cascade decides for each family of inputs.

| module | models |
|---|---|
| `Ascii` (`ascii.dfy`) | ASCII character classes and the per-character lower-casing that `strings.ToLower` performs on ASCII text |
| `Strings` (`strings.dfy`) | `strings.Contains`, `strings.Split` on one separator character (count the separators, cut at the first), `strings.Split(x, "")` (one piece per character), `strings.ReplaceAll(s, "_", "")` and `strings.ToLower` |
| `Strconv` (`strconv.dfy`) | `isIntValid`, `isUintValid`, `isHexValid` and `isFloatValid` (`parser/parser.go:296-314`) as exact predicates on numerals and their values; `strconv.Itoa` |
| `Tokens` (`token.dfy`) | the eleven kinds (`token/token.go:7-19`) as constants 0 to 10 of an `int` newtype, the label map (lines 21-33) and `String` (lines 35-47) |
| `Shapes` (`shapes.dfy`) | the four anchored patterns (`parser/parser.go:23-38`) as recursive predicates, with flat characterisations |
| `Parser` (`parser.dfy`) | `ParseNumber` (lines 49-60), `parseFloat` (62-78), `parseHex` (80-96), `parseInt` (98-100), `getFloat` (102-149), `getHex` (151-194), `getInt` (196-294) and `clearUnderscores` (316-318) |
| `ParserProperties` (`parser_properties.dfy`) | per-path lemmas: the outcome for any input of a given layout (delimiter, body, suffix letter, width text) |
| `ParserLaws` (`parser_laws.dfy`) | laws over all inputs: exactly which inputs crash, the duplicate-delimiter rules, stray characters, case rules, and round trips from integers printed in decimal |
| `ParserTable` (`parser_table.dfy`) | one lemma per row of the test table in `parser/parser_test.go`; each proves that the row's input classifies as its expected kind |

The result of a classification is the datatype `Parser.Outcome = Ok(token) | Panic`: the `token.Token` that `ParseNumber` returns, or the panic described below. The eleven kinds are the constants `Tokens.Invalid` = 0 to `Tokens.Float64` = 10, numbered in declaration order as the `iota` block of `token/token.go:7-19` numbers them, and `Tokens.Labels` is the label map of `token/token.go:21-33`, entry for entry. These are a datatype and constants rather than functions or lemmas, so the lemmas about them have the rows in the table below: `Tokens.LabelsCover`, `Tokens.LabelCount`, `Tokens.NamedLabels` and `Tokens.StringInjective` for the map, and `ParserLaws.PanicExactly` for `Panic`.

- **Panic** stands for the Go runtime panic of the unsuffixed branches (`parser/parser.go:133-136`, `180-183`, `277-281`). Each computes `strings.Split(x, "")`, which is empty for an empty `x`, and then indexes its last element.
- **Inputs that panic.** `ParserLaws.PanicExactly` proves that these are exactly the following:
  - the empty string;
  - `0x` and `0X`;
  - an unsigned-shaped mantissa, possibly empty, followed by a final `.`, such as `.` or `5.`.
- **Not guarded.** Nothing in `parser/parser.go` guards these inputs, and no row of `parser/parser_test.go` uses them. The model keeps the panic as an outcome of its own instead of mapping it to Invalid.

Further behaviour of the code that the model keeps:

- **The range check runs on the fraction.** On the float path the mantissa (the part before the `.`) is checked for shape only. The numeric range check runs on the cleaned fraction digits after the `.` (`parser/parser.go:72-74`, `114-117`, `141-143`).
- **Unsuffixed hex.** An unsuffixed hex literal is checked against the unsigned 32-bit bound but reported as Int32 (`parser/parser.go:186-190`).
- **The hex path sees lower-cased text.** Its marker and suffix letters may be upper case, so `0X123` and `0x12U32` are accepted.
- **The other paths keep the case.** `10_I32` and `3.14F64` are Invalid.
- **Labels.** The Uint16 label is spelt `unsigned 16it integer`, as in `token/token.go:28`.

The two kinds of table lemma:

- **Path lemmas.** A lemma of `ParserProperties` names the string pieces the splits produce, such as `b + "i" + w`. It proves the outcome for every input of that layout.
- **Test-table lemmas.** A lemma of `ParserTable` takes its input as a parameter fixed to the row's literal by its precondition. It applies the path lemma to that literal's pieces, plus small fact lemmas about the pieces' digit values and shapes.

## Model

| member | source | states |
|---|---|---|
| Parser.ParseNumber | parser/parser.go:49-60 | no ensures of its own; ParserProperties.Routing states its cascade, the ParserProperties path lemmas its outcome for each layout of input and ParserLaws.PanicExactly its exact panic set |
| Parser.ParseFloat | parser/parser.go:62-78 | no ensures of its own; ParserLaws.TooManyDots, ParserLaws.FloatPathPanics and ParserProperties.FloatSuffixed / FloatDefault state its outcome |
| Parser.ParseHex | parser/parser.go:80-96 | no ensures of its own; ParserLaws.TooManyXs, ParserLaws.HexPathPanics and ParserProperties.HexZero / HexWrongPrefix state its outcome |
| Parser.ParseInt | parser/parser.go:98-100 | no ensures of its own; it hands its input to GetInt unchanged, and ParserProperties.DecimalDefault, SignedSuffixed and UnsignedSuffixed state the outcome |
| Parser.GetFloat | parser/parser.go:102-149 | no ensures of its own; ParserProperties.FloatBodyPanics (panic exactly on the empty fraction), ParserLaws.StrayCharInFraction and TooManyFloatSuffixes, and ParserProperties.FloatSuffixed / FloatDefault state its outcome |
| Parser.GetHex | parser/parser.go:151-194 | no ensures of its own; ParserProperties.HexBodyPanics, GetHexSuffixed and GetHexDefaultLower state its outcome with and without a `u` suffix |
| Parser.GetInt | parser/parser.go:196-294 | no ensures of its own; ParserProperties.IntBodyPanics, SignedSuffixed, UnsignedSuffixed and DecimalDefault state its outcome in each of its three branches |
| Shapes.UintShape | parser/parser.go:23 | no ensures of its own; Shapes.UintShapeFlat gives its flat reading of `^(\d+[_]?)*$` |
| Shapes.IntShape | parser/parser.go:28 | no ensures of its own: it is defined as one optional `+` or `-` followed by UintShape, which is `^[-+]?(\d+[_]?)*$`; Shapes.IntShapeConcat and ForeignCharBreaksShapes are about it |
| Shapes.FloatShape | parser/parser.go:33 | no ensures of its own; Shapes.FloatShapeFlat gives its flat reading of `^([_]?\d+[_]?)*$` |
| Shapes.HexShape | parser/parser.go:38 | no ensures of its own; Shapes.HexShapeFlat gives its flat reading of `^([0-9a-fA-F]+[_]?)*$` |
| Strconv.IsIntValid | parser/parser.go:296-299 | no ensures of its own: one optional sign, a non-empty decimal numeral and the signed range; Strconv.IntValidItoa states that it accepts the text of n exactly for n in [-2^(N-1), 2^(N-1)) |
| Strconv.IsUintValid | parser/parser.go:301-304 | no ensures of its own: a non-empty decimal numeral below 2^N; Strconv.UintValidDecimal states it on every natural number's text |
| Strconv.IsHexValid | parser/parser.go:306-309 | no ensures of its own: a non-empty hex numeral below 2^N; Strconv.HexValidToLower states that letter case does not matter |
| Strconv.IsFloatValid | parser/parser.go:311-314 | no ensures of its own: a non-empty decimal numeral below the width's overflow threshold (Strconv.FloatOverflow); Strconv.FloatValidEmpty and FloatValidShortNumerals state its facts |
| Strings.Remove | parser/parser.go:317 | no ensures of its own; Strings.RemoveMembers, RemoveLength, RemoveConcat and RemoveAbsent state what `strings.ReplaceAll(s, "_", "")` keeps |
| Parser.ClearUnderscores | parser/parser.go:316-318 | the cleaned text contains no `_` |
| ParserProperties.ClearUnderscoresLaws | parser/parser.go:316-318 | cleaning keeps exactly the characters other than `_`, shortens the text by the number of `_`, leaves text without `_` unchanged and is idempotent |
| ParserProperties.ClearUnderscoresConcat | parser/parser.go:316-318 | cleaning distributes over concatenation |
| ParserProperties.Routing | parser/parser.go:49-60 | an input with `.` goes to the float path, otherwise one with `x` or `X` goes to the hex path on its lower-cased text, otherwise to the decimal path on its original text |
| ParserProperties.FloatBodyPanics | parser/parser.go:102-148 | getFloat panics exactly on the empty fraction |
| ParserProperties.HexBodyPanics | parser/parser.go:151-193 | getHex panics exactly on the empty body |
| ParserProperties.IntBodyPanics | parser/parser.go:196-293 | getInt panics exactly on the empty input |
| ParserProperties.FloatSuffixed | parser/parser.go:62-131 | `m.frfw` is Float32 (Float64) exactly when `m` is unsigned-shaped, `fr` is float-shaped, `w` is `32` (`64`) and the cleaned fraction is a valid float of that width; otherwise Invalid |
| ParserProperties.FloatDefault | parser/parser.go:62-148 | `m.fr` without `f` is Invalid for a mantissa of the wrong shape, panics on an empty fraction, is Invalid on a trailing `_`, else Float32 exactly when the fraction is float-shaped and its cleaned digits are a valid 32-bit float |
| ParserProperties.HexSplit | parser/parser.go:49-96 | an input with one `x` or `X` and no `.` is decided by parseHex on the lower-cased text, which splits into the two lower-cased pieces |
| ParserProperties.HexZero | parser/parser.go:80-96 | with exactly `0` before the marker, getHex decides on the lower-cased rest |
| ParserProperties.HexWrongPrefix | parser/parser.go:88-95 | with anything but exactly `0` before the marker, the input is Invalid |
| ParserProperties.GetHexSuffixed | parser/parser.go:153-178 | a hex body with one `u` is Uint32 (Uint64) exactly when the digits are hex-shaped, the width is `32` (`64`) and the cleaned digits fit that many unsigned bits |
| ParserProperties.HexBodySuffixed | parser/parser.go:151-178 | the same for a body with `u` or `U`, stated on the original case of the digits and the width |
| ParserProperties.HexSuffixed | parser/parser.go:80-178 | `0xhuw` (any case of `x` and `u`) is Uint32 or Uint64 exactly when `h` is hex-shaped, `w` is `32` or `64` and the cleaned `h` fits that width; otherwise Invalid |
| ParserProperties.GetHexDefaultLower | parser/parser.go:179-193 | an unsuffixed lower-cased hex body panics when empty, is Invalid on a trailing `_`, else Int32 exactly when hex-shaped with cleaned value below 2^32 |
| ParserProperties.HexDefault | parser/parser.go:179-193 | `0xh` without `u`: panics on empty `h`, Invalid on a trailing `_`, else Int32 exactly when `h` is hex-shaped and its cleaned value is below 2^32 |
| ParserProperties.SignedSuffixed | parser/parser.go:196-238 | `biw` is IntN exactly when `w` is the text of N in {8, 16, 32, 64}, `b` has the signed shape and the cleaned `b` is in the signed N-bit range; anything else, a failed 64-bit check included, is Invalid |
| ParserProperties.UnsignedSuffixed | parser/parser.go:239-274 | `buw` without `i` is UintN exactly when `w` is the text of N, `b` has the unsigned shape and the cleaned `b` is below 2^N; otherwise Invalid |
| ParserProperties.DecimalDefault | parser/parser.go:275-293 | a decimal input without suffix panics when empty, is Invalid on a trailing `_`, else Int32 exactly when signed-shaped and in the signed 32-bit range |
| ParserProperties.LowerAroundU | parser/parser.go:51-56 | lower-casing a hex body around a `u` or `U` gives the lower-cased pieces around `u` |
| ParserProperties.HexCheckToLower | parser/parser.go:162-165 | the hex shape and the hex range check do not depend on letter case |
| ParserLaws.FloatPathPanics | parser/parser.go:62-148 | the float path panics exactly on an unsigned-shaped mantissa followed by a final `.` |
| ParserLaws.HexPathPanics | parser/parser.go:80-193 | the hex path panics exactly on the lower-cased text `0x` |
| ParserLaws.PanicExactly | parser/parser.go:49-293 | ParseNumber panics exactly on ``, `0x`, `0X` and an unsigned-shaped mantissa followed by a final `.` |
| ParserLaws.TooManyDots | parser/parser.go:65-68 | more than one `.` gives Invalid |
| ParserLaws.TooManyXs | parser/parser.go:83-86 | without `.`, more than one `x` in the lower-cased text gives Invalid |
| ParserLaws.TooManyFloatSuffixes | parser/parser.go:106-109 | one `.` and more than one `f` gives Invalid |
| ParserLaws.TooManyHexSuffixes | parser/parser.go:155-158 | a hex literal with more than one `u` (either case) gives Invalid |
| ParserLaws.TooManySignedSuffixes | parser/parser.go:200-203 | a decimal literal with more than one `i` gives Invalid |
| ParserLaws.TooManyUnsignedSuffixes | parser/parser.go:241-244 | a decimal literal without `i` and with more than one `u` gives Invalid |
| ParserLaws.StrayCharInFloat | parser/parser.go:62-148 | a float literal containing a character other than a digit, `_`, `.` or `f` is Invalid, never a panic |
| ParserLaws.StrayCharInFraction | parser/parser.go:102-148 | getFloat on a fraction with such a character is Invalid |
| ParserLaws.DotWithHexMarker | parser/parser.go:53-56 | a `.` takes priority over the hex marker, and a literal having both is Invalid |
| ParserLaws.StrayCharInDecimal | parser/parser.go:196-293 | a decimal literal without suffix letters containing a character other than a digit, `_`, `+` or `-` is Invalid |
| ParserLaws.HexCaseInsensitive | parser/parser.go:51-56 | a hex literal classifies the same as its lower-cased form |
| ParserLaws.SignedRoundTrip | parser/parser.go:196-238 | the decimal text of any integer n with `i` and width N is IntN exactly when n is in [-2^(N-1), 2^(N-1)), otherwise Invalid |
| ParserLaws.UnsignedRoundTrip | parser/parser.go:239-274 | the decimal text of any n >= 0 with `u` and width N is UintN exactly when n < 2^N, otherwise Invalid |
| ParserLaws.DecimalRoundTrip | parser/parser.go:275-293 | the decimal text of any integer is Int32 exactly when it lies in the signed 32-bit range, otherwise Invalid |
| ParserLaws.FloatRoundTrip | parser/parser.go:132-147 | `a.b` in decimal is Float32 exactly when the fraction's value b is below the 32-bit float overflow threshold, whatever a is |
| ParserLaws.FloatSuffixRoundTrip | parser/parser.go:104-131 | `a.bfN` is the N-bit float kind exactly when b is below that width's overflow threshold |
| Shapes.UintShapeFlat | parser/parser.go:23 | `^(\d+[_]?)*$` holds exactly for text of digits and `_` that starts with a digit when non-empty and has no `__` |
| Shapes.HexShapeFlat | parser/parser.go:38 | the hex pattern holds exactly for text of hex digits (either case) and `_`, starting with a hex digit when non-empty, without `__` |
| Shapes.FloatShapeFlat | parser/parser.go:33 | `^([_]?\d+[_]?)*$` holds exactly for digits and `_` without `___`, not starting with `__`, not ending in `__` and not a lone `_`: one leading `_` and an interior `__` are admitted |
| Shapes.UintShapeIsFloatAndHex | parser/parser.go:23-38 | every unsigned-shaped text is also float-shaped and hex-shaped |
| Shapes.HexShapeToLower | parser/parser.go:38 | lower-casing does not change the hex shape |
| Shapes.ForeignCharBreaksShapes | parser/parser.go:23-38 | a character other than a digit and `_` breaks the unsigned and float shapes, one other than a hex digit the hex shape, and one other than a sign the signed shape |
| Shapes.CleanedDecimal | parser/parser.go:113-117 | an unsigned- or float-shaped text, cleaned, is all decimal digits, and empty only when the text was |
| Shapes.CleanedHex | parser/parser.go:186-188 | a hex-shaped text, cleaned, is all hex digits, and empty only when the text was |
| Shapes.DecimalShape | parser/parser.go:23-28 | the decimal text of a natural number has the unsigned and the signed shape and no `_` |
| Shapes.UintShapeConcat | parser/parser.go:23 | unsigned-shaped texts concatenate to an unsigned-shaped text |
| Shapes.HexShapeConcat | parser/parser.go:38 | hex-shaped texts concatenate to a hex-shaped text |
| Shapes.IntShapeConcat | parser/parser.go:28 | a signed-shaped text followed by an unsigned-shaped one is signed-shaped |
| Shapes.GroupsFlat | parser/parser.go:23 | the group recursion behind the unsigned and hex patterns equals its flat description |
| Shapes.FloatGroupsFlat | parser/parser.go:33 | the group recursion behind the float pattern equals its flat description at every place |
| Strconv.IntValidItoa | parser/parser.go:296-299 | the signed check accepts the decimal text of n exactly when n is in [-2^(N-1), 2^(N-1)) |
| Strconv.UintValidDecimal | parser/parser.go:301-304 | the unsigned check accepts the decimal text of n exactly when n < 2^N |
| Strconv.HexValidToLower | parser/parser.go:306-309 | the hex check does not depend on letter case |
| Strconv.FloatValidEmpty | parser/parser.go:311-314 | the float check rejects the empty text |
| Strconv.FloatValidShortNumerals | parser/parser.go:311-314 | the float check accepts every decimal numeral of up to 38 digits at width 32 and of up to 308 digits at width 64 |
| Strconv.ValueConcat | parser/parser.go:296-309 | the value of a concatenated numeral is the first part's value shifted by the second part's length plus the second part's value |
| Strconv.ValueBound | parser/parser.go:296-309 | a numeral of k digits in base b has a value below b^k |
| Strconv.ValueToLower | parser/parser.go:306-309 | lower-casing a numeral keeps its digits and its value |
| Strconv.NatToDecimal | token/token.go:43 | the decimal text of n is a numeral whose value is n, with no leading zero unless n is 0 |
| Strconv.Itoa | token/token.go:43 | the text of an integer is non-empty and starts with `-` exactly for negative numbers |
| Strconv.NatToDecimalInjective | token/token.go:43 | different natural numbers have different decimal texts |
| Strconv.ItoaInjective | token/token.go:43 | different integers have different texts |
| Strings.Split | parser/parser.go:65 | splitting on a character gives one more piece than there are separators, and no piece contains the separator |
| Strings.SplitJoin | parser/parser.go:65 | joining the pieces with the separator gives back the text |
| Strings.SplitOnce | parser/parser.go:65 | a text with exactly one separator splits into the parts before and after it |
| Strings.SplitChars | parser/parser.go:133 | splitting on the empty string gives one piece per character, so none for the empty text |
| Strings.Count | parser/parser.go:66 | the number of occurrences is at most the length and zero exactly when the character is absent |
| Strings.ToLower | parser/parser.go:51 | lower-casing keeps the length and lower-cases each character |
| Strings.LowerHasX | parser/parser.go:55 | the lower-cased text contains `x` exactly when the text contains `x` or `X` |
| Strings.ToLowerIdempotent | parser/parser.go:51 | lower-casing twice is lower-casing once |
| Strings.RemoveMembers | parser/parser.go:317 | removing a character keeps exactly the other characters |
| Strings.RemoveLength | parser/parser.go:317 | removing a character shortens the text by its number of occurrences |
| Strings.RemoveConcat | parser/parser.go:317 | removing a character distributes over concatenation |
| Strings.RemoveAbsent | parser/parser.go:317 | removing a character the text does not contain leaves it unchanged |
| Strings.RemoveToLower | parser/parser.go:187 | removing a non-letter such as `_` and lower-casing commute |
| Tokens.LabelsCover | token/token.go:21-33 | the label map has an entry exactly for the values 0 to 10 |
| Tokens.LabelCount | token/token.go:38 | the label map has 11 entries, so the range test of String admits exactly 0 to 10 |
| Tokens.String | token/token.go:35-47 | the label is never empty, and a value outside 0 to 10 (negative ones included) gets `token(` + its decimal text + `)` |
| Tokens.LabelsNonEmpty | token/token.go:21-33 | no entry of the map is empty, so the fallback never replaces a table label |
| Tokens.StringInRange | token/token.go:38-40 | a value 0 to 10 gets its map entry |
| Tokens.NamedLabels | token/token.go:21-33 | each of the eleven kinds gets its own label, `unsigned 16it integer` for Uint16 included |
| Tokens.TableLabelsAreNotFallbacks | token/token.go:42-44 | no table label has the form of a fallback label |
| Tokens.TableLabelsDistinct | token/token.go:21-33 | distinct kinds in the table have distinct labels |
| Tokens.StringInjective | parser/parser_test.go:95 | two kinds have equal labels exactly when they are equal, so the test's comparison of labels compares kinds |
| ParserTable.PassesExactly | parser/parser_test.go:91-98 | a row passes (its label matches the expected kind's label and nothing panicked) exactly when ParseNumber returns the expected kind |
| ParserTable.Row13 | parser/parser_test.go:13 | `120i8` passes with Int8: signed shape, width 8, 120 < 2^7 |
| ParserTable.Row14 | parser/parser_test.go:14 | `1_20i8` passes with Int8: underscores between digits are cleaned away before the range check |
| ParserTable.Row15 | parser/parser_test.go:15 | `1_2_0_i8` passes with Int8: a `_` right before the suffix letter is accepted |
| ParserTable.Row17 | parser/parser_test.go:17 | `120i16` passes with Int16: width 16 |
| ParserTable.Row18 | parser/parser_test.go:18 | `12_0i16` passes with Int16: cleaned to 120 |
| ParserTable.Row19 | parser/parser_test.go:19 | `32765i16` passes with Int16: 32765 < 2^15 |
| ParserTable.Row21 | parser/parser_test.go:21 | `1` passes with Int32: no suffix: signed 32-bit default |
| ParserTable.Row22 | parser/parser_test.go:22 | `+1` passes with Int32: a leading `+` is allowed by the signed shape and by ParseInt |
| ParserTable.Row23 | parser/parser_test.go:23 | `-1` passes with Int32: a leading `-` |
| ParserTable.Row24 | parser/parser_test.go:24 | `2147483643` passes with Int32: just below 2^31 |
| ParserTable.Row25 | parser/parser_test.go:25 | `10_000` passes with Int32: an underscore inside an unsuffixed literal |
| ParserTable.Row26 | parser/parser_test.go:26 | `10_000i32` passes with Int32: width 32 |
| ParserTable.Row27 | parser/parser_test.go:27 | `0x123` passes with Int32: unsuffixed hex: Int32 when below 2^32 |
| ParserTable.Row28 | parser/parser_test.go:28 | `0X123` passes with Int32: the hex marker may be upper case, since the hex path sees the lower-cased text |
| ParserTable.Row29 | parser/parser_test.go:29 | `10_i32` passes with Int32: a `_` before the suffix letter |
| ParserTable.Row30 | parser/parser_test.go:30 | `0x1_23` passes with Int32: underscores in an unsuffixed hex body |
| ParserTable.Row32 | parser/parser_test.go:32 | `10_000i64` passes with Int64: width 64 |
| ParserTable.Row34 | parser/parser_test.go:34 | `1_20_u8` passes with Uint8: unsigned shape, cleaned to 120 < 2^8 |
| ParserTable.Row35 | parser/parser_test.go:35 | `1_2_0_u8` passes with Uint8: a `_` before the suffix letter |
| ParserTable.Row36 | parser/parser_test.go:36 | `254_u8` passes with Uint8: 254 < 2^8 |
| ParserTable.Row38 | parser/parser_test.go:38-39 | `1_2_0_u16` passes with Uint16: width 16; lines 38 and 39 are the same row |
| ParserTable.Row40 | parser/parser_test.go:40 | `65534u16` passes with Uint16: 65534 < 2^16 |
| ParserTable.Row42 | parser/parser_test.go:42 | `10_000_000u32` passes with Uint32: width 32 |
| ParserTable.Row43 | parser/parser_test.go:43 | `429496_7293u32` passes with Uint32: 4294967293 < 2^32 |
| ParserTable.Row45 | parser/parser_test.go:45 | `10_0u64` passes with Uint64: width 64 |
| ParserTable.Row46 | parser/parser_test.go:46 | `0x123_456u64` passes with Uint64: hex with `u64`: 0x123456 < 2^64 |
| ParserTable.Row47 | parser/parser_test.go:47 | `0xa123_456u64` passes with Uint64: a hex letter digit |
| ParserTable.Row48 | parser/parser_test.go:48 | `0xA123_456u64` passes with Uint64: an upper-case hex letter digit |
| ParserTable.Row49 | parser/parser_test.go:49-50 | `0x429496_7293u64` passes with Uint64: ten hex digits fit 64 bits; lines 49 and 50 are the same row |
| ParserTable.Row52 | parser/parser_test.go:52 | `4.5f32` passes with Float32: unsigned mantissa, fraction `5`, width 32 |
| ParserTable.Row53 | parser/parser_test.go:53 | `.14` passes with Float32: the mantissa may be empty; no suffix means Float32 |
| ParserTable.Row54 | parser/parser_test.go:54 | `._14` passes with Float32: the fraction may start with `_` |
| ParserTable.Row55 | parser/parser_test.go:55 | `0._14` passes with Float32: the same with mantissa `0` |
| ParserTable.Row56 | parser/parser_test.go:56 | `60_1.45` passes with Float32: an underscore in the mantissa |
| ParserTable.Row58 | parser/parser_test.go:58 | `3.14f64` passes with Float64: width 64 |
| ParserTable.Row60 | parser/parser_test.go:60 | `binalyze` passes with Invalid: the `i` selects the signed branch, and the body `b` before it is not signed-shaped |
| ParserTable.Row61 | parser/parser_test.go:61 | `-_10_` passes with Invalid: a trailing `_` without a suffix |
| ParserTable.Row62 | parser/parser_test.go:62 | `10_` passes with Invalid: a trailing `_` without a suffix |
| ParserTable.Row63 | parser/parser_test.go:63 | `10i_32` passes with Invalid: the width text must be exactly `32` |
| ParserTable.Row64 | parser/parser_test.go:64 | `_1` passes with Invalid: a leading `_` breaks the signed shape |
| ParserTable.Row65 | parser/parser_test.go:65 | `1_u64_` passes with Invalid: the width text must be exactly `64` |
| ParserTable.Row66 | parser/parser_test.go:66 | `129i8` passes with Invalid: 129 >= 2^7 |
| ParserTable.Row67 | parser/parser_test.go:67 | `32768i16` passes with Invalid: 32768 >= 2^15 |
| ParserTable.Row68 | parser/parser_test.go:68 | `257_u8` passes with Invalid: 257 >= 2^8 |
| ParserTable.Row69 | parser/parser_test.go:69 | `65536u16` passes with Invalid: 65536 >= 2^16 |
| ParserTable.Row70 | parser/parser_test.go:70 | `2147483648` passes with Invalid: 2^31 is beyond the 32-bit default |
| ParserTable.Row71 | parser/parser_test.go:71 | `2147483647123123` passes with Invalid: at least 2147 * 10^12, beyond 2^31 |
| ParserTable.Row72 | parser/parser_test.go:72 | `4294967296u32` passes with Invalid: 2^32 is beyond Uint32 |
| ParserTable.Row73 | parser/parser_test.go:73 | `-3.14f64` passes with Invalid: a float mantissa has no sign; lines 73 and 84 are the same row |
| ParserTable.Row74 | parser/parser_test.go:74 | `-0x123_456u64` passes with Invalid: only `0` may precede the hex marker |
| ParserTable.Row75 | parser/parser_test.go:75 | `0xs123_456u64` passes with Invalid: `s` is no hex digit |
| ParserTable.Row76 | parser/parser_test.go:76 | `0x123_` passes with Invalid: a trailing `_` in an unsuffixed hex body |
| ParserTable.Row77 | parser/parser_test.go:77 | `0x429496_7293u32` passes with Invalid: ten hex digits, from 4 * 16^9 up, exceed 2^32 |
| ParserTable.Row78 | parser/parser_test.go:78 | `-0x429496_7293u64` passes with Invalid: only `0` may precede the hex marker |
| ParserTable.Row79 | parser/parser_test.go:79 | `10_I32` passes with Invalid: the decimal path keeps the case, so `I` is no suffix letter |
| ParserTable.Row80 | parser/parser_test.go:80 | `0x1_23_` passes with Invalid: a trailing `_` in an unsuffixed hex body |
| ParserTable.Row81 | parser/parser_test.go:81 | `_0x1_23_` passes with Invalid: only `0` may precede the hex marker |
| ParserTable.Row82 | parser/parser_test.go:82 | `0x_1_23_` passes with Invalid: a trailing `_` in an unsuffixed hex body |
| ParserTable.Row83 | parser/parser_test.go:83 | `3.14F64` passes with Invalid: the float path keeps the case, so `F` is no suffix letter and breaks the fraction's shape |
| ParserTable.Row85 | parser/parser_test.go:85 | `_3.14f64` passes with Invalid: a leading `_` breaks the unsigned mantissa |
| ParserTable.Row86 | parser/parser_test.go:86 | `_.14` passes with Invalid: a lone `_` is no unsigned mantissa |
| ParserTable.Row87 | parser/parser_test.go:87 | `-1_20_u8` passes with Invalid: an unsigned literal has no sign |
| ParserTable.Row88 | parser/parser_test.go:88 | `1_2__0_i8` passes with Invalid: two underscores in a row break the signed shape |
| ParserTable.Row89 | parser/parser_test.go:89 | `128i8` passes with Invalid: 2^7 is one past the largest Int8 |

## Left out

- `main.go` (the input loop, `bufio.Scanner`, `strings.Fields` and printing) is I/O and is not part of this model.
- The `regexp` engine and the compile panic in `init` (`parser/parser.go:21-42`) are not modelled. The four patterns are constants, so each is written as its own recursive predicate in `Shapes`.
- The `Parser` struct and `New` (`parser/parser.go:17-19`, `44-47`) only hold the input string, which is never changed. `ParseNumber` takes that string as its parameter.
- `Strconv.IsFloatValid` is not a model of IEEE-754 parsing. It is the overflow threshold of a correctly rounded `strconv.ParseFloat` (2^128 - 2^103 for 32 bits, 2^1024 - 2^970 for 64 bits), applied to the value of a text of ASCII digits. Only such texts reach it, and the parsed float value itself is never used.
- Non-ASCII input is out of scope. `ToLower` changes only ASCII letters, and `strings.Split(x, "")` is modelled per character rather than per UTF-8 rune.
- Concurrency is not modelled: after `init` the patterns are read-only globals.
- Round trips for hex literals are not stated as lemmas of their own. `ParserProperties.HexSuffixed` and `ParserProperties.HexDefault` cover every hex body.
