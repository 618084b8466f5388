/**
 * The four anchored digit-body patterns of the classifier, written as recursive predicates
 * that read the text left to right, each with a flat characterisation proved beside it:
 *   unsigned  ^(\d+_?)*$
 *   signed    ^[-+]?(\d+_?)*$
 *   float     ^(_?\d+_?)*$
 *   hex       ^([0-9a-fA-F]+_?)*$
 */
module Shapes {
  import opened Ascii
  import opened Strings
  import opened Strconv

  /** Which digits a group is made of: `\d` or `[0-9a-fA-F]`. */
  datatype Radix = Decimal | Hexadecimal

  predicate IsDigitOf(r: Radix, c: char) {
    if r == Decimal then IsDigit(c) else IsHexDigit(c)
  }

  /**
   * `(D+_?)*` on `s`, where `afterDigit` says whether the text just before `s` ended a digit
   * run of the current group (so that one `_` may close the group).
   */
  predicate Groups(r: Radix, s: string, afterDigit: bool)
    decreases |s|
  {
    if s == [] then true
    else if IsDigitOf(r, s[0]) then Groups(r, s[1..], true)
    else s[0] == '_' && afterDigit && Groups(r, s[1..], false)
  }

  /** ^(\d+[_]?)*$ */
  predicate UintShape(s: string) {
    Groups(Decimal, s, false)
  }

  /** ^([0-9a-fA-F]+[_]?)*$ */
  predicate HexShape(s: string) {
    Groups(Hexadecimal, s, false)
  }

  /** ^[-+]?(\d+[_]?)*$ : an optional sign, then the unsigned shape. */
  predicate IntShape(s: string) {
    if |s| > 0 && (s[0] == '+' || s[0] == '-') then UintShape(s[1..]) else UintShape(s)
  }

  /**
   * Where `(_?\d+_?)*` stands: between groups (at the start, or after a group that may
   * have taken its trailing `_`), just after a group's leading `_`, or inside a digit run.
   */
  datatype FloatPlace = Between | AfterLeadingSep | InDigits

  predicate FloatGroups(s: string, at: FloatPlace)
    decreases |s|
  {
    if s == [] then at != AfterLeadingSep
    else if IsDigit(s[0]) then FloatGroups(s[1..], InDigits)
    else if s[0] != '_' then false
    else match at
      case Between => FloatGroups(s[1..], AfterLeadingSep)
      case AfterLeadingSep => false
      case InDigits => FloatGroups(s[1..], Between)
  }

  /** ^([_]?\d+[_]?)*$ */
  predicate FloatShape(s: string) {
    FloatGroups(s, Between)
  }

  // Flat descriptions.

  predicate DigitsAndSeps(r: Radix, s: string) {
    forall i :: 0 <= i < |s| ==> IsDigitOf(r, s[i]) || s[i] == '_'
  }

  predicate NoDoubleSep(s: string) {
    forall i :: 0 <= i < |s| - 1 ==> !(s[i] == '_' && s[i + 1] == '_')
  }

  predicate NoTripleSep(s: string) {
    forall i :: 0 <= i < |s| - 2 ==> !(s[i] == '_' && s[i + 1] == '_' && s[i + 2] == '_')
  }

  predicate StartsWithDoubleSep(s: string) {
    |s| >= 2 && s[0] == '_' && s[1] == '_'
  }

  predicate EndsWithDoubleSep(s: string) {
    |s| >= 2 && s[|s| - 2] == '_' && s[|s| - 1] == '_'
  }

  lemma ConsDigitsAndSeps(r: Radix, c: char, t: string)
    ensures DigitsAndSeps(r, [c] + t) <==> (IsDigitOf(r, c) || c == '_') && DigitsAndSeps(r, t)
  {
    var s := [c] + t;
    assert s[0] == c;
    assert forall i :: 0 <= i < |t| ==> t[i] == s[i + 1];
    assert forall i :: 0 < i < |s| ==> s[i] == t[i - 1];
  }

  lemma ConsNoDoubleSep(c: char, t: string)
    ensures NoDoubleSep([c] + t) <==> NoDoubleSep(t) && !(c == '_' && |t| > 0 && t[0] == '_')
  {
    var s := [c] + t;
    assert s[0] == c && (|t| > 0 ==> s[1] == t[0]);
    if NoDoubleSep(s) {
      forall i | 0 <= i < |t| - 1 ensures !(t[i] == '_' && t[i + 1] == '_') {
        assert t[i] == s[i + 1] && t[i + 1] == s[i + 2];
      }
    }
    if NoDoubleSep(t) && !(c == '_' && |t| > 0 && t[0] == '_') {
      forall i | 0 <= i < |s| - 1 ensures !(s[i] == '_' && s[i + 1] == '_') {
        if i > 0 { assert s[i] == t[i - 1] && s[i + 1] == t[i]; }
      }
    }
  }

  lemma ConsNoTripleSep(c: char, t: string)
    ensures NoTripleSep([c] + t) <==> NoTripleSep(t) && !(c == '_' && StartsWithDoubleSep(t))
  {
    var s := [c] + t;
    assert s[0] == c && (|t| > 1 ==> s[1] == t[0] && s[2] == t[1]);
    if NoTripleSep(s) {
      forall i | 0 <= i < |t| - 2 ensures !(t[i] == '_' && t[i + 1] == '_' && t[i + 2] == '_') {
        assert t[i] == s[i + 1] && t[i + 1] == s[i + 2] && t[i + 2] == s[i + 3];
      }
    }
    if NoTripleSep(t) && !(c == '_' && StartsWithDoubleSep(t)) {
      forall i | 0 <= i < |s| - 2 ensures !(s[i] == '_' && s[i + 1] == '_' && s[i + 2] == '_') {
        if i > 0 { assert s[i] == t[i - 1] && s[i + 1] == t[i] && s[i + 2] == t[i + 1]; }
      }
    }
  }

  /** How the flat descriptions of `[c] + t` follow from those of `t`. */
  lemma ConsFacts(r: Radix, c: char, t: string)
    ensures DigitsAndSeps(r, [c] + t) <==> (IsDigitOf(r, c) || c == '_') && DigitsAndSeps(r, t)
    ensures NoDoubleSep([c] + t) <==> NoDoubleSep(t) && !(c == '_' && |t| > 0 && t[0] == '_')
    ensures NoTripleSep([c] + t) <==> NoTripleSep(t) && !(c == '_' && StartsWithDoubleSep(t))
    ensures StartsWithDoubleSep([c] + t) <==> c == '_' && |t| > 0 && t[0] == '_'
    ensures EndsWithDoubleSep([c] + t) <==> EndsWithDoubleSep(t) || (c == '_' && t == "_")
  {
    ConsDigitsAndSeps(r, c, t);
    ConsNoDoubleSep(c, t);
    ConsNoTripleSep(c, t);
    var s := [c] + t;
    if |t| >= 2 {
      assert s[|s| - 2] == t[|t| - 2] && s[|s| - 1] == t[|t| - 1];
    }
  }

  lemma {:induction false} GroupsFlat(r: Radix, s: string, afterDigit: bool)
    ensures Groups(r, s, afterDigit) <==>
      DigitsAndSeps(r, s) && (|s| > 0 && s[0] == '_' ==> afterDigit) && NoDoubleSep(s)
    decreases |s|
  {
    if s != [] {
      var t := s[1..];
      assert s == [s[0]] + t;
      ConsFacts(r, s[0], t);
      GroupsFlat(r, t, IsDigitOf(r, s[0]));
    }
  }

  /** The flat description of what may follow at each place of the float pattern. */
  predicate FloatFlat(s: string, at: FloatPlace) {
    DigitsAndSeps(Decimal, s) && NoTripleSep(s) && !EndsWithDoubleSep(s) &&
    match at
      case Between => !StartsWithDoubleSep(s) && s != "_"
      case AfterLeadingSep => |s| > 0 && IsDigit(s[0])
      case InDigits => true
  }

  lemma {:induction false} FloatGroupsFlat(s: string, at: FloatPlace)
    ensures FloatGroups(s, at) <==> FloatFlat(s, at)
    decreases |s|
  {
    if s != [] {
      var t := s[1..];
      assert s == [s[0]] + t;
      ConsFacts(Decimal, s[0], t);
      if IsDigit(s[0]) {
        FloatGroupsFlat(t, InDigits);
      } else if s[0] == '_' && at == Between {
        FloatGroupsFlat(t, AfterLeadingSep);
      } else if s[0] == '_' && at == InDigits {
        FloatGroupsFlat(t, Between);
      }
    }
  }

  /**
   * The float shape: only digits and `_`, no `___`, no `__` at either end, and not `_` alone;
   * unlike the unsigned shape it admits one leading `_` and a `__` between digits.
   */
  lemma FloatShapeFlat(s: string)
    ensures FloatShape(s) <==>
      DigitsAndSeps(Decimal, s) && NoTripleSep(s) &&
      !StartsWithDoubleSep(s) && !EndsWithDoubleSep(s) && s != "_"
  {
    FloatGroupsFlat(s, Between);
  }

  /** The unsigned shape: only digits and `_`, a digit first, and never two `_` in a row. */
  lemma UintShapeFlat(s: string)
    ensures UintShape(s) <==>
      DigitsAndSeps(Decimal, s) && (|s| > 0 ==> IsDigit(s[0])) && NoDoubleSep(s)
  {
    GroupsFlat(Decimal, s, false);
  }

  /** The hex shape: the same, with hex digits of either case. */
  lemma HexShapeFlat(s: string)
    ensures HexShape(s) <==>
      DigitsAndSeps(Hexadecimal, s) && (|s| > 0 ==> IsHexDigit(s[0])) && NoDoubleSep(s)
  {
    GroupsFlat(Hexadecimal, s, false);
  }

  /** Every text of the unsigned shape also has the float shape and the hex shape. */
  lemma UintShapeIsFloatAndHex(s: string)
    requires UintShape(s)
    ensures FloatShape(s) && HexShape(s)
  {
    UintShapeFlat(s);
    FloatShapeFlat(s);
    HexShapeFlat(s);
    assert DigitsAndSeps(Hexadecimal, s) by {
      forall i | 0 <= i < |s| ensures IsHexDigit(s[i]) || s[i] == '_' {
        assert IsDigit(s[i]) || s[i] == '_';
      }
    }
    assert NoTripleSep(s) by {
      forall i | 0 <= i < |s| - 2 ensures !(s[i] == '_' && s[i + 1] == '_' && s[i + 2] == '_') {
        assert !(s[i] == '_' && s[i + 1] == '_');
      }
    }
    assert |s| >= 2 ==> !(s[|s| - 2] == '_' && s[|s| - 1] == '_');
  }

  /** The hex shape ignores the case of the hex digits. */
  lemma HexShapeToLower(s: string)
    ensures HexShape(ToLower(s)) <==> HexShape(s)
  {
    var l := ToLower(s);
    HexShapeFlat(s);
    HexShapeFlat(l);
    assert forall i :: 0 <= i < |s| ==> (IsHexDigit(l[i]) <==> IsHexDigit(s[i])) && (l[i] == '_' <==> s[i] == '_');
  }

  /** A character that is no digit, no `_` and no sign rules out the decimal shapes wherever it occurs. */
  lemma ForeignCharBreaksShapes(s: string, c: char)
    requires c in s && !IsDigit(c) && c != '_'
    ensures !UintShape(s) && !FloatShape(s)
    ensures !IsHexDigit(c) ==> !HexShape(s)
    ensures c != '+' && c != '-' ==> !IntShape(s)
  {
    var i :| 0 <= i < |s| && s[i] == c;
    UintShapeFlat(s);
    FloatShapeFlat(s);
    HexShapeFlat(s);
    if |s| > 0 && (s[0] == '+' || s[0] == '-') && c != '+' && c != '-' {
      assert s[1..][i - 1] == c;
      UintShapeFlat(s[1..]);
    }
  }

  /** A text that has a decimal shape is empty, or cleans to a non-empty decimal numeral. */
  lemma CleanedDecimal(s: string)
    requires UintShape(s) || FloatShape(s)
    ensures AllDigitsIn(Remove(s, '_'), 10)
    ensures Remove(s, '_') == [] <==> s == []
  {
    UintShapeFlat(s);
    FloatShapeFlat(s);
    var r := Remove(s, '_');
    RemoveMembers(s, '_');
    forall i | 0 <= i < |r| ensures IsDigitIn(r[i], 10) {
      assert r[i] in s;
      DigitClasses(r[i]);
    }
    if s != [] {
      if IsDigit(s[0]) {
        assert s[0] in r;
      } else {
        assert s[0] == '_';
        assert |s| >= 2 && IsDigit(s[1]);
        assert s[1] in r;
      }
    }
  }

  /** A text of the hex shape is empty, or cleans to a non-empty hex numeral. */
  lemma CleanedHex(s: string)
    requires HexShape(s)
    ensures AllDigitsIn(Remove(s, '_'), 16)
    ensures Remove(s, '_') == [] <==> s == []
  {
    HexShapeFlat(s);
    var r := Remove(s, '_');
    RemoveMembers(s, '_');
    forall i | 0 <= i < |r| ensures IsDigitIn(r[i], 16) {
      assert r[i] in s;
      DigitClasses(r[i]);
    }
    if s != [] {
      assert s[0] in r;
    }
  }

  /** What Itoa prints for a natural number has the unsigned shape and nothing for clearing to remove. */
  lemma DecimalShape(n: nat)
    ensures UintShape(NatToDecimal(n)) && IntShape(NatToDecimal(n))
    ensures Remove(NatToDecimal(n), '_') == NatToDecimal(n)
  {
    var s := NatToDecimal(n);
    assert forall i :: 0 <= i < |s| ==> IsDigitIn(s[i], 10);
    forall i | 0 <= i < |s| ensures IsDigit(s[i]) {
      DigitClasses(s[i]);
    }
    UintShapeFlat(s);
    RemoveAbsent(s, '_');
  }

  // Concatenation: each pattern is a starred group, so its texts are closed under concatenation.

  /** A `_` may only close a group, so a text that parses at the start also parses after a digit. */
  lemma GroupsAfterDigit(r: Radix, s: string)
    requires Groups(r, s, false)
    ensures Groups(r, s, true)
  {
  }

  lemma {:induction false} GroupsConcat(r: Radix, a: string, b: string, afterDigit: bool)
    requires Groups(r, a, afterDigit) && Groups(r, b, false)
    ensures Groups(r, a + b, afterDigit)
    decreases |a|
  {
    if a == [] {
      assert a + b == b;
      if afterDigit {
        GroupsAfterDigit(r, b);
      }
    } else {
      assert (a + b)[0] == a[0] && (a + b)[1..] == a[1..] + b;
      GroupsConcat(r, a[1..], b, IsDigitOf(r, a[0]));
    }
  }

  lemma UintShapeConcat(a: string, b: string)
    requires UintShape(a) && UintShape(b)
    ensures UintShape(a + b)
  {
    GroupsConcat(Decimal, a, b, false);
  }

  lemma HexShapeConcat(a: string, b: string)
    requires HexShape(a) && HexShape(b)
    ensures HexShape(a + b)
  {
    GroupsConcat(Hexadecimal, a, b, false);
  }

  /** A signed-shaped text followed by an unsigned-shaped one is signed-shaped. */
  lemma IntShapeConcat(a: string, b: string)
    requires IntShape(a) && UintShape(b)
    ensures IntShape(a + b)
  {
    if |a| > 0 && (a[0] == '+' || a[0] == '-') {
      assert (a + b)[1..] == a[1..] + b;
      UintShapeConcat(a[1..], b);
    } else {
      UintShapeConcat(a, b);
      if a == [] {
        assert a + b == b;
        UintShapeFlat(b);
      }
    }
  }
}
