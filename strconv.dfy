/**
 * The parts of Go's `strconv` package that the classifier and the token labels call:
 * ParseInt / ParseUint with base 10 or 16 and a bit size, ParseFloat with bit size 32 or 64,
 * reduced to whether they report an error, and Itoa.
 */
module Strconv {
  import opened Ascii
  import opened Strings

  function Pow(b: nat, e: nat): nat {
    if e == 0 then 1 else b * Pow(b, e - 1)
  }

  lemma MulAssociates(x: nat, y: nat, z: nat)
    ensures x * (y * z) == (x * y) * z
  {
  }

  lemma {:induction false} PowAdd(b: nat, m: nat, n: nat)
    ensures Pow(b, m + n) == Pow(b, m) * Pow(b, n)
  {
    if m > 0 {
      PowAdd(b, m - 1, n);
      var x, y := Pow(b, m - 1), Pow(b, n);
      assert Pow(b, m + n) == b * (x * y);
      assert Pow(b, m) == b * x;
      MulAssociates(b, x, y);
    }
  }

  lemma {:induction false} PowMonotone(b: nat, m: nat, n: nat)
    requires b > 0 && m <= n
    ensures 0 < Pow(b, m) <= Pow(b, n)
    decreases n
  {
    if m < n {
      PowMonotone(b, m, n - 1);
    } else if m > 0 {
      PowMonotone(b, m - 1, n - 1);
    }
  }

  /** The powers of two behind the 8-, 16-, 32- and 64-bit ranges. */
  lemma Pow2Values()
    ensures Pow(2, 7) == 128 && Pow(2, 8) == 256
    ensures Pow(2, 15) == 32768 && Pow(2, 16) == 65536
    ensures Pow(2, 31) == 2147483648 && Pow(2, 32) == 4294967296
    ensures Pow(2, 63) == 9223372036854775808 && Pow(2, 64) == 18446744073709551616
  {
    assert Pow(2, 7) == 128;
    PowAdd(2, 7, 1);
    PowAdd(2, 8, 7);
    PowAdd(2, 8, 8);
    PowAdd(2, 16, 15);
    PowAdd(2, 16, 16);
    PowAdd(2, 32, 31);
    PowAdd(2, 32, 32);
  }

  /** A character strconv reads as a digit: `0`-`9`, then letters, `a` or `A` being ten. */
  predicate IsAlphanumeric(c: char) {
    IsDigit(c) || 'a' <= c <= 'z' || IsUpper(c)
  }

  function DigitValue(c: char): (d: nat)
    requires IsAlphanumeric(c)
    ensures d < 36
    ensures IsDigit(c) <==> d < 10
  {
    if IsDigit(c) then c as int - '0' as int
    else LowerChar(c) as int - 'a' as int + 10
  }

  predicate IsDigitIn(c: char, base: nat) {
    IsAlphanumeric(c) && DigitValue(c) < base
  }

  lemma DigitClasses(c: char)
    ensures IsDigitIn(c, 10) <==> IsDigit(c)
    ensures IsDigitIn(c, 16) <==> IsHexDigit(c)
  {
  }

  predicate AllDigitsIn(s: string, base: nat) {
    forall i :: 0 <= i < |s| ==> IsDigitIn(s[i], base)
  }

  /** What ParseUint demands of its text: at least one digit, and only digits of the base. */
  predicate IsNumeral(s: string, base: nat) {
    |s| > 0 && AllDigitsIn(s, base)
  }

  /** The value ParseUint accumulates, `n = n*base + d`, without the 64-bit cut-off. */
  function Value(s: string, base: nat): nat
    requires AllDigitsIn(s, base)
  {
    if s == [] then 0 else Value(s[..|s| - 1], base) * base + DigitValue(s[|s| - 1])
  }

  lemma MulMonotone(x: nat, y: nat, k: nat)
    requires x <= y
    ensures x * k <= y * k
  {
  }

  lemma MulDistributes(x: nat, y: nat, z: nat, k: nat)
    ensures (x * y + z) * k == x * (k * y) + z * k
  {
  }

  lemma AllDigitsInConcat(a: string, b: string, base: nat)
    requires AllDigitsIn(a, base) && AllDigitsIn(b, base)
    ensures AllDigitsIn(a + b, base)
  {
    var s := a + b;
    forall i | 0 <= i < |s| ensures IsDigitIn(s[i], base) {
      if i >= |a| { assert s[i] == b[i - |a|]; }
    }
  }

  /** The value of one more digit on the right. */
  lemma ValueSnoc(s: string, c: char, base: nat)
    requires AllDigitsIn(s, base) && IsDigitIn(c, base)
    ensures AllDigitsIn(s + [c], base)
    ensures Value(s + [c], base) == Value(s, base) * base + DigitValue(c)
  {
    AllDigitsInConcat(s, [c], base);
    assert (s + [c])[..|s|] == s;
  }

  lemma {:induction false} ValueConcat(a: string, b: string, base: nat)
    requires AllDigitsIn(a, base) && AllDigitsIn(b, base)
    ensures AllDigitsIn(a + b, base)
    ensures Value(a + b, base) == Value(a, base) * Pow(base, |b|) + Value(b, base)
    decreases |b|
  {
    AllDigitsInConcat(a, b, base);
    if b == [] {
      assert a + b == a;
    } else {
      var b', c := b[..|b| - 1], b[|b| - 1];
      assert b == b' + [c];
      assert a + b == (a + b') + [c];
      ValueConcat(a, b', base);
      ValueSnoc(a + b', c, base);
      var va, vb', p', d := Value(a, base), Value(b', base), Pow(base, |b'|), DigitValue(c);
      assert Value(a + b, base) == (va * p' + vb') * base + d;
      assert Pow(base, |b|) == base * p';
      assert Value(b, base) == vb' * base + d;
      MulDistributes(va, p', vb', base);
    }
  }

  /** A numeral of `k` digits is below base^k. */
  lemma {:induction false} ValueBound(s: string, base: nat)
    requires AllDigitsIn(s, base)
    ensures Value(s, base) < Pow(base, |s|)
    decreases |s|
  {
    if s != [] {
      var t := s[..|s| - 1];
      ValueBound(t, base);
      var vt, p, d := Value(t, base), Pow(base, |t|), DigitValue(s[|s| - 1]);
      assert Value(s, base) == vt * base + d;
      assert vt + 1 <= p;
      assert d + 1 <= base;
      MulDistributes(vt, 1, 1, base);
      MulMonotone(vt + 1, p, base);
      assert Pow(base, |s|) == base * p;
    }
  }

  /** Lower-casing a text changes neither whether it is a numeral nor its value. */
  lemma DigitValueLower(c: char, base: nat)
    requires IsDigitIn(c, base)
    ensures IsDigitIn(LowerChar(c), base) && DigitValue(LowerChar(c)) == DigitValue(c)
  {
  }

  lemma {:induction false} ValueToLower(s: string, base: nat)
    requires AllDigitsIn(s, base)
    ensures AllDigitsIn(ToLower(s), base)
    ensures Value(ToLower(s), base) == Value(s, base)
    decreases |s|
  {
    if s != [] {
      var t, c := s[..|s| - 1], s[|s| - 1];
      assert s == t + [c];
      ValueToLower(t, base);
      ToLowerConcat(t, [c]);
      DigitValueLower(c, base);
      ValueSnoc(ToLower(t), LowerChar(c), base);
      ValueSnoc(t, c, base);
      assert ToLower(s) == ToLower(t) + [LowerChar(c)];
    }
  }

  lemma AllDigitsInToLower(s: string, base: nat)
    ensures AllDigitsIn(ToLower(s), base) <==> AllDigitsIn(s, base)
  {
    var l := ToLower(s);
    assert forall i :: 0 <= i < |s| ==> (IsDigitIn(l[i], base) <==> IsDigitIn(s[i], base));
  }

  /** strconv.ParseUint(s, 10, bitSize) returns no error. */
  predicate IsUintValid(s: string, bitSize: nat)
    requires 0 < bitSize <= 64
  {
    IsNumeral(s, 10) && Value(s, 10) < Pow(2, bitSize)
  }

  /** strconv.ParseUint(s, 16, bitSize) returns no error. */
  predicate IsHexValid(s: string, bitSize: nat)
    requires 0 < bitSize <= 64
  {
    IsNumeral(s, 16) && Value(s, 16) < Pow(2, bitSize)
  }

  /**
   * strconv.ParseInt(s, 10, bitSize) returns no error: one optional sign, then what ParseUint
   * accepts, then the cut-off 2^(bitSize-1) that a negative magnitude may reach and a
   * non-negative one may not.
   */
  predicate IsIntValid(s: string, bitSize: nat)
    requires 0 < bitSize <= 64
  {
    |s| > 0 &&
    var negative := s[0] == '-';
    var magnitude := if s[0] == '-' || s[0] == '+' then s[1..] else s;
    IsNumeral(magnitude, 10) &&
    (if negative then Value(magnitude, 10) <= Pow(2, bitSize - 1) else Value(magnitude, 10) < Pow(2, bitSize - 1))
  }

  /**
   * The smallest magnitude that ParseFloat rounds to infinity (a range error) at the given
   * bit size: half-way between the largest finite value and the next power of two,
   * where round-half-to-even goes up.
   */
  function FloatOverflow(bitSize: nat): int
    requires bitSize == 32 || bitSize == 64
  {
    if bitSize == 32 then Pow(2, 128) - Pow(2, 103) else Pow(2, 1024) - Pow(2, 970)
  }

  /**
   * strconv.ParseFloat(s, bitSize) returns no error, for text made of ASCII digits only
   * (the only text the classifier passes it): at least one digit, and a value below the
   * overflow threshold.
   */
  predicate IsFloatValid(s: string, bitSize: nat)
    requires bitSize == 32 || bitSize == 64
  {
    IsNumeral(s, 10) && Value(s, 10) < FloatOverflow(bitSize)
  }

  lemma FloatValidEmpty(bitSize: nat)
    requires bitSize == 32 || bitSize == 64
    ensures !IsFloatValid("", bitSize)
  {
  }

  lemma {:induction false} PowersOfTwo()
    ensures Pow(2, 103) == 10141204801825835211973625643008
    ensures Pow(2, 128) == 340282366920938463463374607431768211456
  {
    Pow2Values();
    PowAdd(2, 64, 32);
    PowAdd(2, 96, 7);
    PowAdd(2, 64, 64);
  }

  lemma PowSmall()
    ensures Pow(2, 2) == 4 && Pow(10, 2) == 100
  {
  }

  lemma Power2To256()
    ensures Pow(2, 256) == 115792089237316195423570985008687907853269984665640564039457584007913129639936
  {
    PowersOfTwo();
    PowAdd(2, 128, 128);
  }

  lemma Power2To512()
    ensures Pow(2, 512) == 13407807929942597099574024998205846127479365820592393377723561443721764030073546976801874298166903427690031858186486050853753882811946569946433649006084096
  {
    Power2To256();
    PowAdd(2, 256, 256);
  }

  lemma Power2To1024()
    ensures Pow(2, 1024) == 179769313486231590772930519078902473361797697894230657273430081157732675805500963132708477322407536021120113879871393357658789768814416622492847430639474124377767893424865485276302219601246094119453082952085005768838150682342462881473913110540827237163350510684586298239947245938479716304835356329624224137216
  {
    Power2To512();
    PowAdd(2, 512, 512);
  }

  lemma Power2To768()
    ensures Pow(2, 768) == 1552518092300708935148979488462502555256886017116696611139052038026050952686376886330878408828646477950487730697131073206171580044114814391444287275041181139204454976020849905550265285631598444825262999193716468750892846853816057856
  {
    Power2To512();
    Power2To256();
    PowAdd(2, 512, 256);
  }

  lemma Power2To896()
    ensures Pow(2, 896) == 528294531135665246352339784916516606518847326036121522127960709026673902556724859474417255887657187894674394993257128678882347559502685537250538978462939576908386683999005084168731517676426441053024232908211188404148028292751561738838396898767036476489538580897737998336
  {
    Power2To768();
    PowersOfTwo();
    PowAdd(2, 768, 128);
  }

  lemma Power2To960()
    ensures Pow(2, 960) == 9745314011399999080353382387875188310876226857595007526867906457212948690766426102465615065882010259225304916231408668183459169865203094046577987296312653419531277699956473029870789655490053648352799593479218378873685597925394874945746363615468965612827738803104277547081828589991914110976
  {
    Power2To896();
    Pow2Values();
    PowAdd(2, 896, 64);
  }

  lemma Power2To968()
    ensures Pow(2, 968) == 2494800386918399764570465891296048207584314075544321926878184053046514864836205082231197456865794626361678058555240619054965547485491992075923964747856039275400007091188857095646922151805453733978316695930679904991663513068901087986111069085560055196883901133594695052052948119037930012409856
  {
    Power2To960();
    Pow2Values();
    PowAdd(2, 960, 8);
  }

  lemma Power2To970()
    ensures Pow(2, 970) == 9979201547673599058281863565184192830337256302177287707512736212186059459344820328924789827463178505446712234220962476219862189941967968303695858991424157101600028364755428382587688607221814935913266783722719619966654052275604351944444276342240220787535604534378780208211792476151720049639424
  {
    Power2To968();
    PowSmall();
    PowAdd(2, 968, 2);
  }

  lemma Power10To4()
    ensures Pow(10, 4) == 10000
  {
    PowSmall();
    PowAdd(10, 2, 2);
  }

  lemma Power10To8()
    ensures Pow(10, 8) == 100000000
  {
    Power10To4();
    PowAdd(10, 4, 4);
  }

  lemma Power10To16()
    ensures Pow(10, 16) == 10000000000000000
  {
    Power10To8();
    PowAdd(10, 8, 8);
  }

  lemma Power10To32()
    ensures Pow(10, 32) == 100000000000000000000000000000000
  {
    Power10To16();
    PowAdd(10, 16, 16);
  }

  lemma Power10To64()
    ensures Pow(10, 64) == 10000000000000000000000000000000000000000000000000000000000000000
  {
    Power10To32();
    PowAdd(10, 32, 32);
  }

  lemma Power10To128()
    ensures Pow(10, 128) == 100000000000000000000000000000000000000000000000000000000000000000000000000000000000000000000000000000000000000000000000000000000
  {
    Power10To64();
    PowAdd(10, 64, 64);
  }

  lemma Power10To256()
    ensures Pow(10, 256) == 10000000000000000000000000000000000000000000000000000000000000000000000000000000000000000000000000000000000000000000000000000000000000000000000000000000000000000000000000000000000000000000000000000000000000000000000000000000000000000000000000000000000000000
  {
    Power10To128();
    PowAdd(10, 128, 128);
  }

  lemma Power10To36()
    ensures Pow(10, 36) == 1000000000000000000000000000000000000
  {
    Power10To32();
    Power10To4();
    PowAdd(10, 32, 4);
  }

  lemma Power10To38()
    ensures Pow(10, 38) == 100000000000000000000000000000000000000
  {
    Power10To36();
    PowSmall();
    PowAdd(10, 36, 2);
  }

  lemma Power10To288()
    ensures Pow(10, 288) == 1000000000000000000000000000000000000000000000000000000000000000000000000000000000000000000000000000000000000000000000000000000000000000000000000000000000000000000000000000000000000000000000000000000000000000000000000000000000000000000000000000000000000000000000000000000000000000000000000
  {
    Power10To256();
    Power10To32();
    PowAdd(10, 256, 32);
  }

  lemma Power10To304()
    ensures Pow(10, 304) == 10000000000000000000000000000000000000000000000000000000000000000000000000000000000000000000000000000000000000000000000000000000000000000000000000000000000000000000000000000000000000000000000000000000000000000000000000000000000000000000000000000000000000000000000000000000000000000000000000000000000000000
  {
    Power10To288();
    Power10To16();
    PowAdd(10, 288, 16);
  }

  lemma Power10To308()
    ensures Pow(10, 308) == 100000000000000000000000000000000000000000000000000000000000000000000000000000000000000000000000000000000000000000000000000000000000000000000000000000000000000000000000000000000000000000000000000000000000000000000000000000000000000000000000000000000000000000000000000000000000000000000000000000000000000000000
  {
    Power10To304();
    Power10To4();
    PowAdd(10, 304, 4);
  }
  /** Every digit string of up to 38 digits is a valid 32-bit float, of up to 308 digits a valid 64-bit one. */
  lemma FloatValidShortNumerals(s: string)
    requires IsNumeral(s, 10)
    ensures |s| <= 38 ==> IsFloatValid(s, 32)
    ensures |s| <= 308 ==> IsFloatValid(s, 64)
  {
    ValueBound(s, 10);
    PowersOfTwo();
    Power2To1024();
    Power2To970();
    Power10To38();
    Power10To308();
    if |s| <= 38 {
      PowMonotone(10, |s|, 38);
    }
    if |s| <= 308 {
      PowMonotone(10, |s|, 308);
    }
  }

  /** strconv.Itoa on a non-negative value: decimal digits, most significant first, no leading zero. */
  function NatToDecimal(n: nat): (s: string)
    ensures IsNumeral(s, 10) && Value(s, 10) == n
    ensures s[0] == '0' ==> n == 0
  {
    if n < 10 then ["0123456789"[n]]
    else
      var s := NatToDecimal(n / 10) + ["0123456789"[n % 10]];
      assert s[..|s| - 1] == NatToDecimal(n / 10);
      s
  }

  /** strconv.Itoa: a minus sign for negative values, then the decimal digits of the magnitude. */
  function Itoa(n: int): (s: string)
    ensures |s| > 0 && (s[0] == '-' <==> n < 0)
  {
    if n < 0 then "-" + NatToDecimal(-n) else NatToDecimal(n)
  }

  lemma {:induction false} NatToDecimalInjective(a: nat, b: nat)
    requires NatToDecimal(a) == NatToDecimal(b)
    ensures a == b
  {
  }

  lemma ItoaInjective(a: int, b: int)
    requires Itoa(a) == Itoa(b)
    ensures a == b
  {
    if a < 0 {
      assert b < 0;
      var s := Itoa(a);
      assert s == "-" + NatToDecimal(-a) == "-" + NatToDecimal(-b);
      assert s[1..] == NatToDecimal(-a);
      assert s[1..] == NatToDecimal(-b);
      NatToDecimalInjective(-a, -b);
    } else {
      assert b >= 0;
      NatToDecimalInjective(a, b);
    }
  }

  /** ParseInt accepts what Itoa prints exactly when the value fits the signed range of the bit size. */
  lemma IntValidItoa(n: int, bitSize: nat)
    requires 0 < bitSize <= 64
    ensures IsIntValid(Itoa(n), bitSize) <==> -(Pow(2, bitSize - 1) as int) <= n < Pow(2, bitSize - 1)
  {
    var s := Itoa(n);
    if n < 0 {
      assert s[1..] == NatToDecimal(-n);
    }
  }

  /** ParseUint accepts what Itoa prints for a natural number exactly when it fits the unsigned range. */
  lemma UintValidDecimal(n: nat, bitSize: nat)
    requires 0 < bitSize <= 64
    ensures IsUintValid(NatToDecimal(n), bitSize) <==> n < Pow(2, bitSize)
  {
  }

  /** ParseUint base 16 does not depend on the case of the hex digits. */
  lemma HexValidToLower(s: string, bitSize: nat)
    requires 0 < bitSize <= 64
    ensures IsHexValid(ToLower(s), bitSize) <==> IsHexValid(s, bitSize)
  {
    AllDigitsInToLower(s, 16);
    if AllDigitsIn(s, 16) {
      ValueToLower(s, 16);
    }
  }
}
