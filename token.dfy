/** The classification kinds (package `token`) and their labels. */
module Tokens {
  import opened Strconv

  /** A token kind is an integer; the named kinds are numbered in declaration order. */
  newtype Token = int

  const Invalid: Token := 0
  const Int8: Token := 1
  const Int16: Token := 2
  const Int32: Token := 3
  const Int64: Token := 4
  const Uint8: Token := 5
  const Uint16: Token := 6
  const Uint32: Token := 7
  const Uint64: Token := 8
  const Float32: Token := 9
  const Float64: Token := 10

  /** The label table, keyed by the kinds' values, including its misspelt Uint16 entry. */
  const Labels: map<Token, string> := map[
    0 := "Invalid",  // Invalid
    1 := "signed 8bit integer",  // Int8
    2 := "signed 16bit integer",  // Int16
    3 := "signed 32bit integer",  // Int32
    4 := "signed 64bit integer",  // Int64
    5 := "unsigned 8bit integer",  // Uint8
    6 := "unsigned 16it integer",  // Uint16
    7 := "unsigned 32bit integer",  // Uint32
    8 := "unsigned 64bit integer",  // Uint64
    9 := "32bit float",  // Float32
    10 := "64bit float"  // Float64
  ]

  lemma LabelKeys()
    ensures Labels.Keys == {0, 1, 2, 3, 4, 5, 6, 7, 8, 9, 10}
  {
  }

  /** The table has an entry for exactly the values 0 to 10 ... */
  lemma LabelsCover(t: Token)
    ensures t in Labels <==> 0 <= t <= 10
  {
    LabelKeys();
  }

  /** ... so len(table) is 11. */
  lemma LabelCount()
    ensures |Labels| == 11
  {
    LabelKeys();
    var low: set<Token> := {0, 1, 2, 3, 4, 5};
    var high: set<Token> := {6, 7, 8, 9, 10};
    assert |low| == 6 && |high| == 5;
    assert low * high == {};
    assert Labels.Keys == low + high;
  }

  /**
   * Token.String: the table label when the value lies in [0, len(table)) and has a
   * non-empty label, otherwise "token(" + the decimal value + ")".
   */
  function String(tok: Token): (s: string)
    ensures s != ""
    ensures (tok < 0 || tok > 10) ==> s == "token(" + Itoa(tok as int) + ")"
  {
    LabelsCover(tok);
    LabelCount();
    var s := if 0 <= tok < |Labels| as Token && tok in Labels then Labels[tok] else "";
    if s == "" then "token(" + Itoa(tok as int) + ")" else s
  }

  /** No label of the table is empty. */
  lemma LabelsNonEmpty(tok: Token)
    requires tok in Labels
    ensures Labels[tok] != ""
  {
    LabelsCover(tok);
    if tok <= 5 {
      assert tok == 0 || tok == 1 || tok == 2 || tok == 3 || tok == 4 || tok == 5;
    } else {
      assert tok == 6 || tok == 7 || tok == 8 || tok == 9 || tok == 10;
    }
  }

  /** A value 0 to 10 gets its table label. */
  lemma StringInRange(tok: Token)
    requires 0 <= tok <= 10
    ensures tok in Labels && String(tok) == Labels[tok]
  {
    LabelsCover(tok);
    LabelCount();
    LabelsNonEmpty(tok);
  }

  /** The eleven labels, one per named kind. */
  lemma NamedLabels()
    ensures String(Invalid) == "Invalid"
    ensures String(Int8) == "signed 8bit integer" && String(Int16) == "signed 16bit integer"
    ensures String(Int32) == "signed 32bit integer" && String(Int64) == "signed 64bit integer"
    ensures String(Uint8) == "unsigned 8bit integer" && String(Uint16) == "unsigned 16it integer"
    ensures String(Uint32) == "unsigned 32bit integer" && String(Uint64) == "unsigned 64bit integer"
    ensures String(Float32) == "32bit float" && String(Float64) == "64bit float"
  {
    StringInRange(Invalid);
    StringInRange(Int8);
    StringInRange(Int16);
    StringInRange(Int32);
    StringInRange(Int64);
    StringInRange(Uint8);
    StringInRange(Uint16);
    StringInRange(Uint32);
    StringInRange(Uint64);
    StringInRange(Float32);
    StringInRange(Float64);
  }

  /** No label of the table has the shape of an out-of-range label. */
  lemma TableLabelsAreNotFallbacks(tok: Token, n: int)
    requires 0 <= tok <= 10
    ensures String(tok) != "token(" + Itoa(n) + ")"
  {
    NamedLabels();
    var fallback := "token(" + Itoa(n) + ")";
    assert fallback[0] == 't';
    if tok <= 5 {
      assert tok == 0 || tok == 1 || tok == 2 || tok == 3 || tok == 4 || tok == 5;
    } else {
      assert tok == 6 || tok == 7 || tok == 8 || tok == 9 || tok == 10;
    }
  }

  /** The kind a label belongs to, read back by comparing with the table's labels in order. */
  function KindOfLabel(s: string): Token {
    if s == "Invalid" then 0
    else if s == "signed 8bit integer" then 1
    else if s == "signed 16bit integer" then 2
    else if s == "signed 32bit integer" then 3
    else if s == "signed 64bit integer" then 4
    else if s == "unsigned 8bit integer" then 5
    else if s == "unsigned 16it integer" then 6
    else if s == "unsigned 32bit integer" then 7
    else if s == "unsigned 64bit integer" then 8
    else if s == "32bit float" then 9
    else 10
  }

  lemma KindOfSignedLabel(tok: Token)
    requires 0 <= tok <= 4
    ensures KindOfLabel(Labels[tok]) == tok
  {
    if tok == 0 {
      assert Labels[0] == "Invalid";
    } else if tok == 1 {
      assert Labels[1] == "signed 8bit integer";
    } else if tok == 2 {
      assert Labels[2] == "signed 16bit integer";
    } else if tok == 3 {
      assert Labels[3] == "signed 32bit integer";
    } else {
      assert Labels[4] == "signed 64bit integer";
    }
  }

  lemma KindOfOtherLabel(tok: Token)
    requires 5 <= tok <= 10
    ensures KindOfLabel(Labels[tok]) == tok
  {
    if tok == 5 {
      assert Labels[5] == "unsigned 8bit integer";
    } else if tok == 6 {
      assert Labels[6] == "unsigned 16it integer";
    } else if tok == 7 {
      assert Labels[7] == "unsigned 32bit integer";
    } else if tok == 8 {
      assert Labels[8] == "unsigned 64bit integer";
    } else if tok == 9 {
      assert Labels[9] == "32bit float";
    } else {
      assert Labels[10] == "64bit float";
    }
  }

  /** Each label reads back to its kind. */
  lemma KindOfString(tok: Token)
    requires 0 <= tok <= 10
    ensures KindOfLabel(String(tok)) == tok
  {
    StringInRange(tok);
    if tok <= 4 {
      KindOfSignedLabel(tok);
    } else {
      KindOfOtherLabel(tok);
    }
  }

  /** Distinct kinds in the table have distinct labels, since each label reads back to its kind. */
  lemma TableLabelsDistinct(a: Token, b: Token)
    requires 0 <= a <= 10 && 0 <= b <= 10 && a != b
    ensures String(a) != String(b)
  {
    KindOfString(a);
    KindOfString(b);
  }

  /** String is injective, so comparing labels compares kinds. */
  lemma StringInjective(a: Token, b: Token)
    ensures String(a) == String(b) <==> a == b
  {
    if String(a) == String(b) && a != b {
      if 0 <= a <= 10 && 0 <= b <= 10 {
        TableLabelsDistinct(a, b);
      } else if 0 <= a <= 10 {
        TableLabelsAreNotFallbacks(a, b as int);
      } else if 0 <= b <= 10 {
        TableLabelsAreNotFallbacks(b, a as int);
      } else {
        var sa, sb := String(a), String(b);
        assert Itoa(a as int) == sa[6..|sa| - 1];
        assert Itoa(b as int) == sb[6..|sb| - 1];
        ItoaInjective(a as int, b as int);
      }
    }
  }
}
