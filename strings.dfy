/**
 * The parts of Go's `strings` package that the classifier calls, on ASCII strings:
 * Contains with a one-character argument is plain sequence membership (`c in s`),
 * Count, Split on a one-character separator, Split on the empty separator,
 * ReplaceAll with an empty replacement, and ToLower.
 */
module Strings {
  import opened Ascii

  /** No character of `s` is one of `marks`. */
  predicate NoneOf(s: string, marks: string) {
    forall i :: 0 <= i < |s| ==> s[i] !in marks
  }

  lemma NoneOfConcat(a: string, b: string, marks: string)
    ensures NoneOf(a + b, marks) <==> NoneOf(a, marks) && NoneOf(b, marks)
  {
    var s := a + b;
    assert forall i :: 0 <= i < |a| ==> s[i] == a[i];
    assert forall i :: 0 <= i < |b| ==> s[|a| + i] == b[i];
  }

  /** strings.Count(s, string(c)). */
  function Count(s: string, c: char): (n: nat)
    ensures n <= |s|
    ensures n == 0 <==> c !in s
  {
    if s == [] then 0 else (if s[0] == c then 1 else 0) + Count(s[1..], c)
  }

  lemma {:induction false} CountConcat(a: string, b: string, c: char)
    ensures Count(a + b, c) == Count(a, c) + Count(b, c)
  {
    if a == [] {
      assert a + b == b;
    } else {
      assert (a + b)[1..] == a[1..] + b;
      CountConcat(a[1..], b, c);
    }
  }

  /** strings.Index(s, string(c)) when `c` occurs in `s`: the position of its first occurrence. */
  function IndexOf(s: string, c: char): (i: nat)
    requires c in s
    ensures i < |s| && s[i] == c && c !in s[..i]
  {
    if s[0] == c then 0 else 1 + IndexOf(s[1..], c)
  }

  /**
   * strings.Split(s, string(c)): the pieces between the occurrences of `c`.
   * The first piece ends just before the first occurrence.
   */
  function Split(s: string, c: char): (parts: seq<string>)
    ensures |parts| == Count(s, c) + 1
    ensures forall k :: 0 <= k < |parts| ==> c !in parts[k]
    decreases |s|
  {
    if c !in s then [s]
    else
      var i := IndexOf(s, c);
      assert s == s[..i] + [c] + s[i + 1..];
      CountConcat(s[..i] + [c], s[i + 1..], c);
      CountConcat(s[..i], [c], c);
      [s[..i]] + Split(s[i + 1..], c)
  }

  /** strings.Join(parts, string(c)), the inverse of Split. */
  function Join(parts: seq<string>, c: char): string
    requires |parts| > 0
  {
    if |parts| == 1 then parts[0] else parts[0] + [c] + Join(parts[1..], c)
  }

  lemma {:induction false} SplitJoin(s: string, c: char)
    ensures Join(Split(s, c), c) == s
    decreases |s|
  {
    if c in s {
      var i := IndexOf(s, c);
      SplitJoin(s[i + 1..], c);
      assert s == s[..i] + [c] + s[i + 1..];
    }
  }

  /** With exactly one separator, Split yields the text before it and the text after it. */
  lemma SplitOnce(a: string, b: string, c: char)
    requires c !in a && c !in b
    ensures Split(a + [c] + b, c) == [a, b]
  {
    var s := a + [c] + b;
    assert s[|a|] == c;
    var i := IndexOf(s, c);
    assert i == |a|;
    assert s[..i] == a;
    assert s[i + 1..] == b;
  }

  /** strings.Split(s, ""): one single-character string per character (one per rune on ASCII text). */
  function SplitChars(s: string): (parts: seq<string>)
    ensures |parts| == |s|
    ensures forall i :: 0 <= i < |s| ==> parts[i] == [s[i]]
  {
    seq(|s|, i requires 0 <= i < |s| => [s[i]])
  }

  /** strings.ReplaceAll(s, string(c), ""): `s` with every `c` deleted. */
  function Remove(s: string, c: char): string
  {
    if s == [] then []
    else
      var rest := Remove(s[1..], c);
      if s[0] == c then rest else [s[0]] + rest
  }

  /** Remove deletes every `c` and keeps every other character. */
  lemma {:induction false} RemoveMembers(s: string, c: char)
    ensures c !in Remove(s, c)
    ensures forall d :: d in Remove(s, c) <==> d in s && d != c
  {
    if s != [] {
      RemoveMembers(s[1..], c);
      assert forall d :: d in s <==> d == s[0] || d in s[1..];
    }
  }

  /** Remove deletes exactly the occurrences of `c`. */
  lemma {:induction false} RemoveLength(s: string, c: char)
    ensures |Remove(s, c)| == |s| - Count(s, c)
  {
    if s != [] {
      RemoveLength(s[1..], c);
    }
  }

  lemma {:induction false} RemoveConcat(a: string, b: string, c: char)
    ensures Remove(a + b, c) == Remove(a, c) + Remove(b, c)
  {
    if a == [] {
      assert a + b == b;
    } else {
      assert (a + b)[1..] == a[1..] + b;
      RemoveConcat(a[1..], b, c);
    }
  }

  lemma {:induction false} RemoveAbsent(s: string, c: char)
    requires c !in s
    ensures Remove(s, c) == s
  {
    if s != [] {
      RemoveAbsent(s[1..], c);
    }
  }

  /** strings.ToLower on ASCII text. */
  function ToLower(s: string): (l: string)
    ensures |l| == |s|
    ensures forall i :: 0 <= i < |s| ==> l[i] == LowerChar(s[i])
  {
    if s == [] then [] else [LowerChar(s[0])] + ToLower(s[1..])
  }

  lemma ToLowerConcat(a: string, b: string)
    ensures ToLower(a + b) == ToLower(a) + ToLower(b)
  {
    assert forall i :: 0 <= i < |a + b| ==> ToLower(a + b)[i] == (ToLower(a) + ToLower(b))[i];
  }

  /** The lower-cased text contains `x` exactly when the text contains `x` or `X`. */
  lemma LowerHasX(s: string)
    ensures 'x' in ToLower(s) <==> 'x' in s || 'X' in s
  {
    var l := ToLower(s);
    if 'x' in l {
      var i :| 0 <= i < |l| && l[i] == 'x';
      assert s[i] == 'x' || s[i] == 'X';
    }
    if 'x' in s {
      var i :| 0 <= i < |s| && s[i] == 'x';
      assert l[i] == 'x';
    }
    if 'X' in s {
      var i :| 0 <= i < |s| && s[i] == 'X';
      assert l[i] == 'x';
    }
  }

  /** A character that is not a letter occurs in the lower-cased text exactly when it occurs in the text. */
  lemma NonLetterInLower(s: string, c: char)
    requires IsNonLetter(c)
    ensures c in ToLower(s) <==> c in s
  {
    LowerCharFixesNonLetters(c);
    var l := ToLower(s);
    if c in l {
      var i :| 0 <= i < |l| && l[i] == c;
      assert s[i] == c;
    }
    if c in s {
      var i :| 0 <= i < |s| && s[i] == c;
      assert l[i] == c;
    }
  }

  /** A text lower-cases to a text without letters only if it is that text. */
  lemma LowerToNonLetters(w: string, t: string)
    requires forall i :: 0 <= i < |t| ==> IsNonLetter(t[i])
    ensures ToLower(w) == t <==> w == t
  {
    if ToLower(w) == t {
      forall i | 0 <= i < |w| ensures w[i] == t[i] {
        LowerCharFixesNonLetters(t[i]);
      }
    }
    if w == t {
      forall i | 0 <= i < |w| ensures LowerChar(w[i]) == t[i] {
        LowerCharFixesNonLetters(t[i]);
      }
    }
  }

  /** Lower-casing twice is lower-casing once. */
  lemma ToLowerIdempotent(s: string)
    ensures ToLower(ToLower(s)) == ToLower(s)
  {
    var l := ToLower(s);
    assert forall i :: 0 <= i < |s| ==> !IsUpper(l[i]);
  }

  /** Deleting a non-letter commutes with lower-casing. */
  lemma {:induction false} RemoveToLower(s: string, c: char)
    requires IsNonLetter(c)
    ensures Remove(ToLower(s), c) == ToLower(Remove(s, c))
  {
    if s != [] {
      LowerCharFixesNonLetters(c);
      var l := ToLower(s);
      assert l[0] == LowerChar(s[0]) && l[1..] == ToLower(s[1..]);
      RemoveToLower(s[1..], c);
      if s[0] != c {
        ToLowerConcat([s[0]], Remove(s[1..], c));
      }
    }
  }

  /** A lower-case letter occurs in the lower-cased text exactly when it or its capital occurs in the text. */
  lemma LowerHasLetter(s: string, c: char)
    requires 'a' <= c <= 'z'
    ensures c in ToLower(s) <==> c in s || (c as int - 32) as char in s
  {
    var l, u := ToLower(s), (c as int - 32) as char;
    if c in l {
      var i :| 0 <= i < |l| && l[i] == c;
      assert s[i] == c || s[i] == u;
    }
    if c in s {
      var i :| 0 <= i < |s| && s[i] == c;
      assert l[i] == c;
    }
    if u in s {
      var i :| 0 <= i < |s| && s[i] == u;
      assert l[i] == c;
    }
  }

  /** The only texts that lower-case to "0x". */
  lemma LowerIsHexPrefix(s: string)
    ensures ToLower(s) == "0x" <==> s == "0x" || s == "0X"
  {
    if ToLower(s) == "0x" {
      assert LowerChar(s[0]) == '0' && LowerChar(s[1]) == 'x';
      LowerCharFixesNonLetters('0');
      assert s == [s[0], s[1]];
    }
  }
}
