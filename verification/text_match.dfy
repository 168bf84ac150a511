/**
 * Case-insensitive substring matching, as used by the kiosk module when it
 * compares accessibility-service names against keyword lists, and the
 * lexicographic string order used to sort application labels.
 *
 * Only ASCII letters are folded: `Lower` maps 'A'..'Z' to 'a'..'z' and
 * leaves every other character alone.
 */
module TextMatch {

  predicate IsUpper(c: char) {
    'A' <= c <= 'Z'
  }

  function LowerChar(c: char): (r: char)
    ensures !IsUpper(r)
    ensures IsUpper(c) ==> r as int == c as int + 32
    ensures !IsUpper(c) ==> r == c
  {
    if IsUpper(c) then (c as int + 32) as char else c
  }

  /** ASCII lower-case image of a string, character by character. */
  function Lower(s: string): (r: string)
    ensures |r| == |s|
    ensures forall i :: 0 <= i < |s| ==> r[i] == LowerChar(s[i])
  {
    seq(|s|, i requires 0 <= i < |s| => LowerChar(s[i]))
  }

  /** A string with no ASCII upper-case letter. */
  predicate NoUpper(s: string) {
    forall c | c in s :: !IsUpper(c)
  }

  /** True iff `p` occurs in `s` at some offset. */
  predicate Contains(s: string, p: string) {
    exists i :: 0 <= i <= |s| - |p| && p <= s[i..]
  }

  /** `s.contains(p, ignoreCase = true)` restricted to ASCII case folding. */
  predicate ContainsIgnoreCase(s: string, p: string) {
    Contains(Lower(s), Lower(p))
  }

  /** True iff some pattern of `patterns` occurs in `s`, ignoring case. */
  predicate MatchesAny(s: string, patterns: seq<string>) {
    exists k :: 0 <= k < |patterns| && ContainsIgnoreCase(s, patterns[k])
  }

  lemma LowerOfNoUpper(s: string)
    requires NoUpper(s)
    ensures Lower(s) == s
  {
    forall i | 0 <= i < |s|
      ensures Lower(s)[i] == s[i]
    {
      assert s[i] in s;
    }
  }

  /** Exhibiting an offset proves containment. */
  lemma ContainsAt(s: string, p: string, i: nat)
    requires i + |p| <= |s| && s[i..i + |p|] == p
    ensures Contains(s, p)
  {
    assert p <= s[i..];
  }

  /** A pattern holding a character the text lacks cannot occur in it. */
  lemma NotContainsMissingChar(s: string, p: string, c: char)
    requires c in p && c !in s
    ensures !Contains(s, p)
  {
    var k :| 0 <= k < |p| && p[k] == c;
    forall i | 0 <= i <= |s| - |p|
      ensures !(p <= s[i..])
    {
      assert s[i + k] in s;
    }
  }

  /** ASCII upper-case image of a character. */
  function UpperChar(c: char): char {
    if 'a' <= c <= 'z' then (c as int - 32) as char else c
  }

  /**
   * The same, for case-insensitive matching of a lower-case pattern: the text
   * must lack the character in both cases.
   */
  lemma NotContainsIgnoreCaseMissingChar(s: string, p: string, c: char)
    requires NoUpper(p) && c in p && c !in s && UpperChar(c) !in s
    ensures !ContainsIgnoreCase(s, p)
  {
    LowerOfNoUpper(p);
    forall i | 0 <= i < |s|
      ensures Lower(s)[i] != c
    {
      assert s[i] in s;
    }
    NotContainsMissingChar(Lower(s), p, c);
  }

  /** The UTF-16 code units of one character: one below U+10000, else a surrogate pair. */
  function Utf16Units(c: char): (u: seq<int>)
    ensures 1 <= |u| <= 2
    ensures forall k | 0 <= k < |u| :: 0 <= u[k] < 0x1_0000
    ensures |u| == 2 <==> 0xD800 <= u[0] < 0xDC00
    ensures |u| == 1 ==> u[0] == c as int
  {
    var n := c as int;
    if n < 0x1_0000 then [n]
    else [0xD800 + (n - 0x1_0000) / 0x400, 0xDC00 + (n - 0x1_0000) % 0x400]
  }

  /** The UTF-16 encoding of a string, as Kotlin and Java store it. */
  function Utf16(s: string): (u: seq<int>)
    ensures |s| <= |u| <= 2 * |s|
  {
    if |s| == 0 then [] else Utf16Units(s[0]) + Utf16(s[1..])
  }

  lemma Utf16UnitsInjective(c: char, d: char)
    requires Utf16Units(c) == Utf16Units(d)
    ensures c == d
  {
    var n, m := c as int, d as int;
    if n >= 0x1_0000 {
      var q, r := (n - 0x1_0000) / 0x400, (n - 0x1_0000) % 0x400;
      var q', r' := (m - 0x1_0000) / 0x400, (m - 0x1_0000) % 0x400;
      assert q == q' && r == r';
      assert n - 0x1_0000 == q * 0x400 + r;
      assert m - 0x1_0000 == q' * 0x400 + r';
    }
  }

  /** Different strings have different encodings. */
  lemma {:induction false} Utf16Injective(a: string, b: string)
    requires Utf16(a) == Utf16(b)
    ensures a == b
    decreases |a|
  {
    if |a| > 0 && |b| > 0 {
      var ua, ub := Utf16Units(a[0]), Utf16Units(b[0]);
      assert ua[0] == Utf16(a)[0] && ub[0] == Utf16(b)[0];
      assert |ua| == |ub|;
      assert ua == Utf16(a)[..|ua|] && ub == Utf16(b)[..|ub|];
      Utf16UnitsInjective(a[0], b[0]);
      assert Utf16(a[1..]) == Utf16(a)[|ua|..] == Utf16(b)[|ub|..] == Utf16(b[1..]);
      Utf16Injective(a[1..], b[1..]);
      assert a == [a[0]] + a[1..] && b == [b[0]] + b[1..];
    }
  }

  /** Lexicographic order on code-unit sequences, a proper prefix first. */
  predicate UnitsLeq(a: seq<int>, b: seq<int>)
    decreases |a|
  {
    if |a| == 0 then true
    else if |b| == 0 then false
    else if a[0] != b[0] then a[0] < b[0]
    else UnitsLeq(a[1..], b[1..])
  }

  /**
   * Kotlin's `String.compareTo`: lexicographic on UTF-16 code units, so a
   * character above U+FFFF sorts by its leading surrogate.
   */
  predicate StrLeq(a: string, b: string) {
    UnitsLeq(Utf16(a), Utf16(b))
  }

  lemma {:induction false} UnitsLeqReflexive(a: seq<int>)
    ensures UnitsLeq(a, a)
    decreases |a|
  {
    if |a| > 0 {
      UnitsLeqReflexive(a[1..]);
    }
  }

  lemma {:induction false} UnitsLeqTotal(a: seq<int>, b: seq<int>)
    ensures UnitsLeq(a, b) || UnitsLeq(b, a)
    decreases |a|
  {
    if |a| > 0 && |b| > 0 && a[0] == b[0] {
      UnitsLeqTotal(a[1..], b[1..]);
    }
  }

  lemma {:induction false} UnitsLeqTransitive(a: seq<int>, b: seq<int>, c: seq<int>)
    requires UnitsLeq(a, b) && UnitsLeq(b, c)
    ensures UnitsLeq(a, c)
    decreases |a|
  {
    if |a| > 0 && |b| > 0 && |c| > 0 && a[0] == b[0] && b[0] == c[0] {
      UnitsLeqTransitive(a[1..], b[1..], c[1..]);
    }
  }

  lemma {:induction false} UnitsLeqAntisymmetric(a: seq<int>, b: seq<int>)
    requires UnitsLeq(a, b) && UnitsLeq(b, a)
    ensures a == b
    decreases |a|
  {
    if |a| > 0 && |b| > 0 {
      UnitsLeqAntisymmetric(a[1..], b[1..]);
      assert a == [a[0]] + a[1..];
      assert b == [b[0]] + b[1..];
    }
  }

  lemma StrLeqReflexive(a: string)
    ensures StrLeq(a, a)
  {
    UnitsLeqReflexive(Utf16(a));
  }

  lemma StrLeqTotal(a: string, b: string)
    ensures StrLeq(a, b) || StrLeq(b, a)
  {
    UnitsLeqTotal(Utf16(a), Utf16(b));
  }

  lemma StrLeqTransitive(a: string, b: string, c: string)
    requires StrLeq(a, b) && StrLeq(b, c)
    ensures StrLeq(a, c)
  {
    UnitsLeqTransitive(Utf16(a), Utf16(b), Utf16(c));
  }

  lemma StrLeqAntisymmetric(a: string, b: string)
    requires StrLeq(a, b) && StrLeq(b, a)
    ensures a == b
  {
    UnitsLeqAntisymmetric(Utf16(a), Utf16(b));
    Utf16Injective(a, b);
  }

  /**
   * Code-unit order differs from code-point order: U+1F600 sorts before
   * U+FF21 because its leading surrogate 0xD83D is below 0xFF21.
   */
  lemma SurrogatesSortBeforeHighBmp()
    ensures StrLeq("\U{1F600}", "\U{FF21}") && !StrLeq("\U{FF21}", "\U{1F600}")
    ensures '\U{1F600}' as int > '\U{FF21}' as int
  {
    assert Utf16("\U{1F600}") == [0xD83D, 0xDE00];
    assert Utf16("\U{FF21}") == [0xFF21];
  }
}
