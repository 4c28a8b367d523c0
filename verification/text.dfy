/**
  String helpers shared by the components: the parts of JavaScript's
  String.prototype that the campus-card client relies on (trim,
  toLowerCase, includes, startsWith, Array.prototype.join), written over
  Dafny's `string`, a sequence of Unicode scalar values.
*/
module Text {

  /** The characters ECMAScript's `trim` removes: WhiteSpace and LineTerminator. */
  predicate IsSpace(c: char) {
    || c == '\t' || c == '\n' || c == '\U{000B}' || c == '\U{000C}' || c == '\r' || c == ' '
    || c == '\U{00A0}' || c == '\U{1680}' || ('\U{2000}' <= c <= '\U{200A}')
    || c == '\U{2028}' || c == '\U{2029}' || c == '\U{202F}' || c == '\U{205F}'
    || c == '\U{3000}' || c == '\U{FEFF}'
  }

  predicate IsBlank(s: string) {
    forall i :: 0 <= i < |s| ==> IsSpace(s[i])
  }

  /** `s` with its leading spaces removed. */
  function TrimStart(s: string): (r: string)
    ensures |r| <= |s| && r == s[|s| - |r|..]
    ensures |r| > 0 ==> !IsSpace(r[0])
    ensures IsBlank(s[..|s| - |r|])
    decreases |s|
  {
    if |s| > 0 && IsSpace(s[0]) then TrimStart(s[1..]) else s
  }

  /** `s` with its trailing spaces removed. */
  function TrimEnd(s: string): (r: string)
    ensures |r| <= |s| && r == s[..|r|]
    ensures |r| > 0 ==> !IsSpace(r[|r| - 1])
    ensures IsBlank(s[|r|..])
    decreases |s|
  {
    if |s| > 0 && IsSpace(s[|s| - 1]) then TrimEnd(s[..|s| - 1]) else s
  }

  /** JavaScript's `s.trim()`. */
  function Trim(s: string): (r: string)
    ensures |r| <= |s|
    ensures |r| > 0 ==> !IsSpace(r[0]) && !IsSpace(r[|r| - 1])
  {
    TrimEnd(TrimStart(s))
  }

  /** ASCII case mapping; every other character is left as it is. */
  function LowerChar(c: char): (d: char)
    ensures !('A' <= d <= 'Z')
    ensures 'A' <= c <= 'Z' || d == c
  {
    if 'A' <= c <= 'Z' then (c as int + 32) as char else c
  }

  /** JavaScript's `s.toLowerCase()`, restricted to ASCII letters. */
  function Lower(s: string): (r: string)
    ensures |r| == |s|
    ensures forall i :: 0 <= i < |s| ==> r[i] == LowerChar(s[i])
  {
    seq(|s|, i requires 0 <= i < |s| => LowerChar(s[i]))
  }

  predicate StartsWith(s: string, prefix: string) {
    |prefix| <= |s| && s[..|prefix|] == prefix
  }

  /** `needle` occurs in `hay` starting at position `i`. */
  predicate OccursAt(hay: string, needle: string, i: int) {
    0 <= i && i + |needle| <= |hay| && hay[i..i + |needle|] == needle
  }

  /** JavaScript's `hay.includes(needle)`. */
  predicate Contains(hay: string, needle: string) {
    exists i :: 0 <= i <= |hay| && OccursAt(hay, needle, i)
  }

  /** JavaScript's `parts.join(sep)`. */
  function Join(parts: seq<string>, sep: string): string {
    if |parts| == 0 then ""
    else if |parts| == 1 then parts[0]
    else parts[0] + sep + Join(parts[1..], sep)
  }

  /** Position of the first `c` in `s`, or `|s|` when there is none. */
  function IndexOf(s: string, c: char): (k: nat)
    ensures k <= |s|
    ensures k < |s| ==> s[k] == c
    ensures forall i :: 0 <= i < k ==> s[i] != c
  {
    if |s| == 0 then 0
    else if s[0] == c then 0
    else 1 + IndexOf(s[1..], c)
  }

  // ---------- Lemmas ----------

  /** Trimming keeps exactly the middle of `s`: what it drops on either side is space. */
  lemma TrimIsInfix(s: string)
    ensures exists k :: (0 <= k && k + |Trim(s)| <= |s| && OccursAt(s, Trim(s), k)
                         && IsBlank(s[..k]) && IsBlank(s[k + |Trim(s)|..]))
  {
    var k := |s| - |TrimStart(s)|;
    TrimOccursAt(s, k);
    TrimDropsSpace(s, k);
  }

  lemma TrimOccursAt(s: string, k: int)
    requires k == |s| - |TrimStart(s)|
    ensures k + |Trim(s)| <= |s| && OccursAt(s, Trim(s), k)
  {
    var t := TrimStart(s);
    var r := TrimEnd(t);
    PrefixOfSuffixOccurs(s, k, t, r);
  }

  lemma PrefixOfSuffixOccurs(s: string, k: int, t: string, r: string)
    requires 0 <= k <= |s| && t == s[k..] && |r| <= |t| && r == t[..|r|]
    ensures k + |r| <= |s| && OccursAt(s, r, k)
  {
    assert s[k..][..|r|] == s[k..k + |r|];
  }

  lemma TrimDropsSpace(s: string, k: int)
    requires k == |s| - |TrimStart(s)|
    ensures IsBlank(s[..k]) && IsBlank(s[k + |Trim(s)|..])
  {
    var t, r := TrimStart(s), Trim(s);
    assert IsBlank(t[|r|..]);
    assert s[k + |r|..] == t[|r|..];
  }

  /** The trimmed string is empty exactly when the input is all space. */
  lemma TrimEmptyIffBlank(s: string)
    ensures Trim(s) == [] <==> IsBlank(s)
  {
    var t := TrimStart(s);
    if !IsBlank(s) {
      var j :| 0 <= j < |s| && !IsSpace(s[j]);
      assert |t| > 0;
    }
  }

  lemma {:induction false} TrimStartOfTrimmed(s: string)
    requires |s| > 0 ==> !IsSpace(s[0])
    ensures TrimStart(s) == s
  {
  }

  lemma {:induction false} TrimEndOfTrimmed(s: string)
    requires |s| > 0 ==> !IsSpace(s[|s| - 1])
    ensures TrimEnd(s) == s
  {
  }

  /** A string that neither starts nor ends with space is its own trim. */
  lemma TrimOfUnpadded(s: string)
    requires |s| > 0 ==> !IsSpace(s[0]) && !IsSpace(s[|s| - 1])
    ensures Trim(s) == s
  {
    TrimStartOfTrimmed(s);
  }

  /** Trimming twice is trimming once. */
  lemma TrimIdempotent(s: string)
    ensures Trim(Trim(s)) == Trim(s)
  {
    var r := Trim(s);
    TrimStartOfTrimmed(r);
    assert TrimStart(r) == r;
    assert |r| > 0 ==> IsSpace(r[|r| - 1]) == false;
  }

  lemma {:induction false} TrimStartSkipsPadding(pad: string, s: string)
    requires IsBlank(pad)
    ensures TrimStart(pad + s) == TrimStart(s)
    decreases |pad|
  {
    if |pad| > 0 {
      assert (pad + s)[0] == pad[0];
      assert (pad + s)[1..] == pad[1..] + s;
      TrimStartSkipsPadding(pad[1..], s);
    } else {
      assert pad + s == s;
    }
  }

  lemma {:induction false} TrimEndSkipsPadding(s: string, pad: string)
    requires IsBlank(pad)
    ensures TrimEnd(s + pad) == TrimEnd(s)
    decreases |pad|
  {
    if |pad| > 0 {
      var n := |s + pad|;
      assert (s + pad)[n - 1] == pad[|pad| - 1];
      assert (s + pad)[..n - 1] == s + pad[..|pad| - 1];
      TrimEndSkipsPadding(s, pad[..|pad| - 1]);
    } else {
      assert s + pad == s;
    }
  }

  lemma TrimStartOfSuffixPadded(s: string, pad: string)
    requires IsBlank(pad)
    ensures TrimStart(s + pad) == TrimStart(s) + pad || IsBlank(s)
    decreases |s|
  {
    if |s| > 0 && IsSpace(s[0]) {
      assert (s + pad)[1..] == s[1..] + pad;
      TrimStartOfSuffixPadded(s[1..], pad);
      if IsBlank(s[1..]) {
        forall i | 0 <= i < |s| ensures IsSpace(s[i]) {
          if i > 0 { assert s[1..][i - 1] == s[i]; }
        }
      }
    }
  }

  lemma BlankConcat(a: string, b: string)
    requires IsBlank(a) && IsBlank(b)
    ensures IsBlank(a + b)
  {
    forall i | 0 <= i < |a + b| ensures IsSpace((a + b)[i]) {
      if i >= |a| { assert (a + b)[i] == b[i - |a|]; }
    }
  }

  lemma TrimIgnoresRightPadding(s: string, right: string)
    requires IsBlank(right)
    ensures Trim(s + right) == Trim(s)
  {
    if IsBlank(s) {
      BlankConcat(s, right);
      TrimEmptyIffBlank(s);
      TrimEmptyIffBlank(s + right);
    } else {
      TrimStartOfSuffixPadded(s, right);
      TrimEndSkipsPadding(TrimStart(s), right);
    }
  }

  lemma TrimIgnoresLeftPadding(left: string, s: string)
    requires IsBlank(left)
    ensures Trim(left + s) == Trim(s)
  {
    TrimStartSkipsPadding(left, s);
  }

  /** Whitespace around a query does not change its trimmed form. */
  lemma TrimIgnoresPadding(left: string, s: string, right: string)
    requires IsBlank(left) && IsBlank(right)
    ensures Trim(left + s + right) == Trim(s)
  {
    var padded := s + right;
    TrimIgnoresLeftPadding(left, padded);
    TrimIgnoresRightPadding(s, right);
    assert left + s + right == left + padded;
  }

  /** Lowercasing never changes what counts as space. */
  lemma LowerKeepsSpaces(c: char)
    ensures IsSpace(LowerChar(c)) == IsSpace(c)
  {
  }

  lemma {:induction false} TrimStartCommutesWithLower(s: string)
    ensures TrimStart(Lower(s)) == Lower(TrimStart(s))
    decreases |s|
  {
    if |s| > 0 {
      LowerKeepsSpaces(s[0]);
      if IsSpace(s[0]) {
        assert Lower(s)[1..] == Lower(s[1..]);
        TrimStartCommutesWithLower(s[1..]);
      }
    }
  }

  lemma {:induction false} TrimEndCommutesWithLower(s: string)
    ensures TrimEnd(Lower(s)) == Lower(TrimEnd(s))
    decreases |s|
  {
    if |s| > 0 {
      var init, last := s[..|s| - 1], s[|s| - 1];
      LowerKeepsSpaces(last);
      assert Lower(s)[|s| - 1] == LowerChar(last);
      if IsSpace(last) {
        assert Lower(s)[..|s| - 1] == Lower(init);
        TrimEndCommutesWithLower(init);
      } else {
        TrimEndOfTrimmed(s);
        TrimEndOfTrimmed(Lower(s));
      }
    }
  }

  /** Trimming and lowercasing can be done in either order. */
  lemma TrimCommutesWithLower(s: string)
    ensures Trim(Lower(s)) == Lower(Trim(s))
  {
    TrimStartCommutesWithLower(s);
    TrimEndCommutesWithLower(TrimStart(s));
  }

  /** Lowercasing is idempotent. */
  lemma LowerIdempotent(s: string)
    ensures Lower(Lower(s)) == Lower(s)
  {
  }

  /** Lowercasing distributes over concatenation. */
  lemma LowerConcat(a: string, b: string)
    ensures Lower(a + b) == Lower(a) + Lower(b)
  {
  }

  /** An occurrence inside `a` is an occurrence inside `a + b` and `c + a`. */
  lemma ContainsInLarger(c: string, a: string, b: string, needle: string)
    requires Contains(a, needle)
    ensures Contains(c + a + b, needle)
  {
    var i :| 0 <= i <= |a| && OccursAt(a, needle, i);
    var h := c + a + b;
    assert h[|c| + i..|c| + i + |needle|] == a[i..i + |needle|];
    assert OccursAt(h, needle, |c| + i);
  }

  /** Every part of a join occurs in the joined string. */
  lemma {:induction false} JoinContainsParts(parts: seq<string>, sep: string, k: int)
    requires 0 <= k < |parts|
    ensures Contains(Join(parts, sep), parts[k])
    decreases |parts|
  {
    var p := parts[k];
    assert OccursAt(p, p, 0);
    if |parts| == 1 {
    } else if k == 0 {
      ContainsInLarger("", p, sep + Join(parts[1..], sep), p);
      assert "" + p + (sep + Join(parts[1..], sep)) == Join(parts, sep);
    } else {
      JoinContainsParts(parts[1..], sep, k - 1);
      ContainsInLarger(parts[0] + sep, Join(parts[1..], sep), "", p);
      assert parts[0] + sep + Join(parts[1..], sep) + "" == Join(parts, sep);
    }
  }
}
